/** The ADIF rules a QSO's mode, submode and custom mode must follow, and
    the band check. Mode validation collects every violated rule's
    message; it does not stop at the first. */
module Validator {
  import opened Common
  import opened Text
  import opened Enums
  import opened Bands

  /** Submodes that belong to MFSK and to PSK. */
  const MfskSubmodes: set<AdifSubmode> := {FT8, FT4, JS8}
  const PskSubmodes: set<AdifSubmode> := {PSK31, PSK63, PSK125}

  const WhenCustomMode := "When customMode is specified, "
  const CustomModeNeedsData := WhenCustomMode + "mode must be DATA"
  const CustomModeForbidsSubmode := WhenCustomMode + "submode must be null"

  /** "Submode S requires mode M, but got G". */
  function SubmodeMismatch(submode: AdifSubmode, required: AdifMode, got: AdifMode): string {
    "Submode " + submode.Name() + " requires mode " + required.Name() + ", but got " + got.Name()
  }

  /** The mode a submode belongs to, when the rules constrain it. */
  function RequiredMode(s: AdifSubmode): (m: Option<AdifMode>)
    ensures m == Some(MFSK) <==> s in MfskSubmodes
    ensures m == Some(PSK) <==> s in PskSubmodes
    ensures m.Some? ==> m == Some(MFSK) || m == Some(PSK)
  {
    if s in MfskSubmodes then Some(MFSK)
    else if s in PskSubmodes then Some(PSK)
    else None
  }

  /** The rules, stated as one predicate: a present custom mode needs mode
      DATA and no submode; an MFSK or PSK submode needs its own mode. */
  predicate ModeConfigurationValid(mode: AdifMode, submode: Option<AdifSubmode>, customMode: Option<string>) {
    && (Present(customMode) ==> mode == DATA && submode.None?)
    && (submode.Some? && submode.value in MfskSubmodes ==> mode == MFSK)
    && (submode.Some? && submode.value in PskSubmodes ==> mode == PSK)
  }

  /** The messages of the custom-mode rule, in the order they are added. */
  function CustomModeViolations(mode: AdifMode, submode: Option<AdifSubmode>, customMode: Option<string>): seq<string> {
    if !Present(customMode) then []
    else
      (if mode != DATA then [CustomModeNeedsData] else [])
      + (if submode.Some? then [CustomModeForbidsSubmode] else [])
  }

  /** The message of the submode rule, if it is broken. */
  function SubmodeViolations(mode: AdifMode, submode: Option<AdifSubmode>): seq<string> {
    if submode.None? then []
    else match RequiredMode(submode.value)
      case None => []
      case Some(required) => if mode == required then [] else [SubmodeMismatch(submode.value, required, mode)]
  }

  /** Every violation message, custom-mode rule first. */
  function ModeViolations(mode: AdifMode, submode: Option<AdifSubmode>, customMode: Option<string>): seq<string> {
    CustomModeViolations(mode, submode, customMode) + SubmodeViolations(mode, submode)
  }

  /** `validateModeConfiguration`: messages appended to a growing list. */
  method ValidateModeConfiguration(mode: AdifMode, submode: Option<AdifSubmode>, customMode: Option<string>)
    returns (errors: seq<string>)
    ensures errors == ModeViolations(mode, submode, customMode)
  {
    errors := [];
    if customMode.Some? && !IsBlank(customMode.value) {
      if mode != DATA {
        errors := errors + [CustomModeNeedsData];
      }
      if submode.Some? {
        errors := errors + [CustomModeForbidsSubmode];
      }
    }
    assert errors == CustomModeViolations(mode, submode, customMode);
    if submode.Some? {
      if submode.value in MfskSubmodes && mode != MFSK {
        errors := errors + [SubmodeMismatch(submode.value, MFSK, mode)];
      } else if submode.value in PskSubmodes && mode != PSK {
        errors := errors + [SubmodeMismatch(submode.value, PSK, mode)];
      }
    }
  }

  /** The list is empty exactly when every rule holds. */
  lemma ModeViolationsEmptyIffValid(mode: AdifMode, submode: Option<AdifSubmode>, customMode: Option<string>)
    ensures ModeViolations(mode, submode, customMode) == [] <==> ModeConfigurationValid(mode, submode, customMode)
  {
  }

  /** At most one message per check: three in all. */
  lemma ModeViolationsAtMostThree(mode: AdifMode, submode: Option<AdifSubmode>, customMode: Option<string>)
    ensures |ModeViolations(mode, submode, customMode)| <= 3
  {
  }

  /** A present custom mode with another mode than DATA reports the DATA
      message first; with a submode it reports the submode message, after
      the DATA message when both apply. */
  lemma CustomModeMessages(mode: AdifMode, submode: Option<AdifSubmode>, customMode: Option<string>)
    requires Present(customMode)
    ensures var e := ModeViolations(mode, submode, customMode);
      && (mode != DATA ==> e[0] == CustomModeNeedsData)
      && (submode.Some? ==> CustomModeForbidsSubmode in e)
      && (mode != DATA && submode.Some? ==> e[..2] == [CustomModeNeedsData, CustomModeForbidsSubmode])
  {
  }

  /** A null or blank custom mode triggers nothing of the custom-mode rule:
      the outcome is that of no custom mode at all. */
  lemma BlankCustomModeIgnored(mode: AdifMode, submode: Option<AdifSubmode>, customMode: Option<string>)
    requires !Present(customMode)
    ensures ModeViolations(mode, submode, customMode) == SubmodeViolations(mode, submode)
    ensures CustomModeNeedsData !in ModeViolations(mode, submode, customMode)
    ensures CustomModeForbidsSubmode !in ModeViolations(mode, submode, customMode)
  {
    var v := SubmodeViolations(mode, submode);
    assert |v| <= 1;
    if v != [] {
      var m := v[0];
      assert m[0] == 'S';
      assert WhenCustomMode[0] == 'W';
      assert CustomModeNeedsData[0] == 'W' && CustomModeForbidsSubmode[0] == 'W';
    }
  }

  /** A family submode under the wrong mode yields exactly one submode
      message, naming the submode, the required mode and the given one. */
  lemma WrongFamilyGivesOneMessage(mode: AdifMode, s: AdifSubmode, customMode: Option<string>)
    requires s in MfskSubmodes || s in PskSubmodes
    ensures var required := if s in MfskSubmodes then MFSK else PSK;
      mode != required ==>
        ModeViolations(mode, Some(s), customMode)
          == CustomModeViolations(mode, Some(s), customMode) + [SubmodeMismatch(s, required, mode)]
  {
  }

  /** JT65, JT9, OLIVIA and CONTESTIA never break the submode rule. */
  lemma UnconstrainedSubmodes(mode: AdifMode, s: AdifSubmode)
    requires s in {JT65, JT9, OLIVIA, CONTESTIA}
    ensures SubmodeViolations(mode, Some(s)) == []
  {
  }

  /** `isValidBand`: present, not blank and a band token ignoring case. */
  function IsValidBand(band: Option<string>): (valid: bool)
    ensures valid <==> band.Some? && !IsBlank(band.value)
                       && exists b: Band :: EqualsIgnoreCase(b.AdifValue(), band.value)
  {
    band.Some? && !IsBlank(band.value) && FromAdifValue(band.value).Ok?
  }

  /** The blank test is subsumed by the lookup: no token is blank. */
  lemma BandTokensNotBlank(b: Band)
    ensures !IsBlank(b.AdifValue())
  {
    assert !IsJavaWhitespace(b.AdifValue()[0]);
  }

  /** "20M" names the 20 m band. */
  lemma UpperCaseBandIsValid()
    ensures IsValidBand(Some("20M"))
  {
    FromAdifValueOfCaseVariant(Band20m, "20M");
    assert !IsJavaWhitespace("20M"[0]);
  }

  /** "21m" names no band. */
  lemma UnknownBandIsInvalid()
    ensures !IsValidBand(Some("21m"))
  {
    assert ToLower("21m") == "21m";
    forall b: Band ensures !EqualsIgnoreCase(b.AdifValue(), "21m") {
      TokenCharsAreLowerCase(b);
    }
  }

  /** Null and blank tokens are invalid. */
  lemma MissingBandIsInvalid(band: Option<string>)
    requires band.None? || IsBlank(band.value)
    ensures !IsValidBand(band)
  {
  }

  /** The fixed text around the quoted token in the band message. */
  const BandMessageBefore := "Invalid band "
  const BandMessageAfter := ". Must be a valid ADIF band (e.g., 160m, 80m, 40m, 20m, etc.)"
  const BandMessageHead := BandMessageBefore + "'"
  const BandMessageTail := "'" + BandMessageAfter

  /** `getBandValidationError`: the token (or "null") between the fixed head and tail. */
  function BandValidationError(band: Option<string>): (message: string)
    ensures Contains(message, "'" + band.GetOr("null") + "'")
    ensures |message| == |BandMessageHead| + |band.GetOr("null")| + |BandMessageTail|
    ensures message[..|BandMessageHead|] == BandMessageHead
    ensures message[|BandMessageHead|..|message| - |BandMessageTail|] == band.GetOr("null")
    ensures message[|message| - |BandMessageTail|..] == BandMessageTail
  {
    var shown := band.GetOr("null");
    var message := BandMessageBefore + "'" + shown + "'" + BandMessageAfter;
    QuotedAt(message, BandMessageBefore, shown, BandMessageAfter);
    assert message == BandMessageHead + shown + BandMessageTail;
    message
  }

  lemma QuotedAt(message: string, before: string, shown: string, after: string)
    requires message == before + "'" + shown + "'" + after
    ensures Contains(message, "'" + shown + "'")
  {
    assert message == before + ("'" + shown + "'") + after;
    assert OccursAt(message, "'" + shown + "'", |before|);
  }
}
