/** The ADIF 3.1.4 ADI writer of the export service: a fixed header, then
    per QSO a run of `<NAME:length>value ` data specifiers closed by
    `<EOR>`. The length is the value's Java `length()`, its count of UTF-16
    code units. A reader that takes the length at its word recovers every
    field (`AdifRecordDecodes`). */
module Adif {
  import opened Common
  import opened Text
  import opened Enums
  import opened Temporal
  import opened Decimal
  import opened QsoEntity
  import opened Grouping

  const AdifHeader := "ADIF Export\n<ADIF_VER:5>3.1.4\n<PROGRAMID:6>QSOLOG\n<EOH>\n\n"

  const EndOfRecord := "<EOR>\n"

  /** The sixteen fields the writer knows, with their ADIF names. */
  datatype Field =
    | Call | QsoDate | TimeOn | BandField | Mode | CustomModeField | Submode | Freq
    | RstSent | RstRcvd | Qth | GridSquare | Comment | QslRcvd | LotwQslrDate | EqslQslrDate
  {
    function Tag(): string {
      match this
      case Call => "CALL"
      case QsoDate => "QSO_DATE"
      case TimeOn => "TIME_ON"
      case BandField => "BAND"
      case Mode => "MODE"
      case CustomModeField => "APP_QSOLOG_CUSTOMMODE"
      case Submode => "SUBMODE"
      case Freq => "FREQ"
      case RstSent => "RST_SENT"
      case RstRcvd => "RST_RCVD"
      case Qth => "QTH"
      case GridSquare => "GRIDSQUARE"
      case Comment => "COMMENT"
      case QslRcvd => "QSL_RCVD"
      case LotwQslrDate => "LOTW_QSLRDATE"
      case EqslQslrDate => "EQSL_QSLRDATE"
    }
  }

  /** The field a reader names by `name`, if any. */
  function FieldNamed(name: string): Option<Field> {
    if name == "CALL" then Some(Call)
    else if name == "QSO_DATE" then Some(QsoDate)
    else if name == "TIME_ON" then Some(TimeOn)
    else if name == "BAND" then Some(BandField)
    else if name == "MODE" then Some(Mode)
    else if name == "APP_QSOLOG_CUSTOMMODE" then Some(CustomModeField)
    else if name == "SUBMODE" then Some(Submode)
    else if name == "FREQ" then Some(Freq)
    else if name == "RST_SENT" then Some(RstSent)
    else if name == "RST_RCVD" then Some(RstRcvd)
    else if name == "QTH" then Some(Qth)
    else if name == "GRIDSQUARE" then Some(GridSquare)
    else if name == "COMMENT" then Some(Comment)
    else if name == "QSL_RCVD" then Some(QslRcvd)
    else if name == "LOTW_QSLRDATE" then Some(LotwQslrDate)
    else if name == "EQSL_QSLRDATE" then Some(EqslQslrDate)
    else None
  }

  /** Reading a field's name back gives the field. */
  lemma FieldNamedTag(f: Field)
    ensures FieldNamed(f.Tag()) == Some(f)
  {
  }

  /** Different fields have different names, and no name holds the ':'
      that ends it in a specifier. */
  lemma TagInjective(f: Field, g: Field)
    ensures f.Tag() == g.Tag() <==> f == g
    ensures ':' !in f.Tag()
  {
    FieldNamedTag(f);
    FieldNamedTag(g);
  }

  /** One emitted field. */
  datatype AdifEntry = AdifEntry(field: Field, value: string)

  /** A field the writer considers, with the value it would write (None for
      a null value). */
  datatype Candidate = Candidate(field: Field, value: Option<string>)

  /** A data specifier as a reader sees it: a name and a value. */
  datatype Specifier = Specifier(name: string, value: string)

  /** `<NAME:length>value ` followed by a space. */
  function AdifSpecifier(name: string, value: string): string {
    "<" + name + ":" + NatToString(Utf16Length(value)) + ">" + value + " "
  }

  /** What `appendAdifField` appends: the specifier for a present,
      non-blank value; nothing for a null or blank one. */
  function AdifField(name: string, value: Option<string>): (r: string)
    ensures !Present(value) <==> r == ""
  {
    if Present(value) then AdifSpecifier(name, value.value) else ""
  }

  /** `appendAdifField`, appending piece by piece to the builder. */
  method AppendAdifField(sb: StringBuilder, name: string, value: Option<string>)
    modifies sb
    ensures sb.content == old(sb.content) + AdifField(name, value)
  {
    if value.Some? && !IsBlank(value.value) {
      sb.Append("<");
      sb.Append(name);
      sb.Append(":");
      sb.Append(NatToString(Utf16Length(value.value)));
      sb.Append(">");
      sb.Append(value.value);
      sb.Append(" ");
    } else {
      assert AdifField(name, value) == "";
    }
  }

  /** The fields in the order the writer considers them. */
  const AdifFieldOrder: seq<Field> := [
    Call, QsoDate, TimeOn, BandField, Mode, CustomModeField, Submode, Freq,
    RstSent, RstRcvd, Qth, GridSquare, Comment, QslRcvd, LotwQslrDate, EqslQslrDate]

  /** The order lists every field once. */
  lemma AdifFieldOrderEnumerates()
    ensures |AdifFieldOrder| == 16
    ensures forall f: Field :: f in AdifFieldOrder
    ensures Distinct(AdifFieldOrder)
  {
    forall f: Field ensures f in AdifFieldOrder {
      match f
      case Call => assert AdifFieldOrder[0] == f;
      case QsoDate => assert AdifFieldOrder[1] == f;
      case TimeOn => assert AdifFieldOrder[2] == f;
      case BandField => assert AdifFieldOrder[3] == f;
      case Mode => assert AdifFieldOrder[4] == f;
      case CustomModeField => assert AdifFieldOrder[5] == f;
      case Submode => assert AdifFieldOrder[6] == f;
      case Freq => assert AdifFieldOrder[7] == f;
      case RstSent => assert AdifFieldOrder[8] == f;
      case RstRcvd => assert AdifFieldOrder[9] == f;
      case Qth => assert AdifFieldOrder[10] == f;
      case GridSquare => assert AdifFieldOrder[11] == f;
      case Comment => assert AdifFieldOrder[12] == f;
      case QslRcvd => assert AdifFieldOrder[13] == f;
      case LotwQslrDate => assert AdifFieldOrder[14] == f;
      case EqslQslrDate => assert AdifFieldOrder[15] == f;
    }
  }

  function SubmodeName(s: Option<AdifSubmode>): Option<string> {
    if s.Some? then Some(s.value.Name()) else None
  }

  function QslName(s: Option<QslStatus>): Option<string> {
    if s.Some? then Some(s.value.Name()) else None
  }

  function LotwName(s: Option<LotwStatus>): Option<string> {
    if s.Some? then Some(s.value.Name()) else None
  }

  function EqslName(s: Option<EqslStatus>): Option<string> {
    if s.Some? then Some(s.value.Name()) else None
  }

  function FrequencyText(f: Option<BigDecimal>): Option<string> {
    if f.Some? then Some(FrequencyMhzText(f.value)) else None
  }

  /** The fields `formatQsoAsAdif` considers for one QSO, in the four
      groups the method writes them. */
  function AdifCandidates(r: QsoRecord): (cs: seq<Candidate>)
    ensures |cs| == |AdifFieldOrder|
    ensures forall i | 0 <= i < |cs| :: cs[i].field == AdifFieldOrder[i]
  {
    var a, b, c, d := RequiredCandidates(r.contact), ModeCandidates(r.contact), OptionalCandidates(r.contact), StatusCandidates(r);
    var cs := a + b + c + d;
    assert forall i | 0 <= i < 4 :: cs[i] == a[i];
    assert forall i | 4 <= i < 7 :: cs[i] == b[i - 4];
    assert forall i | 7 <= i < 13 :: cs[i] == c[i - 7];
    assert forall i | 13 <= i < 16 :: cs[i] == d[i - 13];
    cs
  }

  /** CALL, QSO_DATE (yyyyMMdd), TIME_ON (HHmmss) and BAND. */
  function RequiredCandidates(c: Contact): (cs: seq<Candidate>)
    ensures |cs| == 4 && forall i | 0 <= i < 4 :: cs[i].field == AdifFieldOrder[i]
  {
    [ Candidate(Call, Some(c.theirCallsign)),
      Candidate(QsoDate, Some(BasicIsoDate(c.qsoDate))),
      Candidate(TimeOn, Some(CompactTime(c.timeOn))),
      Candidate(BandField, Some(c.band)) ]
  }

  /** A present custom mode turns MODE into DATA, adds the vendor field
      and suppresses SUBMODE; otherwise MODE is the mode's name and SUBMODE
      the submode's. */
  function ModeCandidates(c: Contact): (cs: seq<Candidate>)
    ensures |cs| == 3 && forall i | 0 <= i < 3 :: cs[i].field == AdifFieldOrder[4 + i]
  {
    var custom := Present(c.customMode);
    [ Candidate(Mode, Some(if custom then "DATA" else c.mode.Name())),
      Candidate(CustomModeField, if custom then c.customMode else None),
      Candidate(Submode, if custom then None else SubmodeName(c.submode)) ]
  }

  /** FREQ in MHz, then the free-text fields. */
  function OptionalCandidates(c: Contact): (cs: seq<Candidate>)
    ensures |cs| == 6 && forall i | 0 <= i < 6 :: cs[i].field == AdifFieldOrder[7 + i]
  {
    [ Candidate(Freq, FrequencyText(c.frequencyKhz)),
      Candidate(RstSent, c.rstSent),
      Candidate(RstRcvd, c.rstRecv),
      Candidate(Qth, c.qth),
      Candidate(GridSquare, c.gridSquare),
      Candidate(Comment, c.notes) ]
  }

  /** The three confirmation statuses. */
  function StatusCandidates(r: QsoRecord): (cs: seq<Candidate>)
    ensures |cs| == 3 && forall i | 0 <= i < 3 :: cs[i].field == AdifFieldOrder[13 + i]
  {
    [ Candidate(QslRcvd, QslName(r.qslStatus)),
      Candidate(LotwQslrDate, LotwName(r.lotwStatus)),
      Candidate(EqslQslrDate, EqslName(r.eqslStatus)) ]
  }

  /** The candidates with a present, non-blank value, in order. */
  function Collect(cs: seq<Candidate>): seq<AdifEntry> {
    if cs == [] then []
    else (if Present(cs[0].value) then [AdifEntry(cs[0].field, cs[0].value.value)] else []) + Collect(cs[1..])
  }

  /** An entry is written for exactly the present candidates. */
  lemma {:induction false} CollectMembers(cs: seq<Candidate>)
    ensures forall e | e in Collect(cs) :: !IsBlank(e.value)
    ensures forall e | e in Collect(cs) :: Candidate(e.field, Some(e.value)) in cs
    ensures forall i | 0 <= i < |cs| && Present(cs[i].value) :: AdifEntry(cs[i].field, cs[i].value.value) in Collect(cs)
  {
    if cs != [] {
      CollectMembers(cs[1..]);
      assert forall i | 1 <= i < |cs| :: cs[i] == cs[1..][i - 1];
    }
  }

  /** The fields one record carries, in order. */
  function AdifEntries(r: QsoRecord): seq<AdifEntry> {
    Collect(AdifCandidates(r))
  }

  /** The specifier of one emitted field. */
  function EntryText(e: AdifEntry): string {
    AdifSpecifier(e.field.Tag(), e.value)
  }

  /** What one `appendAdifField` call contributes for a candidate. */
  function FieldText(c: Candidate): string {
    AdifField(c.field.Tag(), c.value)
  }

  function Encode(es: seq<AdifEntry>): string {
    ConcatMap(es, EntryText)
  }

  /** The text of one record. */
  function AdifRecord(r: QsoRecord): string {
    Encode(AdifEntries(r)) + EndOfRecord
  }

  /** Encoding the collected entries is rendering every candidate, the
      absent ones as nothing. */
  lemma {:induction false} EncodeCollect(cs: seq<Candidate>)
    ensures Encode(Collect(cs)) == ConcatMap(cs, FieldText)
  {
    if cs != [] {
      EncodeCollect(cs[1..]);
      var rest := Collect(cs[1..]);
      if Present(cs[0].value) {
        var e := AdifEntry(cs[0].field, cs[0].value.value);
        assert Collect(cs) == [e] + rest;
        assert ([e] + rest)[1..] == rest;
        assert FieldText(cs[0]) == EntryText(e);
      } else {
        assert Collect(cs) == rest;
        assert FieldText(cs[0]) == "";
      }
    }
  }

  /** The record text is the four groups of candidates rendered one
      after another, then the end-of-record marker. */
  lemma AdifRecordUnfolded(r: QsoRecord)
    ensures AdifRecord(r) ==
      ConcatMap(RequiredCandidates(r.contact), FieldText) + ConcatMap(ModeCandidates(r.contact), FieldText)
      + ConcatMap(OptionalCandidates(r.contact), FieldText) + ConcatMap(StatusCandidates(r), FieldText)
      + EndOfRecord
  {
    var a, b, c, d := RequiredCandidates(r.contact), ModeCandidates(r.contact), OptionalCandidates(r.contact), StatusCandidates(r);
    EncodeCollect(a + b + c + d);
    ConcatMapAppend(a + b + c, d, FieldText);
    ConcatMapAppend(a + b, c, FieldText);
    ConcatMapAppend(a, b, FieldText);
  }

  /** Each group of candidates rendered, field by field. */
  lemma RequiredText(c: Contact)
    ensures ConcatMap(RequiredCandidates(c), FieldText)
      == FieldText(Candidate(Call, Some(c.theirCallsign))) + FieldText(Candidate(QsoDate, Some(BasicIsoDate(c.qsoDate))))
         + FieldText(Candidate(TimeOn, Some(CompactTime(c.timeOn)))) + FieldText(Candidate(BandField, Some(c.band)))
  {
    ConcatMapFour(Candidate(Call, Some(c.theirCallsign)), Candidate(QsoDate, Some(BasicIsoDate(c.qsoDate))),
      Candidate(TimeOn, Some(CompactTime(c.timeOn))), Candidate(BandField, Some(c.band)), FieldText);
  }

  lemma ModeText(c: Contact)
    ensures var custom := Present(c.customMode);
      ConcatMap(ModeCandidates(c), FieldText)
        == FieldText(Candidate(Mode, Some(if custom then "DATA" else c.mode.Name())))
           + FieldText(Candidate(CustomModeField, if custom then c.customMode else None))
           + FieldText(Candidate(Submode, if custom then None else SubmodeName(c.submode)))
  {
    var custom := Present(c.customMode);
    ConcatMapThree(Candidate(Mode, Some(if custom then "DATA" else c.mode.Name())),
      Candidate(CustomModeField, if custom then c.customMode else None),
      Candidate(Submode, if custom then None else SubmodeName(c.submode)), FieldText);
  }

  lemma OptionalText(c: Contact)
    ensures ConcatMap(OptionalCandidates(c), FieldText)
      == FieldText(Candidate(Freq, FrequencyText(c.frequencyKhz))) + FieldText(Candidate(RstSent, c.rstSent))
         + FieldText(Candidate(RstRcvd, c.rstRecv)) + FieldText(Candidate(Qth, c.qth))
         + FieldText(Candidate(GridSquare, c.gridSquare)) + FieldText(Candidate(Comment, c.notes))
  {
    ConcatMapSix(Candidate(Freq, FrequencyText(c.frequencyKhz)), Candidate(RstSent, c.rstSent),
      Candidate(RstRcvd, c.rstRecv), Candidate(Qth, c.qth), Candidate(GridSquare, c.gridSquare),
      Candidate(Comment, c.notes), FieldText);
  }

  lemma StatusText(r: QsoRecord)
    ensures ConcatMap(StatusCandidates(r), FieldText)
      == FieldText(Candidate(QslRcvd, QslName(r.qslStatus))) + FieldText(Candidate(LotwQslrDate, LotwName(r.lotwStatus)))
         + FieldText(Candidate(EqslQslrDate, EqslName(r.eqslStatus)))
  {
    ConcatMapThree(Candidate(QslRcvd, QslName(r.qslStatus)), Candidate(LotwQslrDate, LotwName(r.lotwStatus)),
      Candidate(EqslQslrDate, EqslName(r.eqslStatus)), FieldText);
  }

  /** `formatQsoAsAdif`, appending field after field to a string builder,
      in the four groups of calls the method makes. */
  method FormatQsoAsAdif(q: Qso) returns (s: string)
    ensures s == AdifRecord(q.Snapshot())
  {
    var r := q.Snapshot();
    var sb := new StringBuilder("");
    AppendRequiredFields(sb, r.contact);
    AppendModeFields(sb, r.contact);
    AppendOptionalFields(sb, r.contact);
    AppendStatusFields(sb, r);
    sb.Append(EndOfRecord);
    s := sb.content;
    AdifRecordUnfolded(r);
    assert "" + ConcatMap(RequiredCandidates(r.contact), FieldText) == ConcatMap(RequiredCandidates(r.contact), FieldText);
  }

  method AppendRequiredFields(sb: StringBuilder, c: Contact)
    modifies sb
    ensures sb.content == old(sb.content) + ConcatMap(RequiredCandidates(c), FieldText)
  {
    ghost var s0 := sb.content;
    AppendAdifField(sb, Call.Tag(), Some(c.theirCallsign));
    ghost var s1 := sb.content;
    assert s1 == s0 + FieldText(Candidate(Call, Some(c.theirCallsign)));
    AppendAdifField(sb, QsoDate.Tag(), Some(BasicIsoDate(c.qsoDate)));
    ghost var s2 := sb.content;
    assert s2 == s1 + FieldText(Candidate(QsoDate, Some(BasicIsoDate(c.qsoDate))));
    AppendAdifField(sb, TimeOn.Tag(), Some(CompactTime(c.timeOn)));
    ghost var s3 := sb.content;
    assert s3 == s2 + FieldText(Candidate(TimeOn, Some(CompactTime(c.timeOn))));
    AppendAdifField(sb, BandField.Tag(), Some(c.band));
    assert sb.content == s3 + FieldText(Candidate(BandField, Some(c.band)));
    RequiredText(c);
    AppendRegroup4(s0, FieldText(Candidate(Call, Some(c.theirCallsign))), FieldText(Candidate(QsoDate, Some(BasicIsoDate(c.qsoDate)))),
      FieldText(Candidate(TimeOn, Some(CompactTime(c.timeOn)))), FieldText(Candidate(BandField, Some(c.band))));
  }

  /** MODE=DATA and the vendor field for a custom mode; otherwise the
      mode's name and, if set, the submode's. */
  method AppendModeFields(sb: StringBuilder, c: Contact)
    modifies sb
    ensures sb.content == old(sb.content) + ConcatMap(ModeCandidates(c), FieldText)
  {
    ghost var s0 := sb.content;
    if c.customMode.Some? && !IsBlank(c.customMode.value) {
      AppendCustomMode(sb, c.customMode);
    } else {
      AppendStandardMode(sb, c.mode, c.submode);
    }
    ModeText(c);
    ghost var custom := Present(c.customMode);
    AppendRegroup3(s0, FieldText(Candidate(Mode, Some(if custom then "DATA" else c.mode.Name()))),
      FieldText(Candidate(CustomModeField, if custom then c.customMode else None)),
      FieldText(Candidate(Submode, if custom then None else SubmodeName(c.submode))));
  }

  /** The custom-mode branch: MODE=DATA, then the vendor field. */
  method AppendCustomMode(sb: StringBuilder, customMode: Option<string>)
    requires Present(customMode)
    modifies sb
    ensures sb.content == old(sb.content) + FieldText(Candidate(Mode, Some("DATA")))
      + FieldText(Candidate(CustomModeField, customMode)) + FieldText(Candidate(Submode, None))
  {
    ghost var s0 := sb.content;
    AppendAdifField(sb, Mode.Tag(), Some("DATA"));
    ghost var s1 := sb.content;
    assert s1 == s0 + FieldText(Candidate(Mode, Some("DATA")));
    AppendAdifField(sb, CustomModeField.Tag(), customMode);
    assert sb.content == s1 + FieldText(Candidate(CustomModeField, customMode));
    assert FieldText(Candidate(Submode, None)) == "";
  }

  /** The standard branch: the mode's name, then the submode's if set. */
  method AppendStandardMode(sb: StringBuilder, mode: AdifMode, submode: Option<AdifSubmode>)
    modifies sb
    ensures sb.content == old(sb.content) + FieldText(Candidate(Mode, Some(mode.Name())))
      + FieldText(Candidate(CustomModeField, None)) + FieldText(Candidate(Submode, SubmodeName(submode)))
  {
    ghost var s0 := sb.content;
    AppendAdifField(sb, Mode.Tag(), Some(mode.Name()));
    ghost var s1 := sb.content;
    assert s1 == s0 + FieldText(Candidate(Mode, Some(mode.Name())));
    assert FieldText(Candidate(CustomModeField, None)) == "";
    if submode.Some? {
      AppendAdifField(sb, Submode.Tag(), Some(submode.value.Name()));
    } else {
      assert FieldText(Candidate(Submode, None)) == "";
    }
    assert sb.content == s1 + FieldText(Candidate(Submode, SubmodeName(submode)));
  }

  /** FREQ when a frequency is stored, then each free-text field that is
      present and not blank. */
  method AppendOptionalFields(sb: StringBuilder, c: Contact)
    modifies sb
    ensures sb.content == old(sb.content) + ConcatMap(OptionalCandidates(c), FieldText)
  {
    ghost var s0 := sb.content;
    if c.frequencyKhz.Some? {
      AppendAdifField(sb, Freq.Tag(), Some(FrequencyMhzText(c.frequencyKhz.value)));
    } else {
      assert FieldText(Candidate(Freq, None)) == "";
    }
    assert sb.content == s0 + FieldText(Candidate(Freq, FrequencyText(c.frequencyKhz)));
    AppendIfPresent(sb, RstSent, c.rstSent);
    AppendIfPresent(sb, RstRcvd, c.rstRecv);
    AppendIfPresent(sb, Qth, c.qth);
    AppendIfPresent(sb, GridSquare, c.gridSquare);
    AppendIfPresent(sb, Comment, c.notes);
    OptionalText(c);
    AppendRegroup6(s0, FieldText(Candidate(Freq, FrequencyText(c.frequencyKhz))), FieldText(Candidate(RstSent, c.rstSent)),
      FieldText(Candidate(RstRcvd, c.rstRecv)), FieldText(Candidate(Qth, c.qth)),
      FieldText(Candidate(GridSquare, c.gridSquare)), FieldText(Candidate(Comment, c.notes)));
  }

  /** The guard the method puts around each free-text field: present and
      not blank. */
  method AppendIfPresent(sb: StringBuilder, f: Field, v: Option<string>)
    modifies sb
    ensures sb.content == old(sb.content) + FieldText(Candidate(f, v))
  {
    if v.Some? && !IsBlank(v.value) {
      AppendAdifField(sb, f.Tag(), v);
    } else {
      assert FieldText(Candidate(f, v)) == "";
    }
  }

  /** The three confirmation statuses, each when set. */
  method AppendStatusFields(sb: StringBuilder, r: QsoRecord)
    modifies sb
    ensures sb.content == old(sb.content) + ConcatMap(StatusCandidates(r), FieldText)
  {
    ghost var s0 := sb.content;
    if r.qslStatus.Some? {
      AppendAdifField(sb, QslRcvd.Tag(), Some(r.qslStatus.value.Name()));
    }
    ghost var s1 := sb.content;
    assert s1 == s0 + FieldText(Candidate(QslRcvd, QslName(r.qslStatus)));
    if r.lotwStatus.Some? {
      AppendAdifField(sb, LotwQslrDate.Tag(), Some(r.lotwStatus.value.Name()));
    }
    ghost var s2 := sb.content;
    assert s2 == s1 + FieldText(Candidate(LotwQslrDate, LotwName(r.lotwStatus)));
    if r.eqslStatus.Some? {
      AppendAdifField(sb, EqslQslrDate.Tag(), Some(r.eqslStatus.value.Name()));
    }
    assert sb.content == s2 + FieldText(Candidate(EqslQslrDate, EqslName(r.eqslStatus)));
    StatusText(r);
    AppendRegroup3(s0, FieldText(Candidate(QslRcvd, QslName(r.qslStatus))), FieldText(Candidate(LotwQslrDate, LotwName(r.lotwStatus))),
      FieldText(Candidate(EqslQslrDate, EqslName(r.eqslStatus))));
  }

  // Reading a record back

  /** The shortest prefix of `s` that is `n` UTF-16 code units long. */
  function TakeUnits(s: string, n: nat): (r: Option<string>)
    ensures r.Some? ==> |r.value| <= |s| && r.value == s[..|r.value|] && Utf16Length(r.value) == n
  {
    if n == 0 then Some("")
    else if s == [] || Utf16Width(s[0]) > n then None
    else
      match TakeUnits(s[1..], n - Utf16Width(s[0]))
      case None => None
      case Some(t) => Some([s[0]] + t)
  }

  lemma {:induction false} TakeUnitsOfPrefix(v: string, rest: string)
    ensures TakeUnits(v + rest, Utf16Length(v)) == Some(v)
  {
    if v != [] {
      assert (v + rest)[1..] == v[1..] + rest;
      TakeUnitsOfPrefix(v[1..], rest);
      assert v == [v[0]] + v[1..];
    }
  }

  /** Reads one `<NAME:length>value ` specifier, giving it and the text
      after it. */
  function ParseSpecifier(s: string): (r: Option<(Specifier, string)>)
    ensures r.Some? ==> |r.value.1| < |s|
  {
    if s == [] || s[0] != '<' then None else ParseName(s[1..])
  }

  /** The name runs up to the first ':'. */
  function ParseName(t: string): (r: Option<(Specifier, string)>)
    ensures r.Some? ==> |r.value.1| < |t|
  {
    var i := FindChar(t, ':');
    if i == |t| then None else ParseLength(t[..i], t[i + 1..])
  }

  /** The length is the digits up to the first '>'. */
  function ParseLength(name: string, t: string): (r: Option<(Specifier, string)>)
    ensures r.Some? ==> |r.value.1| < |t|
  {
    var j := FindChar(t, '>');
    if j == |t| || j == 0 || !AllDigits(t[..j]) then None
    else ParseValue(name, DigitsValue(t[..j]), t[j + 1..])
  }

  /** The value is the next `n` code units, and a space follows it. */
  function ParseValue(name: string, n: nat, t: string): (r: Option<(Specifier, string)>)
    ensures r.Some? ==> |r.value.1| < |t|
  {
    match TakeUnits(t, n)
    case None => None
    case Some(v) =>
      if |v| < |t| && t[|v|] == ' ' then Some((Specifier(name, v), t[|v| + 1..])) else None
  }

  /** Reads the specifiers of one record up to `<EOR>`. */
  function ParseRecord(s: string): Option<seq<Specifier>>
    decreases |s|
  {
    if s == EndOfRecord then Some([])
    else
      match ParseSpecifier(s)
      case None => None
      case Some((sp, rest)) =>
        match ParseRecord(rest)
        case None => None
        case Some(sps) => Some([sp] + sps)
  }

  lemma ParseValueOf(name: string, v: string, rest: string)
    ensures ParseValue(name, Utf16Length(v), v + (" " + rest)) == Some((Specifier(name, v), rest))
  {
    var t := v + (" " + rest);
    TakeUnitsOfPrefix(v, " " + rest);
    assert t[|v|] == ' ';
    assert t[|v| + 1..] == rest;
  }

  lemma ParseLengthOf(name: string, v: string, rest: string)
    ensures var digits := NatToString(Utf16Length(v));
      ParseLength(name, digits + (">" + (v + (" " + rest)))) == Some((Specifier(name, v), rest))
  {
    var digits := NatToString(Utf16Length(v));
    var body := v + (" " + rest);
    var t := digits + (">" + body);
    assert '>' !in digits by {
      forall k | 0 <= k < |digits| ensures digits[k] != '>' {
        assert IsDigit(digits[k]);
      }
    }
    FindCharAppend(digits, ">" + body, '>');
    assert t[..|digits|] == digits;
    assert t[|digits| + 1..] == body;
    DigitsValueOfNatToString(Utf16Length(v));
    ParseValueOf(name, v, rest);
  }

  lemma ParseNameOf(name: string, t: string)
    requires ':' !in name
    ensures ParseName(name + (":" + t)) == ParseLength(name, t)
  {
    var u := name + (":" + t);
    FindCharAppend(name, ":" + t, ':');
    assert u[..|name|] == name;
    assert u[|name| + 1..] == t;
  }

  lemma RegroupRight<T>(a: seq<T>, b: seq<T>, c: seq<T>, d: seq<T>, e: seq<T>, f: seq<T>, g: seq<T>, h: seq<T>)
    ensures a + b + c + d + e + f + g + h == a + (b + (c + (d + (e + (f + (g + h))))))
  {
  }

  lemma ParseSpecifierOf(name: string, v: string, rest: string)
    requires ':' !in name
    ensures ParseSpecifier(AdifSpecifier(name, v) + rest) == Some((Specifier(name, v), rest))
  {
    var digits := NatToString(Utf16Length(v));
    var t := digits + (">" + (v + (" " + rest)));
    var s := AdifSpecifier(name, v) + rest;
    RegroupRight("<", name, ":", digits, ">", v, " ", rest);
    assert s[1..] == name + (":" + t);
    ParseNameOf(name, t);
    ParseLengthOf(name, v, rest);
  }

  /** The reader's view of the written entries: names spelled out. */
  function Spelled(es: seq<AdifEntry>): (sps: seq<Specifier>)
    ensures |sps| == |es|
    ensures forall i | 0 <= i < |es| :: sps[i] == Specifier(es[i].field.Tag(), es[i].value)
  {
    if es == [] then [] else [Specifier(es[0].field.Tag(), es[0].value)] + Spelled(es[1..])
  }

  /** A reader recovers the entries from their encoding. */
  lemma {:induction false} ParseEncoded(es: seq<AdifEntry>)
    ensures ParseRecord(Encode(es) + EndOfRecord) == Some(Spelled(es))
  {
    if es != [] {
      var name := es[0].field.Tag();
      var rest := Encode(es[1..]) + EndOfRecord;
      var s := Encode(es) + EndOfRecord;
      assert s == AdifSpecifier(name, es[0].value) + rest;
      TagInjective(es[0].field, es[0].field);
      ParseSpecifierOf(name, es[0].value, rest);
      assert s[|name| + 1] == ':';
      assert s != EndOfRecord;
      ParseEncoded(es[1..]);
    }
  }

  /** The decoding partner of the writer: reading a record back with the
      declared lengths gives exactly its fields, names and values. */
  lemma AdifRecordDecodes(r: QsoRecord)
    ensures ParseRecord(AdifRecord(r)) == Some(Spelled(AdifEntries(r)))
  {
    ParseEncoded(AdifEntries(r));
  }

  // What the record says

  function Fields(es: seq<AdifEntry>): (fs: seq<Field>)
    ensures |fs| == |es|
    ensures forall i | 0 <= i < |es| :: fs[i] == es[i].field
  {
    if es == [] then [] else [es[0].field] + Fields(es[1..])
  }

  /** `a` is `b` with some elements left out. */
  predicate IsSubsequence<T(==)>(a: seq<T>, b: seq<T>) {
    if a == [] then true
    else if b == [] then false
    else if a[0] == b[0] then IsSubsequence(a[1..], b[1..])
    else IsSubsequence(a, b[1..])
  }

  lemma {:induction false} SubsequenceTail<T>(a: seq<T>, b: seq<T>)
    requires a != [] && IsSubsequence(a, b)
    ensures IsSubsequence(a[1..], b)
    decreases |b|, 0
  {
    if a[0] == b[0] {
      SubsequenceDropHead(a[1..], b[0], b[1..]);
      assert b == [b[0]] + b[1..];
    } else {
      SubsequenceTail(a, b[1..]);
      SubsequenceDropHead(a[1..], b[0], b[1..]);
      assert b == [b[0]] + b[1..];
    }
  }

  lemma {:induction false} SubsequenceDropHead<T>(a: seq<T>, x: T, b: seq<T>)
    requires IsSubsequence(a, b)
    ensures IsSubsequence(a, [x] + b)
    decreases |b|, 1
  {
    assert ([x] + b)[1..] == b;
    if a != [] && a[0] == x {
      SubsequenceTail(a, b);
    }
  }

  lemma {:induction false} CollectInOrder(cs: seq<Candidate>, order: seq<Field>)
    requires |cs| == |order| && forall i | 0 <= i < |cs| :: cs[i].field == order[i]
    ensures IsSubsequence(Fields(Collect(cs)), order)
  {
    if cs != [] {
      CollectInOrder(cs[1..], order[1..]);
      var rest := Collect(cs[1..]);
      if Present(cs[0].value) {
        var es := [AdifEntry(cs[0].field, cs[0].value.value)] + rest;
        assert Collect(cs) == es;
        assert es[1..] == rest;
        assert Fields(es)[1..] == Fields(rest);
      } else {
        assert Collect(cs) == rest;
        SubsequenceDropHead(Fields(rest), order[0], order[1..]);
        assert order == [order[0]] + order[1..];
      }
    }
  }

  lemma {:induction false} SubsequenceMembers<T>(a: seq<T>, b: seq<T>)
    requires IsSubsequence(a, b)
    ensures forall x | x in a :: x in b
  {
    if a != [] {
      if a[0] == b[0] {
        SubsequenceMembers(a[1..], b[1..]);
        assert forall x | x in a :: x == a[0] || x in a[1..];
      } else {
        SubsequenceMembers(a, b[1..]);
      }
    }
  }

  /** A subsequence of a sequence without repetitions has none either. */
  lemma {:induction false} SubsequenceOfDistinct<T(!new)>(a: seq<T>, b: seq<T>)
    requires IsSubsequence(a, b) && Distinct(b)
    ensures Distinct(a)
  {
    if a != [] {
      DistinctTail(b);
      if a[0] == b[0] {
        SubsequenceOfDistinct(a[1..], b[1..]);
        SubsequenceMembers(a[1..], b[1..]);
        forall i, j | 0 <= i < j < |a| ensures a[i] != a[j] {
          if i == 0 {
            assert a[j] == a[1..][j - 1];
          } else {
            assert a[i] == a[1..][i - 1] && a[j] == a[1..][j - 1];
          }
        }
      } else {
        SubsequenceOfDistinct(a, b[1..]);
      }
    }
  }

  /** The record's fields appear in the writer's fixed order, and none
      twice. */
  lemma AdifFieldsInOrder(r: QsoRecord)
    ensures IsSubsequence(Fields(AdifEntries(r)), AdifFieldOrder)
    ensures Distinct(Fields(AdifEntries(r)))
  {
    CollectInOrder(AdifCandidates(r), AdifFieldOrder);
    AdifFieldOrderEnumerates();
    SubsequenceOfDistinct(Fields(AdifEntries(r)), AdifFieldOrder);
  }

  /** The entries of field `cs[i].field`: one with the candidate's value
      if that is present, none otherwise. */
  lemma CandidateEntry(r: QsoRecord, i: nat)
    requires i < 16
    ensures var cs := AdifCandidates(r);
      && (Present(cs[i].value) ==> AdifEntry(cs[i].field, cs[i].value.value) in AdifEntries(r))
      && (forall e | e in AdifEntries(r) && e.field == cs[i].field :: Present(cs[i].value) && e.value == cs[i].value.value)
  {
    var cs := AdifCandidates(r);
    AdifFieldOrderEnumerates();
    CollectMembers(cs);
    forall e | e in AdifEntries(r) && e.field == cs[i].field
      ensures Present(cs[i].value) && e.value == cs[i].value.value
    {
      var k :| 0 <= k < |cs| && cs[k] == Candidate(e.field, Some(e.value));
      assert AdifFieldOrder[k] == AdifFieldOrder[i];
      assert !IsBlank(e.value);
    }
  }

  lemma SubmodeNameNotBlank(s: AdifSubmode)
    ensures !IsBlank(s.Name())
  {
    assert !IsJavaWhitespace(s.Name()[0]);
  }

  lemma ModeNameNotBlank(m: AdifMode)
    ensures !IsBlank(m.Name())
  {
    assert !IsJavaWhitespace(m.Name()[0]);
  }

  /** QSO_DATE and TIME_ON are written for every QSO. */
  lemma DateTimeRecord(r: QsoRecord)
    ensures var es := AdifEntries(r);
      && AdifEntry(QsoDate, BasicIsoDate(r.contact.qsoDate)) in es
      && AdifEntry(TimeOn, CompactTime(r.contact.timeOn)) in es
  {
    var d := BasicIsoDate(r.contact.qsoDate);
    var t := CompactTime(r.contact.timeOn);
    assert d[0] == '+' || IsDigit(d[0]);
    assert !IsJavaWhitespace(d[0]);
    assert IsDigit(t[0]);
    assert !IsJavaWhitespace(t[0]);
    CandidateEntry(r, 1);
    CandidateEntry(r, 2);
  }

  /** CALL and BAND are written whenever they are not blank, and only
      then. */
  lemma CallBandRecord(r: QsoRecord)
    ensures var es := AdifEntries(r);
      && (!IsBlank(r.contact.theirCallsign) <==> AdifEntry(Call, r.contact.theirCallsign) in es)
      && (!IsBlank(r.contact.band) <==> AdifEntry(BandField, r.contact.band) in es)
  {
    CandidateEntry(r, 0);
    CandidateEntry(r, 3);
  }

  /** A present custom mode: MODE is DATA, the vendor field carries the
      custom mode, and no SUBMODE is written, whatever mode and submode
      are stored. */
  lemma CustomModeRecord(r: QsoRecord)
    requires Present(r.contact.customMode)
    ensures var es := AdifEntries(r);
      && AdifEntry(Mode, "DATA") in es
      && AdifEntry(CustomModeField, r.contact.customMode.value) in es
      && (forall e | e in es && e.field == Mode :: e.value == "DATA")
      && (forall e | e in es :: e.field != Submode)
  {
    assert !IsJavaWhitespace("DATA"[0]);
    CandidateEntry(r, 4);
    CandidateEntry(r, 5);
    CandidateEntry(r, 6);
  }

  /** No custom mode: MODE is the stored mode's name, no vendor field is
      written, and a SUBMODE field with the submode's name is written
      exactly when a submode is set. */
  lemma StandardModeRecord(r: QsoRecord)
    requires !Present(r.contact.customMode)
    ensures var es := AdifEntries(r);
      && AdifEntry(Mode, r.contact.mode.Name()) in es
      && (forall e | e in es && e.field == Mode :: e.value == r.contact.mode.Name())
      && (forall e | e in es :: e.field != CustomModeField)
      && (r.contact.submode.Some? ==> AdifEntry(Submode, r.contact.submode.value.Name()) in es)
      && (r.contact.submode.None? ==> forall e | e in es :: e.field != Submode)
  {
    ModeNameNotBlank(r.contact.mode);
    if r.contact.submode.Some? {
      SubmodeNameNotBlank(r.contact.submode.value);
    }
    CandidateEntry(r, 4);
    CandidateEntry(r, 5);
    CandidateEntry(r, 6);
  }

  /** A plain-notation decimal never prints blank: it starts with a digit
      or a minus sign. */
  lemma PlainStringNotBlank(x: BigDecimal)
    ensures !IsBlank(ToPlainString(x))
  {
    var s := ToPlainString(x);
    var digits := NatToString(Abs(x.unscaled));
    assert IsDigit(digits[0]);
    if x.scale > 0 && x.unscaled >= 0 {
      assert s == PointLayout(digits, x.scale);
    }
    assert s[0] == '-' || IsDigit(s[0]);
    assert !IsJavaWhitespace(s[0]);
  }

  /** FREQ is written exactly when a frequency is stored, as its MHz text. */
  lemma FrequencyRecord(r: QsoRecord)
    ensures var es := AdifEntries(r);
      && (r.contact.frequencyKhz.Some? ==> AdifEntry(Freq, FrequencyMhzText(r.contact.frequencyKhz.value)) in es)
      && (r.contact.frequencyKhz.None? ==> forall e | e in es :: e.field != Freq)
  {
    if r.contact.frequencyKhz.Some? {
      PlainStringNotBlank(StripTrailingZeros(KhzToMhz(r.contact.frequencyKhz.value)));
    }
    CandidateEntry(r, 7);
  }

  /** The free-text fields: each is written, as stored, exactly when it is
      present and not blank. */
  lemma TextFieldsRecord(r: QsoRecord)
    ensures var es := AdifEntries(r); var c := r.contact;
      && (Present(c.rstSent) ==> AdifEntry(RstSent, c.rstSent.value) in es)
      && (!Present(c.rstSent) ==> forall e | e in es :: e.field != RstSent)
      && (Present(c.rstRecv) ==> AdifEntry(RstRcvd, c.rstRecv.value) in es)
      && (!Present(c.rstRecv) ==> forall e | e in es :: e.field != RstRcvd)
      && (Present(c.qth) ==> AdifEntry(Qth, c.qth.value) in es)
      && (!Present(c.qth) ==> forall e | e in es :: e.field != Qth)
      && (Present(c.gridSquare) ==> AdifEntry(GridSquare, c.gridSquare.value) in es)
      && (!Present(c.gridSquare) ==> forall e | e in es :: e.field != GridSquare)
      && (Present(c.notes) ==> AdifEntry(Comment, c.notes.value) in es)
      && (!Present(c.notes) ==> forall e | e in es :: e.field != Comment)
  {
    CandidateEntry(r, 8);
    CandidateEntry(r, 9);
    CandidateEntry(r, 10);
    CandidateEntry(r, 11);
    CandidateEntry(r, 12);
  }

  lemma StatusNamesNotBlank()
    ensures forall s: QslStatus :: !IsBlank(s.Name())
    ensures forall s: LotwStatus :: !IsBlank(s.Name())
    ensures forall s: EqslStatus :: !IsBlank(s.Name())
  {
    forall s: QslStatus ensures !IsBlank(s.Name()) {
      assert !IsJavaWhitespace(s.Name()[0]);
    }
    forall s: LotwStatus ensures !IsBlank(s.Name()) {
      assert !IsJavaWhitespace(s.Name()[0]);
    }
    forall s: EqslStatus ensures !IsBlank(s.Name()) {
      assert !IsJavaWhitespace(s.Name()[0]);
    }
  }

  /** Each status is written whenever it is set, and only then. */
  lemma StatusRecord(r: QsoRecord)
    ensures var es := AdifEntries(r);
      && (r.qslStatus.Some? ==> AdifEntry(QslRcvd, r.qslStatus.value.Name()) in es)
      && (r.qslStatus.None? ==> forall e | e in es :: e.field != QslRcvd)
      && (r.lotwStatus.Some? ==> AdifEntry(LotwQslrDate, r.lotwStatus.value.Name()) in es)
      && (r.lotwStatus.None? ==> forall e | e in es :: e.field != LotwQslrDate)
      && (r.eqslStatus.Some? ==> AdifEntry(EqslQslrDate, r.eqslStatus.value.Name()) in es)
      && (r.eqslStatus.None? ==> forall e | e in es :: e.field != EqslQslrDate)
  {
    StatusNamesNotBlank();
    CandidateEntry(r, 13);
    CandidateEntry(r, 14);
    CandidateEntry(r, 15);
  }

  /** `<MODE:2>CW ` and `<SUBMODE:5>PSK31 `. */
  lemma SpecifierExamples()
    ensures AdifField("MODE", Some(CW.Name())) == "<MODE:2>CW "
    ensures AdifField("SUBMODE", Some(PSK31.Name())) == "<SUBMODE:5>PSK31 "
  {
    assert !IsJavaWhitespace('C') && !IsJavaWhitespace('P');
    assert Utf16Length("CW") == 2;
    assert Utf16Length("PSK31") == 5;
  }
}
