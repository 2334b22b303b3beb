/** The ADIF band catalogue: 27 constants, each carrying the token that is
    stored and exported, and a case-insensitive lookup by token. */
module Bands {
  import opened Common
  import opened Text

  datatype Band =
    | Band160m | Band80m | Band60m | Band40m | Band30m | Band20m | Band17m
    | Band15m | Band12m | Band10m | Band6m | Band4m | Band2m | Band1_25m
    | Band70cm | Band33cm | Band23cm | Band13cm | Band9cm | Band6cm | Band3cm
    | Band1_25cm | Band6mm | Band4mm | Band2_5mm | Band2mm | Band1mm
  {
    /** `getAdifValue()`. */
    function AdifValue(): string {
      match this
      case Band160m => "160m"
      case Band80m => "80m"
      case Band60m => "60m"
      case Band40m => "40m"
      case Band30m => "30m"
      case Band20m => "20m"
      case Band17m => "17m"
      case Band15m => "15m"
      case Band12m => "12m"
      case Band10m => "10m"
      case Band6m => "6m"
      case Band4m => "4m"
      case Band2m => "2m"
      case Band1_25m => "1.25m"
      case Band70cm => "70cm"
      case Band33cm => "33cm"
      case Band23cm => "23cm"
      case Band13cm => "13cm"
      case Band9cm => "9cm"
      case Band6cm => "6cm"
      case Band3cm => "3cm"
      case Band1_25cm => "1.25cm"
      case Band6mm => "6mm"
      case Band4mm => "4mm"
      case Band2_5mm => "2.5mm"
      case Band2mm => "2mm"
      case Band1mm => "1mm"
    }
  }

  /** `Band.values()`, in declaration order. */
  const Values: seq<Band> := [
    Band160m, Band80m, Band60m, Band40m, Band30m, Band20m, Band17m,
    Band15m, Band12m, Band10m, Band6m, Band4m, Band2m, Band1_25m,
    Band70cm, Band33cm, Band23cm, Band13cm, Band9cm, Band6cm, Band3cm,
    Band1_25cm, Band6mm, Band4mm, Band2_5mm, Band2mm, Band1mm
  ]

  /** Every token is already lower case and made of digits, '.', 'c' and 'm'. */
  predicate IsTokenChar(c: char) {
    IsDigit(c) || c == '.' || c == 'c' || c == 'm'
  }

  lemma TokenCharsAreLowerCase(b: Band)
    ensures forall i | 0 <= i < |b.AdifValue()| :: IsTokenChar(b.AdifValue()[i])
    ensures ToLower(b.AdifValue()) == b.AdifValue()
  {
  }

  lemma AdifValueInjective(a: Band, b: Band)
    ensures a.AdifValue() == b.AdifValue() <==> a == b
  {
  }

  /** The position of a constant in declaration order. */
  function Ordinal(b: Band): (n: nat)
    ensures n < 27
  {
    match b
      case Band160m => 0
      case Band80m => 1
      case Band60m => 2
      case Band40m => 3
      case Band30m => 4
      case Band20m => 5
      case Band17m => 6
      case Band15m => 7
      case Band12m => 8
      case Band10m => 9
      case Band6m => 10
      case Band4m => 11
      case Band2m => 12
      case Band1_25m => 13
      case Band70cm => 14
      case Band33cm => 15
      case Band23cm => 16
      case Band13cm => 17
      case Band9cm => 18
      case Band6cm => 19
      case Band3cm => 20
      case Band1_25cm => 21
      case Band6mm => 22
      case Band4mm => 23
      case Band2_5mm => 24
      case Band2mm => 25
      case Band1mm => 26
  }

  /** Each constant sits at its own position of `values()`. */
  lemma ValuesInDeclarationOrder()
    ensures |Values| == 27
    ensures forall i | 0 <= i < 27 :: Ordinal(Values[i]) == i
  {
  }

  /** `values()` lists each of the 27 constants exactly once. */
  lemma ValuesEnumerateBands()
    ensures |Values| == 27
    ensures forall b: Band :: b in Values
    ensures forall i, j | 0 <= i < j < |Values| :: Values[i] != Values[j]
  {
    ValuesInDeclarationOrder();
    forall b: Band ensures b in Values {
      match b
      case Band160m => assert Values[0] == Band160m;
      case Band80m => assert Values[1] == Band80m;
      case Band60m => assert Values[2] == Band60m;
      case Band40m => assert Values[3] == Band40m;
      case Band30m => assert Values[4] == Band30m;
      case Band20m => assert Values[5] == Band20m;
      case Band17m => assert Values[6] == Band17m;
      case Band15m => assert Values[7] == Band15m;
      case Band12m => assert Values[8] == Band12m;
      case Band10m => assert Values[9] == Band10m;
      case Band6m => assert Values[10] == Band6m;
      case Band4m => assert Values[11] == Band4m;
      case Band2m => assert Values[12] == Band2m;
      case Band1_25m => assert Values[13] == Band1_25m;
      case Band70cm => assert Values[14] == Band70cm;
      case Band33cm => assert Values[15] == Band33cm;
      case Band23cm => assert Values[16] == Band23cm;
      case Band13cm => assert Values[17] == Band13cm;
      case Band9cm => assert Values[18] == Band9cm;
      case Band6cm => assert Values[19] == Band6cm;
      case Band3cm => assert Values[20] == Band3cm;
      case Band1_25cm => assert Values[21] == Band1_25cm;
      case Band6mm => assert Values[22] == Band6mm;
      case Band4mm => assert Values[23] == Band4mm;
      case Band2_5mm => assert Values[24] == Band2_5mm;
      case Band2mm => assert Values[25] == Band2mm;
      case Band1mm => assert Values[26] == Band1mm;
    }
    forall i, j | 0 <= i < j < |Values| ensures Values[i] != Values[j] {
      assert Ordinal(Values[i]) != Ordinal(Values[j]);
    }
  }

  /** No two tokens are equal even ignoring case. */
  lemma TokensDistinctIgnoringCase(a: Band, b: Band)
    ensures EqualsIgnoreCase(a.AdifValue(), b.AdifValue()) <==> a == b
  {
    TokenCharsAreLowerCase(a);
    TokenCharsAreLowerCase(b);
    AdifValueInjective(a, b);
  }

  /** The loop of `fromAdifValue` over a suffix of `values()`: the first
      constant whose token equals `s` ignoring case. */
  function FindByToken(bands: seq<Band>, s: string): (r: Option<Band>)
    ensures r.Some? ==> r.value in bands && EqualsIgnoreCase(r.value.AdifValue(), s)
    ensures r.None? <==> forall b | b in bands :: !EqualsIgnoreCase(b.AdifValue(), s)
  {
    if bands == [] then None
    else if EqualsIgnoreCase(bands[0].AdifValue(), s) then Some(bands[0])
    else FindByToken(bands[1..], s)
  }

  /** `fromAdifValue`; the error carries the message of the
      `IllegalArgumentException` it throws. */
  function FromAdifValue(s: string): (r: Result<Band, string>)
    ensures r.Ok? ==> EqualsIgnoreCase(r.value.AdifValue(), s)
    ensures r.Err? <==> forall b: Band :: !EqualsIgnoreCase(b.AdifValue(), s)
    ensures r.Err? ==> r.error == "Unknown ADIF band: " + s
  {
    ValuesEnumerateBands();
    match FindByToken(Values, s)
    case Some(b) => Ok(b)
    case None => Err("Unknown ADIF band: " + s)
  }

  /** A token names one band however it is capitalised. */
  lemma {:induction false} FromAdifValueOfCaseVariant(b: Band, s: string)
    requires EqualsIgnoreCase(b.AdifValue(), s)
    ensures FromAdifValue(s) == Ok(b)
  {
    ValuesEnumerateBands();
    var r := FromAdifValue(s);
    assert r.Ok?;
    // both tokens equal `s` ignoring case, so they equal each other
    assert EqualsIgnoreCase(r.value.AdifValue(), b.AdifValue());
    TokensDistinctIgnoringCase(r.value, b);
  }

  /** Round trip: `fromAdifValue(b.getAdifValue()) == b`. */
  lemma FromAdifValueRoundTrip(b: Band)
    ensures FromAdifValue(b.AdifValue()) == Ok(b)
    ensures FromAdifValue(ToUpper(b.AdifValue())) == Ok(b)
  {
    FromAdifValueOfCaseVariant(b, b.AdifValue());
    var up := ToUpper(b.AdifValue());
    TokenCharsAreLowerCase(b);
    assert ToLower(up) == b.AdifValue() by {
      forall i | 0 <= i < |up| ensures ToLower(up)[i] == b.AdifValue()[i] {
        assert IsTokenChar(b.AdifValue()[i]);
      }
    }
    FromAdifValueOfCaseVariant(b, up);
  }
}
