/** The parts of `java.math.BigDecimal` the export uses: a number is an
    unscaled integer and a scale, standing for unscaled × 10^(-scale). */
module Decimal {
  import opened Common
  import opened Text

  datatype BigDecimal = BigDecimal(unscaled: int, scale: int)

  function Abs(x: int): (r: nat)
    ensures r == x || r == -x
  {
    if x < 0 then -x else x
  }

  function Max(a: int, b: int): int {
    if a < b then b else a
  }

  /** `q` is `num / den` rounded to an integer with `RoundingMode.HALF_UP`:
      the nearest integer, ties going away from zero. Written without
      fractions: |q|·den lies in (|num| - den/2, |num| + den/2], and `q`
      has the sign of `num`. */
  predicate RoundsHalfUp(q: int, num: int, den: nat) {
    && -(den as int) <= 2 * (Abs(num) - Abs(q) * den) < den
    && (q == 0 || (q < 0 <==> num < 0))
  }

  function RoundHalfUp(num: int, den: nat): (q: int)
    requires den >= 1
    ensures RoundsHalfUp(q, num, den)
  {
    var a := RoundHalfUpMagnitude(Abs(num), den);
    if num < 0 then -(a as int) else a
  }

  /** Rounding of a magnitude: one more than the quotient when the
      remainder is at least half the divisor. */
  function RoundHalfUpMagnitude(n: nat, den: nat): (a: nat)
    requires den >= 1
    ensures -(den as int) <= 2 * (n - a * den) < den
  {
    var m, rem := n / den, n % den;
    assert n == m * den + rem;
    if 2 * rem >= den then
      assert (m + 1) * den == m * den + den;
      m + 1
    else m
  }

  /** HALF_UP rounding is a function: at most one integer meets
      `RoundsHalfUp`. */
  lemma RoundsHalfUpUnique(q1: int, q2: int, num: int, den: nat)
    requires den >= 1
    requires RoundsHalfUp(q1, num, den) && RoundsHalfUp(q2, num, den)
    ensures q1 == q2
  {
    var a, b := Abs(q1), Abs(q2);
    var ad, bd := a * den, b * den;
    if a > b {
      assert ad - bd == (a - b) * den;
      MulAtLeast(a - b, den);
    } else if b > a {
      assert bd - ad == (b - a) * den;
      MulAtLeast(b - a, den);
    }
  }

  lemma MulAtLeast(k: int, d: nat)
    requires k >= 1
    ensures k * d >= d
  {
  }

  /** `x.divide(new BigDecimal("1000"), 6, RoundingMode.HALF_UP)`: kHz to MHz
      with six decimals. The exact quotient has unscaled value
      x.unscaled × 10^3 / 10^x.scale at scale 6. */
  function KhzToMhz(x: BigDecimal): (r: BigDecimal)
    ensures r.scale == 6
    ensures RoundsHalfUp(r.unscaled, Times10Pow(x.unscaled, Max(0, 3 - x.scale)), Pow10(Max(0, x.scale - 3)))
  {
    if x.scale <= 3 then
      var q := Times10Pow(x.unscaled, 3 - x.scale);
      assert RoundsHalfUp(q, q, 1);
      BigDecimal(q, 6)
    else BigDecimal(RoundHalfUp(x.unscaled, Pow10(x.scale - 3)), 6)
  }

  /** `stripTrailingZeros()`: the same value with the fewest digits; zero
      becomes 0 at scale 0. */
  function StripTrailingZeros(x: BigDecimal): (r: BigDecimal)
    ensures x.unscaled == 0 ==> r == BigDecimal(0, 0)
    ensures x.unscaled != 0 ==> r.scale <= x.scale && Times10Pow(r.unscaled, x.scale - r.scale) == x.unscaled
    ensures x.unscaled != 0 ==> r.unscaled % 10 != 0
    decreases Abs(x.unscaled)
  {
    if x.unscaled == 0 then BigDecimal(0, 0)
    else if x.unscaled % 10 != 0 then x
    else
      var r := StripTrailingZeros(BigDecimal(x.unscaled / 10, x.scale - 1));
      assert Times10Pow(r.unscaled, x.scale - r.scale) == Times10Pow(r.unscaled, x.scale - 1 - r.scale) * 10;
      r
  }

  function SignPrefix(x: int): string {
    if x < 0 then "-" else ""
  }

  /** The digits of |unscaled| with a decimal point before the last
      `scale` of them, padded with zeros to "0.00ddd" when there are too
      few (the layout both `toString` and `toPlainString` use for a
      positive scale). */
  function PointLayout(digits: string, scale: nat): (r: string)
    requires scale >= 1
  {
    if |digits| > scale then digits[..|digits| - scale] + "." + digits[|digits| - scale..]
    else "0." + Zeros(scale - |digits|) + digits
  }

  /** `toPlainString()`: never exponent notation. */
  function ToPlainString(x: BigDecimal): (r: string)
  {
    if x.scale == 0 then IntToString(x.unscaled)
    else if x.scale < 0 then
      (if x.unscaled == 0 then "0" else IntToString(x.unscaled) + Zeros(-x.scale))
    else SignPrefix(x.unscaled) + PointLayout(NatToString(Abs(x.unscaled)), x.scale)
  }

  /** The exponent of the leading digit (`precision() - scale - 1`). */
  function Adjusted(x: BigDecimal): int {
    |NatToString(Abs(x.unscaled))| - 1 - x.scale
  }

  /** `toString()` (what `String.format("%s", x)` prints): plain notation
      when the scale is 0, or when it is positive and the leading digit's
      exponent is at least -6; otherwise one digit, an optional fraction,
      and `E` with the signed exponent. */
  function ToSciString(x: BigDecimal): (r: string)
  {
    var coeff := NatToString(Abs(x.unscaled));
    var adjusted := Adjusted(x);
    if x.scale == 0 then IntToString(x.unscaled)
    else if x.scale > 0 && adjusted >= -6 then SignPrefix(x.unscaled) + PointLayout(coeff, x.scale)
    else
      var mantissa := if |coeff| > 1 then coeff[..1] + "." + coeff[1..] else coeff;
      var exponent := if adjusted == 0 then "" else "E" + (if adjusted > 0 then "+" else "") + IntToString(adjusted);
      SignPrefix(x.unscaled) + mantissa + exponent
  }

  /** Where exponent notation is not needed the two renderings agree. */
  lemma SciStringIsPlainWhenSmallScale(x: BigDecimal)
    requires x.scale >= 0 && Adjusted(x) >= -6
    ensures ToSciString(x) == ToPlainString(x)
  {
  }

  /** A negative scale is always printed in exponent notation: one digit,
      the point, the rest of the digits, and `E+` with the exponent of the
      leading digit. */
  lemma SciStringExponentCases(x: BigDecimal)
    ensures x.scale < 0 && x.unscaled != 0 && |NatToString(Abs(x.unscaled))| > 1 ==>
      ToSciString(x) == SignPrefix(x.unscaled) + NatToString(Abs(x.unscaled))[..1] + "."
        + NatToString(Abs(x.unscaled))[1..] + "E+" + IntToString(Adjusted(x))
  {
  }

  function Signed(negative: bool, n: nat): int {
    if negative then -(n as int) else n
  }

  /** `new BigDecimal(s)` restricted to plain notation: an optional '-',
      digits, and optionally '.' followed by more digits; the scale is the
      number of digits after the point. */
  function ParsePlain(s: string): (r: Option<BigDecimal>)
    ensures r.Some? ==> r.value.scale >= 0
  {
    var negative := |s| > 0 && s[0] == '-';
    ParseUnsigned(if negative then s[1..] else s, negative)
  }

  function ParseUnsigned(body: string, negative: bool): (r: Option<BigDecimal>)
    ensures r.Some? ==> r.value.scale >= 0
  {
    var dot := FindChar(body, '.');
    if dot == |body| then
      (if body != [] && AllDigits(body) then Some(BigDecimal(Signed(negative, DigitsValue(body)), 0)) else None)
    else ParseFraction(body[..dot], body[dot + 1..], negative)
  }

  function ParseFraction(ip: string, fp: string, negative: bool): (r: Option<BigDecimal>)
    ensures r.Some? ==> r.value.scale == |fp|
  {
    if ip != [] && fp != [] && AllDigits(ip) && AllDigits(fp) then
      AllDigitsAppend(ip, fp);
      Some(BigDecimal(Signed(negative, DigitsValue(ip + fp)), |fp|))
    else None
  }

  /** A leading '-' is the sign, and nothing else starts with one. */
  lemma ParsePlainSign(x: int, body: string)
    requires body != [] && IsDigit(body[0])
    ensures ParsePlain(SignPrefix(x) + body) == ParseUnsigned(body, x < 0)
  {
    var s := SignPrefix(x) + body;
    if x < 0 {
      assert s[1..] == body;
    } else {
      assert s == body;
    }
  }

  /** Reading `sign + ip` (an integer) and `sign + ip + "." + fp`. */
  lemma ParsePlainInteger(s: string, x: int, ip: string)
    requires ip != [] && AllDigits(ip) && s == SignPrefix(x) + ip
    ensures ParsePlain(s) == Some(BigDecimal(Signed(x < 0, DigitsValue(ip)), 0))
  {
    ParsePlainSign(x, ip);
  }

  lemma ParsePlainFraction(s: string, x: int, ip: string, fp: string)
    requires ip != [] && AllDigits(ip) && fp != [] && AllDigits(fp)
    requires s == SignPrefix(x) + ip + "." + fp
    ensures AllDigits(ip + fp)
    ensures ParsePlain(s) == Some(BigDecimal(Signed(x < 0, DigitsValue(ip + fp)), |fp|))
  {
    AllDigitsAppend(ip, fp);
    var body := ip + "." + fp;
    assert s == SignPrefix(x) + body;
    assert body[0] == ip[0];
    ParsePlainSign(x, body);
    ParseUnsignedFraction(ip, fp, x < 0);
  }

  /** The first '.' after a run of digits splits integer and fraction. */
  lemma ParseUnsignedFraction(ip: string, fp: string, negative: bool)
    requires AllDigits(ip)
    ensures ParseUnsigned(ip + "." + fp, negative) == ParseFraction(ip, fp, negative)
  {
    var body := ip + "." + fp;
    assert '.' !in ip by {
      forall k | 0 <= k < |ip| ensures ip[k] != '.' { assert IsDigit(ip[k]); }
    }
    assert body == ip + ("." + fp);
    FindCharAppend(ip, "." + fp, '.');
    assert FindChar(body, '.') == |ip|;
    assert body[..|ip|] == ip;
    assert body[|ip| + 1..] == fp;
  }

  /** The number `toPlainString()` spells out: the same one, except that a
      negative scale is written with trailing zeros, i.e. at scale 0. */
  function PlainForm(x: BigDecimal): (r: BigDecimal)
    ensures r.scale == Max(0, x.scale)
    ensures Times10Pow(x.unscaled, r.scale - x.scale) == r.unscaled
  {
    if x.scale < 0 then BigDecimal(Times10Pow(x.unscaled, -x.scale), 0) else x
  }

  /** Round trip: reading back `toPlainString()` gives the same number,
      with the same scale when it is at least 0 (a negative scale is
      written out with trailing zeros, so it reads back at scale 0). */
  lemma ParsePlainOfToPlainString(x: BigDecimal)
    ensures ParsePlain(ToPlainString(x)) == Some(PlainForm(x))
  {
    if x.scale == 0 {
      PlainRoundTripScaleZero(x);
    } else if x.scale < 0 {
      PlainRoundTripNegativeScale(x);
    } else if |NatToString(Abs(x.unscaled))| > x.scale {
      PlainRoundTripLong(x);
    } else {
      PlainRoundTripShort(x);
    }
  }

  lemma SignedAbs(x: int)
    ensures Signed(x < 0, Abs(x)) == x
  {
  }

  lemma PlainRoundTripScaleZero(x: BigDecimal)
    requires x.scale == 0
    ensures ParsePlain(ToPlainString(x)) == Some(x)
  {
    var digits := NatToString(Abs(x.unscaled));
    DigitsValueOfNatToString(Abs(x.unscaled));
    SignedAbs(x.unscaled);
    ParsePlainInteger(ToPlainString(x), x.unscaled, digits);
  }

  lemma PlainRoundTripNegativeScale(x: BigDecimal)
    requires x.scale < 0
    ensures ParsePlain(ToPlainString(x)) == Some(BigDecimal(Times10Pow(x.unscaled, -x.scale), 0))
  {
    if x.unscaled == 0 {
      ParsePlainInteger(ToPlainString(x), 0, "0");
      assert DigitsValue("0") == 0;
      Times10PowNegate(0, -x.scale);
    } else {
      PlainRoundTripNegativeScaleNonZero(x);
    }
  }

  lemma PlainRoundTripNegativeScaleNonZero(x: BigDecimal)
    requires x.scale < 0 && x.unscaled != 0
    ensures ParsePlain(ToPlainString(x)) == Some(BigDecimal(Times10Pow(x.unscaled, -x.scale), 0))
  {
    var k: nat := -x.scale;
    var s := ToPlainString(x);
    NegativeScaleLayout(x);
    ReadTrailingZerosBack(s, x.unscaled, k);
  }

  /** Digits followed by k zeros read back as the value times 10^k. */
  lemma ReadTrailingZerosBack(s: string, u: int, k: nat)
    requires s == SignPrefix(u) + (NatToString(Abs(u)) + Zeros(k))
    ensures ParsePlain(s) == Some(BigDecimal(Times10Pow(u, k), 0))
  {
    var ds := NatToString(Abs(u)) + Zeros(k);
    TrailingZerosValue(u, k);
    ParsePlainInteger(s, u, ds);
  }

  /** A negative scale prints the sign, the digits and then zeros. */
  lemma NegativeScaleLayout(x: BigDecimal)
    requires x.scale < 0 && x.unscaled != 0
    ensures ToPlainString(x) == SignPrefix(x.unscaled) + (NatToString(Abs(x.unscaled)) + Zeros(-x.scale))
  {
    var digits := NatToString(Abs(x.unscaled));
    if x.unscaled < 0 {
      assert ToPlainString(x) == ("-" + digits) + Zeros(-x.scale);
    }
  }

  lemma PlainRoundTripLong(x: BigDecimal)
    requires x.scale > 0 && |NatToString(Abs(x.unscaled))| > x.scale
    ensures ParsePlain(ToPlainString(x)) == Some(x)
  {
    var scale: nat := x.scale;
    var digits := NatToString(Abs(x.unscaled));
    DigitsValueOfNatToString(Abs(x.unscaled));
    SignedAbs(x.unscaled);
    var ip, fp := digits[..|digits| - scale], digits[|digits| - scale..];
    assert AllDigits(ip) && AllDigits(fp);
    assert ip + fp == digits;
    ParsePlainFraction(ToPlainString(x), x.unscaled, ip, fp);
  }

  lemma PlainRoundTripShort(x: BigDecimal)
    requires x.scale > 0 && |NatToString(Abs(x.unscaled))| <= x.scale
    ensures ParsePlain(ToPlainString(x)) == Some(x)
  {
    var digits := NatToString(Abs(x.unscaled));
    var fp := Zeros(x.scale - |digits|) + digits;
    PaddedFractionValue(x.unscaled, x.scale - |digits|);
    ParsePlainFraction(ToPlainString(x), x.unscaled, "0", fp);
    assert |fp| == x.scale;
  }

  /** "0." then k zeros then the digits of |x| reads back as x. */
  lemma PaddedFractionValue(x: int, k: nat)
    ensures AllDigits(Zeros(k) + NatToString(Abs(x)))
    ensures AllDigits("0" + (Zeros(k) + NatToString(Abs(x))))
    ensures Signed(x < 0, DigitsValue("0" + (Zeros(k) + NatToString(Abs(x))))) == x
  {
    var digits := NatToString(Abs(x));
    var fp := Zeros(k) + digits;
    DigitsValueOfNatToString(Abs(x));
    LeadingZerosValue(k, digits);
    LeadingZerosValue(1, fp);
    assert Zeros(1) + fp == "0" + fp;
    SignedAbs(x);
  }

  /** Digits of |x| followed by k zeros read as |x|·10^k, signed back to
      x·10^k. */
  lemma TrailingZerosValue(x: int, k: nat)
    ensures AllDigits(NatToString(Abs(x)) + Zeros(k))
    ensures Signed(x < 0, DigitsValue(NatToString(Abs(x)) + Zeros(k))) == Times10Pow(x, k)
  {
    var n := Abs(x);
    DigitsValueOfNatToString(n);
    TrailingZerosDigitsValue(NatToString(n), k);
    Times10PowNegate(x, k);
    Times10PowSign(n, k);
  }

  lemma {:induction false} Times10PowNegate(x: int, k: nat)
    ensures Times10Pow(-x, k) == -Times10Pow(x, k)
  {
    if k > 0 {
      Times10PowNegate(x, k - 1);
    }
  }

  lemma {:induction false} Times10PowSign(n: nat, k: nat)
    ensures Times10Pow(n, k) >= 0
    ensures n > 0 ==> Times10Pow(n, k) > 0
  {
    if k > 0 {
      Times10PowSign(n, k - 1);
    }
  }

  lemma {:induction false} Times10PowNonZero(x: int, k: nat)
    requires x != 0
    ensures Times10Pow(x, k) != 0
  {
    if k > 0 {
      Times10PowNonZero(x, k - 1);
    }
  }

  lemma {:induction false} Times10PowAdd(x: int, a: nat, b: nat)
    ensures Times10Pow(Times10Pow(x, a), b) == Times10Pow(x, a + b)
  {
    if b > 0 {
      Times10PowAdd(x, a, b - 1);
    }
  }

  /** FREQ of the ADIF record: kHz divided by 1000 with HALF_UP to six
      places, trailing zeros stripped, printed plain. */
  function FrequencyMhzText(khz: BigDecimal): (r: string)
  {
    ToPlainString(StripTrailingZeros(KhzToMhz(khz)))
  }

  /** The FREQ text reads back as the stripped MHz value. */
  lemma FrequencyMhzTextReadsBack(khz: BigDecimal)
    ensures ParsePlain(FrequencyMhzText(khz)) == Some(PlainForm(StripTrailingZeros(KhzToMhz(khz))))
  {
    ParsePlainOfToPlainString(StripTrailingZeros(KhzToMhz(khz)));
  }

  /** What that value is: zero as 0, otherwise the rounded MHz value at a
      scale of at most 6 with no trailing zero after the point. */
  lemma StrippedMhzValue(m: BigDecimal)
    requires m.scale == 6
    ensures var p := PlainForm(StripTrailingZeros(m));
      && (m.unscaled == 0 ==> p == BigDecimal(0, 0))
      && (m.unscaled != 0 ==>
            && 0 <= p.scale <= 6
            && Times10Pow(p.unscaled, 6 - p.scale) == m.unscaled
            && (p.scale > 0 ==> p.unscaled % 10 != 0))
  {
    var st := StripTrailingZeros(m);
    if m.unscaled != 0 && st.scale < 0 {
      Times10PowAdd(st.unscaled, -st.scale, 6);
    }
  }
}
