/** The pieces of `java.lang.String` and `StringBuilder` that the core uses:
    blank tests, trimming, ASCII case mapping, substring search, decimal
    rendering of integers and the UTF-16 length Java reports. */
module Text {
  import opened Common

  /** `Character.isWhitespace`: the space separators except the no-break
      ones, line and paragraph separators, and the ASCII controls U+0009 to
      U+000D and U+001C to U+001F. */
  predicate IsJavaWhitespace(c: char) {
    || c == ' '
    || ('\t' <= c <= '\r')
    || ('\U{1C}' <= c <= '\U{1F}')
    || c == '\U{1680}'
    || ('\U{2000}' <= c <= '\U{200A}' && c != '\U{2007}')
    || c == '\U{2028}' || c == '\U{2029}' || c == '\U{205F}' || c == '\U{3000}'
  }

  /** `String.isBlank`: empty, or whitespace code points only. */
  predicate IsBlank(s: string) {
    s == [] || (IsJavaWhitespace(s[0]) && IsBlank(s[1..]))
  }

  /** Blank means every character is whitespace. */
  lemma {:induction false} IsBlankAllWhitespace(s: string)
    ensures IsBlank(s) <==> forall i | 0 <= i < |s| :: IsJavaWhitespace(s[i])
  {
    if s != [] {
      IsBlankAllWhitespace(s[1..]);
      assert forall i | 1 <= i < |s| :: s[i] == s[1..][i - 1];
    }
  }

  /** A nullable string that is present and not blank
      (`v != null && !v.isBlank()`). */
  predicate Present(v: Option<string>) {
    v.Some? && !IsBlank(v.value)
  }

  /** `String.trim` drops leading characters whose code is at most U+0020. */
  function TrimLeading(s: string): (r: string)
    ensures |r| <= |s| && r == s[|s| - |r|..]
    ensures r == [] || r[0] > ' '
    ensures forall i | 0 <= i < |s| - |r| :: s[i] <= ' '
  {
    if s != [] && s[0] <= ' ' then TrimLeading(s[1..]) else s
  }

  /** ... and trailing ones. */
  function TrimTrailing(s: string): (r: string)
    ensures |r| <= |s| && r == s[..|r|]
    ensures r == [] || r[|r| - 1] > ' '
    ensures forall i | |r| <= i < |s| :: s[i] <= ' '
  {
    if s != [] && s[|s| - 1] <= ' ' then TrimTrailing(s[..|s| - 1]) else s
  }

  /** How many leading characters `String.trim` drops. */
  function TrimOffset(s: string): nat {
    |s| - |TrimLeading(s)|
  }

  /** `String.trim`: the slice of `s` left once every character at most
      U+0020 is dropped from both ends. */
  function Trim(s: string): (r: string)
    ensures r == [] || (r[0] > ' ' && r[|r| - 1] > ' ')
    ensures |r| <= |s|
    ensures TrimOffset(s) + |r| <= |s| && r == s[TrimOffset(s)..TrimOffset(s) + |r|]
    ensures forall i | 0 <= i < TrimOffset(s) :: s[i] <= ' '
    ensures forall i | TrimOffset(s) + |r| <= i < |s| :: s[i] <= ' '
  {
    var lead := TrimLeading(s);
    var r := TrimTrailing(lead);
    PrefixOfSuffix(s, TrimOffset(s), lead, r);
    r
  }

  /** A prefix of a suffix is a slice, and what the prefix leaves behind
      is the tail of the whole. */
  lemma PrefixOfSuffix(s: string, k: nat, lead: string, r: string)
    requires k <= |s| && lead == s[k..]
    requires |r| <= |lead| && r == lead[..|r|]
    requires forall i | |r| <= i < |lead| :: lead[i] <= ' '
    ensures k + |r| <= |s| && r == s[k..k + |r|]
    ensures forall i | k + |r| <= i < |s| :: s[i] <= ' '
  {
    forall i | k + |r| <= i < |s|
      ensures s[i] <= ' '
    {
      assert s[i] == lead[i - k];
    }
  }

  /** ASCII case mapping (`Character.toLowerCase` / `toUpperCase` restricted
      to A-Z and a-z). */
  function LowerChar(c: char): (d: char)
    ensures 'A' <= c <= 'Z' ==> d as int == c as int + 32
    ensures !('A' <= c <= 'Z') ==> d == c
  {
    if 'A' <= c <= 'Z' then (c as int + 32) as char else c
  }

  function UpperChar(c: char): (d: char)
    ensures 'a' <= c <= 'z' ==> d as int == c as int - 32
    ensures !('a' <= c <= 'z') ==> d == c
  {
    if 'a' <= c <= 'z' then (c as int - 32) as char else c
  }

  function ToLower(s: string): (r: string)
    ensures |r| == |s| && forall i | 0 <= i < |s| :: r[i] == LowerChar(s[i])
  {
    seq(|s|, i requires 0 <= i < |s| => LowerChar(s[i]))
  }

  function ToUpper(s: string): (r: string)
    ensures |r| == |s| && forall i | 0 <= i < |s| :: r[i] == UpperChar(s[i])
  {
    seq(|s|, i requires 0 <= i < |s| => UpperChar(s[i]))
  }

  /** `String.equalsIgnoreCase` for ASCII letters. */
  predicate EqualsIgnoreCase(a: string, b: string) {
    ToLower(a) == ToLower(b)
  }

  lemma EqualsIgnoreCaseSymmetric(a: string, b: string)
    ensures EqualsIgnoreCase(a, b) <==> EqualsIgnoreCase(b, a)
  {
  }

  /** `sub` occurs in `s` starting at index `i`. */
  predicate OccursAt(s: string, sub: string, i: int) {
    0 <= i && i + |sub| <= |s| && s[i..i + |sub|] == sub
  }

  /** `s.indexOf(sub, from)`: the first occurrence at or after `from`, or -1. */
  function IndexOfFrom(s: string, sub: string, from: nat): (r: int)
    ensures r == -1 ==> forall k | from <= k :: !OccursAt(s, sub, k)
    ensures r != -1 ==> from <= r && OccursAt(s, sub, r)
    ensures r != -1 ==> forall k | from <= k < r :: !OccursAt(s, sub, k)
    decreases |s| + 1 - from
  {
    if from + |sub| > |s| then -1
    else if s[from..from + |sub|] == sub then from
    else IndexOfFrom(s, sub, from + 1)
  }

  /** `s.indexOf(sub)`. */
  function IndexOf(s: string, sub: string): (r: int)
    ensures r == -1 <==> forall k :: !OccursAt(s, sub, k)
    ensures r != -1 ==> OccursAt(s, sub, r) && forall k | 0 <= k < r :: !OccursAt(s, sub, k)
  {
    IndexOfFrom(s, sub, 0)
  }

  /** `s.contains(sub)`. */
  predicate Contains(s: string, sub: string) {
    IndexOf(s, sub) != -1
  }

  lemma ContainsChar(s: string, c: char)
    ensures Contains(s, [c]) <==> c in s
  {
    if c in s {
      var k :| 0 <= k < |s| && s[k] == c;
      assert OccursAt(s, [c], k);
    }
    if Contains(s, [c]) {
      var r := IndexOf(s, [c]);
      assert s[r..r + 1] == [c];
      assert s[r] == c;
    }
  }

  function DigitChar(d: nat): (c: char)
    requires d < 10
    ensures '0' <= c <= '9' && c as int - '0' as int == d
  {
    ('0' as int + d) as char
  }

  predicate IsDigit(c: char) {
    '0' <= c <= '9'
  }

  predicate AllDigits(s: string) {
    forall i | 0 <= i < |s| :: IsDigit(s[i])
  }

  /** `Integer.toString` / `Long.toString` of a non-negative value. */
  function NatToString(n: nat): (r: string)
    ensures 1 <= |r| && AllDigits(r)
    ensures n < 10 <==> |r| == 1
    ensures |r| > 1 ==> r[0] != '0'
  {
    if n < 10 then [DigitChar(n)] else NatToString(n / 10) + [DigitChar(n % 10)]
  }

  /** `Integer.toString` of any value. */
  function IntToString(n: int): string {
    if n < 0 then "-" + NatToString(-n) else NatToString(n)
  }

  /** Value of a string of decimal digits. */
  function DigitsValue(ds: string): nat
    requires AllDigits(ds)
  {
    if ds == [] then 0
    else
      assert IsDigit(ds[|ds| - 1]);
      DigitsValue(ds[..|ds| - 1]) * 10 + (ds[|ds| - 1] as int - '0' as int)
  }

  /** Decimal rendering is an injection that `DigitsValue` inverts. */
  lemma {:induction false} DigitsValueOfNatToString(n: nat)
    ensures DigitsValue(NatToString(n)) == n
  {
    if n >= 10 {
      var s := NatToString(n);
      assert s[..|s| - 1] == NatToString(n / 10);
      DigitsValueOfNatToString(n / 10);
    }
  }

  function Pow10(k: nat): (p: nat)
    ensures p >= 1
  {
    if k == 0 then 1 else 10 * Pow10(k - 1)
  }

  /** A value below 10^k prints in at most k digits. */
  lemma {:induction false} NatToStringLength(n: nat, k: nat)
    ensures 1 <= k && n < Pow10(k) ==> |NatToString(n)| <= k
  {
    assert Pow10(1) == 10;
    if 1 <= k && n < Pow10(k) && n >= 10 {
      assert k >= 2;
      assert n / 10 < Pow10(k - 1);
      NatToStringLength(n / 10, k - 1);
    }
  }

  /** Zero-padded decimal with at least `width` digits (`%0<width>d`). */
  function ZeroPad(n: nat, width: nat): (r: string)
    ensures |r| >= width && AllDigits(r)
    ensures 1 <= width && n < Pow10(width) ==> |r| == width
  {
    NatToStringLength(n, width);
    var digits := NatToString(n);
    if |digits| >= width then digits
    else Zeros(width - |digits|) + digits
  }

  /** A run of `k` zero digits. */
  function Zeros(k: nat): (r: string)
    ensures |r| == k && AllDigits(r)
    ensures forall i | 0 <= i < k :: r[i] == '0'
  {
    seq(k, _ => '0')
  }

  /** Reading `a + b` is reading `a` shifted past the digits of `b`. */
  lemma AllDigitsAppend(a: string, b: string)
    requires AllDigits(a) && AllDigits(b)
    ensures AllDigits(a + b)
  {
    forall i | 0 <= i < |a + b| ensures IsDigit((a + b)[i]) {
      if i < |a| { assert (a + b)[i] == a[i]; } else { assert (a + b)[i] == b[i - |a|]; }
    }
  }

  lemma {:induction false} DigitsValueAppend(a: string, b: string)
    requires AllDigits(a) && AllDigits(b)
    ensures AllDigits(a + b)
    ensures DigitsValue(a + b) == DigitsValue(a) * Pow10(|b|) + DigitsValue(b)
  {
    AllDigitsAppend(a, b);
    if b == [] {
      assert a + b == a;
    } else {
      var b' := b[..|b| - 1];
      assert AllDigits(b');
      assert (a + b)[..|a + b| - 1] == a + b';
      assert (a + b)[|a + b| - 1] == b[|b| - 1];
      DigitsValueAppend(a, b');
      ShiftDigit(DigitsValue(a), Pow10(|b'|), DigitsValue(b'), b[|b| - 1] as int - '0' as int);
      assert b == b' + [b[|b| - 1]];
    }
  }

  lemma ShiftDigit(x: int, p: int, y: int, d: int)
    ensures (x * p + y) * 10 + d == x * (10 * p) + (y * 10 + d)
  {
  }

  lemma {:induction false} DigitsValueZeros(k: nat)
    ensures DigitsValue(Zeros(k)) == 0
  {
    if k > 0 {
      assert Zeros(k)[..k - 1] == Zeros(k - 1);
      DigitsValueZeros(k - 1);
    }
  }

  /** x · 10^k, by repeated multiplication by ten. */
  function Times10Pow(x: int, k: nat): int {
    if k == 0 then x else Times10Pow(x, k - 1) * 10
  }

  lemma {:induction false} Times10PowIsProduct(x: int, k: nat)
    ensures Times10Pow(x, k) == x * Pow10(k)
  {
    if k > 0 {
      Times10PowIsProduct(x, k - 1);
      var p := Pow10(k - 1);
      assert x * p * 10 == x * (10 * p);
    }
  }

  /** Trailing zeros multiply the value read by a power of ten. */
  lemma {:induction false} TrailingZerosDigitsValue(ds: string, k: nat)
    requires AllDigits(ds)
    ensures AllDigits(ds + Zeros(k))
    ensures DigitsValue(ds + Zeros(k)) == Times10Pow(DigitsValue(ds), k)
  {
    AllDigitsAppend(ds, Zeros(k));
    if k == 0 {
      assert ds + Zeros(0) == ds;
    } else {
      TrailingZerosDigitsValue(ds, k - 1);
      var t := ds + Zeros(k);
      assert t[..|t| - 1] == ds + Zeros(k - 1);
      assert t[|t| - 1] == '0';
    }
  }

  /** Leading zeros do not change the value read. */
  lemma LeadingZerosValue(k: nat, ds: string)
    requires AllDigits(ds)
    ensures AllDigits(Zeros(k) + ds) && DigitsValue(Zeros(k) + ds) == DigitsValue(ds)
  {
    DigitsValueAppend(Zeros(k), ds);
    DigitsValueZeros(k);
  }

  /** Padding does not change the value read. */
  lemma ZeroPadValue(n: nat, width: nat)
    ensures DigitsValue(ZeroPad(n, width)) == n
  {
    DigitsValueOfNatToString(n);
    var digits := NatToString(n);
    var padded := ZeroPad(n, width);
    if |digits| < width {
      var zeros := Zeros(width - |digits|);
      assert padded == zeros + digits;
      LeadingZerosValue(width - |digits|, digits);
      assert DigitsValue(padded) == DigitsValue(zeros + digits) == DigitsValue(digits);
    } else {
      assert padded == digits;
    }
  }

  /** `s.indexOf(c)` for a single character, with `|s|` for "absent". */
  function FindChar(s: string, c: char): (r: nat)
    ensures r <= |s| && (r < |s| ==> s[r] == c)
    ensures forall k | 0 <= k < r :: s[k] != c
  {
    if s == [] then 0
    else if s[0] == c then 0
    else 1 + FindChar(s[1..], c)
  }

  /** Searching past a prefix that lacks `c`. */
  lemma {:induction false} FindCharAppend(a: string, b: string, c: char)
    requires c !in a
    ensures FindChar(a + b, c) == |a| + FindChar(b, c)
  {
    if a != [] {
      assert (a + b)[1..] == a[1..] + b;
      FindCharAppend(a[1..], b, c);
    } else {
      assert a + b == b;
    }
  }

  /** The number of UTF-16 code units, which is what Java's `length()`
      reports: characters above U+FFFF take a surrogate pair. */
  function Utf16Width(c: char): nat {
    if c as int > 0xFFFF then 2 else 1
  }

  function Utf16Length(s: string): (n: nat)
    ensures |s| <= n <= 2 * |s|
  {
    if s == [] then 0 else Utf16Width(s[0]) + Utf16Length(s[1..])
  }

  lemma {:induction false} Utf16LengthAscii(s: string)
    requires forall i | 0 <= i < |s| :: s[i] as int < 128
    ensures Utf16Length(s) == |s|
  {
    if s != [] {
      Utf16LengthAscii(s[1..]);
    }
  }

  /** `String.join(sep, parts)`. */
  function Join(sep: string, parts: seq<string>): string {
    if parts == [] then ""
    else if |parts| == 1 then parts[0]
    else parts[0] + sep + Join(sep, parts[1..])
  }

  /** The texts of the items, one after another. */
  function ConcatMap<T>(xs: seq<T>, f: T -> string): string {
    if xs == [] then "" else f(xs[0]) + ConcatMap(xs[1..], f)
  }

  lemma ConcatMapCons<T>(x: T, xs: seq<T>, f: T -> string)
    ensures ConcatMap([x] + xs, f) == f(x) + ConcatMap(xs, f)
  {
    assert ([x] + xs)[1..] == xs;
  }

  lemma AppendAssoc<T>(a: seq<T>, b: seq<T>, c: seq<T>)
    ensures a + b + c == a + (b + c)
  {
  }

  /** Regrouping a chain of appends after a prefix. */
  lemma AppendRegroup3<T>(s: seq<T>, a: seq<T>, b: seq<T>, c: seq<T>)
    ensures s + (a + b + c) == s + a + b + c
  {
  }

  lemma AppendRegroup4<T>(s: seq<T>, a: seq<T>, b: seq<T>, c: seq<T>, d: seq<T>)
    ensures s + (a + b + c + d) == s + a + b + c + d
  {
  }

  lemma AppendRegroup6<T>(s: seq<T>, a: seq<T>, b: seq<T>, c: seq<T>, d: seq<T>, e: seq<T>, g: seq<T>)
    ensures s + (a + b + c + d + e + g) == s + a + b + c + d + e + g
  {
  }

  /** Short displays, spelled out. */
  lemma ConcatMapThree<T>(a: T, b: T, c: T, f: T -> string)
    ensures ConcatMap([a, b, c], f) == f(a) + f(b) + f(c)
  {
    assert [a, b, c] == [a] + ([b] + [c]);
    ConcatMapCons(a, [b] + [c], f);
    ConcatMapCons(b, [c], f);
    ConcatMapCons(c, [], f);
  }

  lemma ConcatMapFour<T>(a: T, b: T, c: T, d: T, f: T -> string)
    ensures ConcatMap([a, b, c, d], f) == f(a) + f(b) + f(c) + f(d)
  {
    assert [a, b, c, d] == [a] + [b, c, d];
    ConcatMapCons(a, [b, c, d], f);
    ConcatMapThree(b, c, d, f);
  }

  lemma ConcatMapSix<T>(a: T, b: T, c: T, d: T, e: T, g: T, f: T -> string)
    ensures ConcatMap([a, b, c, d, e, g], f) == f(a) + f(b) + f(c) + f(d) + f(e) + f(g)
  {
    assert [a, b, c, d, e, g] == [a, b, c] + [d, e, g];
    ConcatMapAppend([a, b, c], [d, e, g], f);
    ConcatMapThree(a, b, c, f);
    ConcatMapThree(d, e, g, f);
  }

  lemma {:induction false} ConcatMapAppend<T>(a: seq<T>, b: seq<T>, f: T -> string)
    ensures ConcatMap(a + b, f) == ConcatMap(a, f) + ConcatMap(b, f)
  {
    if a != [] {
      assert (a + b)[1..] == a[1..] + b;
      ConcatMapAppend(a[1..], b, f);
    } else {
      assert a + b == b;
    }
  }

  /** Lexicographic order by code point. */
  predicate StringLess(a: string, b: string) {
    if a == [] then b != []
    else if b == [] then false
    else a[0] < b[0] || (a[0] == b[0] && StringLess(a[1..], b[1..]))
  }

  lemma {:induction false} StringLessTotal(a: string, b: string)
    ensures a == b || StringLess(a, b) || StringLess(b, a)
  {
    if a != [] && b != [] && a[0] == b[0] {
      StringLessTotal(a[1..], b[1..]);
      if a[1..] == b[1..] {
        assert a == [a[0]] + a[1..] && b == [b[0]] + b[1..];
      }
    }
  }

  /** A `java.lang.StringBuilder`: a buffer appended to in place. */
  class StringBuilder {
    var content: string

    constructor (initial: string)
      ensures content == initial
    {
      content := initial;
    }

    method Append(s: string)
      modifies this
      ensures content == old(content) + s
    {
      content := content + s;
    }
  }
}
