/** `java.util.UUID`: a 128-bit value, and the 36-character text
    `UUID.toString()` gives it (lower-case hexadecimal in 8-4-4-4-12
    groups). */
module Ids {
  import opened Text

  const UuidBound: nat := 0x1_0000_0000_0000_0000_0000_0000_0000_0000

  type Uuid = n: nat | n < UuidBound

  function HexDigit(d: nat): (c: char)
    requires d < 16
    ensures d < 10 ==> c == DigitChar(d)
    ensures d >= 10 ==> 'a' <= c <= 'f'
  {
    if d < 10 then DigitChar(d) else ('a' as int + (d - 10)) as char
  }

  predicate IsHexDigit(c: char) {
    '0' <= c <= '9' || 'a' <= c <= 'f'
  }

  /** The lowest `width` hexadecimal digits of `n`, most significant first. */
  function HexPad(n: nat, width: nat): (r: string)
    ensures |r| == width
    ensures forall i | 0 <= i < |r| :: IsHexDigit(r[i])
  {
    if width == 0 then "" else HexPad(n / 16, width - 1) + [HexDigit(n % 16)]
  }

  /** `UUID.toString()`. */
  function UuidToString(u: Uuid): (r: string)
    ensures |r| == 36
    ensures r[8] == '-' && r[13] == '-' && r[18] == '-' && r[23] == '-'
    ensures forall i | 0 <= i < 36 && i != 8 && i != 13 && i != 18 && i != 23 :: IsHexDigit(r[i])
  {
    var a := HexPad(u / 0x1_0000_0000_0000_0000_0000_0000, 8);
    var b := HexPad(u / 0x1_0000_0000_0000_0000_0000, 4);
    var c := HexPad(u / 0x1_0000_0000_0000_0000, 4);
    var d := HexPad(u / 0x1_0000_0000_0000, 4);
    var e := HexPad(u, 12);
    DashedGroups(a, b, c, d, e);
    a + "-" + b + "-" + c + "-" + d + "-" + e
  }

  function Pow16(k: nat): (p: nat)
    ensures p >= 1
  {
    if k == 0 then 1 else 16 * Pow16(k - 1)
  }

  lemma {:induction false} Pow16Add(a: nat, b: nat)
    ensures Pow16(a + b) == Pow16(a) * Pow16(b)
  {
    if b > 0 {
      Pow16Add(a, b - 1);
      assert Pow16(a + b) == 16 * Pow16(a + b - 1);
    }
  }

  /** The powers of sixteen `UuidToString` divides by. */
  lemma GroupPowers()
    ensures Pow16(12) == 0x1_0000_0000_0000
    ensures Pow16(16) == 0x1_0000_0000_0000_0000
    ensures Pow16(20) == 0x1_0000_0000_0000_0000_0000
    ensures Pow16(24) == 0x1_0000_0000_0000_0000_0000_0000
    ensures Pow16(32) == UuidBound
  {
    assert Pow16(4) == 0x1_0000;
    Pow16Add(4, 4);
    Pow16Add(8, 4);
    Pow16Add(12, 4);
    Pow16Add(16, 4);
    Pow16Add(20, 4);
    Pow16Add(24, 8);
  }

  /** The value of a hexadecimal digit. */
  function HexDigitValue(c: char): nat {
    if '0' <= c <= '9' then c as int - '0' as int
    else if 'a' <= c <= 'f' then c as int - 'a' as int + 10
    else 0
  }

  /** The number a text of hexadecimal digits spells, most significant first. */
  function HexValue(s: string): nat {
    if s == [] then 0 else HexValue(s[..|s| - 1]) * 16 + HexDigitValue(s[|s| - 1])
  }

  /** Below 16^width, the padded digits read back as the number. */
  lemma {:induction false} HexPadValue(n: nat, width: nat)
    requires n < Pow16(width)
    ensures HexValue(HexPad(n, width)) == n
  {
    if width > 0 {
      var r := HexPad(n, width);
      HexPadValue(n / 16, width - 1);
      assert r[..|r| - 1] == HexPad(n / 16, width - 1);
      assert HexDigitValue(HexDigit(n % 16)) == n % 16;
    }
  }

  /** `n` with its low `k` hexadecimal digits shifted away. */
  function ShiftHex(n: nat, k: nat): nat {
    if k == 0 then n else ShiftHex(n / 16, k - 1)
  }

  lemma {:induction false} ShiftHexDivides(n: nat, k: nat)
    ensures ShiftHex(n, k) == n / Pow16(k)
  {
    if k > 0 {
      ShiftHexDivides(n / 16, k - 1);
      DivDiv(n, 16, Pow16(k - 1));
    }
  }

  /** Padding to `w + k` digits is the high `w` digits, then the low `k`. */
  lemma {:induction false} HexPadSplit(n: nat, w: nat, k: nat)
    ensures HexPad(n, w + k) == HexPad(ShiftHex(n, k), w) + HexPad(n, k)
  {
    if k > 0 {
      var q, last := n / 16, [HexDigit(n % 16)];
      HexPadSplit(q, w, k - 1);
      assert HexPad(n, w + k) == HexPad(q, w + (k - 1)) + last;
      assert HexPad(n, k) == HexPad(q, k - 1) + last;
    }
  }

  lemma DivDiv(n: nat, a: nat, b: nat)
    requires a > 0 && b > 0
    ensures n / a / b == n / (a * b)
  {
    var q, r := n / a, n % a;
    var q2, r2 := q / b, q % b;
    var m := a * r2 + r;
    assert a * q == a * (b * q2) + a * r2 by {
      assert q == b * q2 + r2;
    }
    assert a * (b * q2) == (a * b) * q2;
    assert n == (a * b) * q2 + m;
    assert m < a * b by {
      assert a * r2 <= a * (b - 1) by {
        MulMonotoneNat(a, r2, b - 1);
      }
    }
    DivUnique(n, a * b, q2, m);
  }

  lemma MulMonotoneNat(a: nat, x: nat, y: nat)
    requires x <= y
    ensures a * x <= a * y
  {
  }

  lemma DivUnique(n: nat, d: nat, q: nat, r: nat)
    requires d > 0 && n == d * q + r && r < d
    ensures n / d == q
  {
    var q1, r1 := n / d, n % d;
    assert n == d * q1 + r1 && r1 < d;
    if q1 > q {
      MulMonotoneNat(d, q + 1, q1);
      assert false;
    } else if q1 < q {
      MulMonotoneNat(d, q1 + 1, q);
      assert false;
    }
  }

  /** The undashed text of a `UUID.toString()`. */
  function Undashed(r: string): string
    requires |r| == 36
  {
    r[..8] + r[9..13] + r[14..18] + r[19..23] + r[24..]
  }

  /** The five groups of `UUID.toString()` are the UUID's digits shifted
      right by 24, 20, 16, 12 and 0 places. */
  lemma UuidGroups(u: Uuid)
    ensures UuidToString(u)
         == HexPad(ShiftHex(u, 24), 8) + "-" + HexPad(ShiftHex(u, 20), 4) + "-"
          + HexPad(ShiftHex(u, 16), 4) + "-" + HexPad(ShiftHex(u, 12), 4) + "-" + HexPad(u, 12)
  {
    GroupPowers();
    ShiftHexDivides(u, 24);
    ShiftHexDivides(u, 20);
    ShiftHexDivides(u, 16);
    ShiftHexDivides(u, 12);
  }

  /** Removing the dashes from five dash-joined groups of 8, 4, 4, 4 and 12. */
  lemma UndashedGroups(a: string, b: string, c: string, d: string, e: string)
    requires |a| == 8 && |b| == 4 && |c| == 4 && |d| == 4 && |e| == 12
    ensures Undashed(a + "-" + b + "-" + c + "-" + d + "-" + e) == a + b + c + d + e
  {
    var r := a + "-" + b + "-" + c + "-" + d + "-" + e;
    assert r[..8] == a && r[9..13] == b && r[14..18] == c && r[19..23] == d && r[24..] == e;
  }

  /** Thirty-two digits are the five groups of a UUID, running together. */
  lemma HexPadGroups(n: nat)
    ensures HexPad(n, 32)
         == HexPad(ShiftHex(n, 24), 8) + HexPad(ShiftHex(n, 20), 4)
          + HexPad(ShiftHex(n, 16), 4) + HexPad(ShiftHex(n, 12), 4) + HexPad(n, 12)
  {
    HexPadSplit(n, 8, 24);
    HexPadSplit(n, 4, 20);
    HexPadSplit(n, 4, 16);
    HexPadSplit(n, 4, 12);
  }

  /** The 32 hexadecimal digits of `UUID.toString()` read back as the UUID. */
  lemma UuidToStringValue(u: Uuid)
    ensures HexValue(Undashed(UuidToString(u))) == u
  {
    UuidGroups(u);
    UndashedGroups(HexPad(ShiftHex(u, 24), 8), HexPad(ShiftHex(u, 20), 4),
                   HexPad(ShiftHex(u, 16), 4), HexPad(ShiftHex(u, 12), 4), HexPad(u, 12));
    HexPadGroups(u);
    assert Pow16(32) == UuidBound by {
      GroupPowers();
    }
    HexPadValue(u, 32);
  }

  /** Distinct UUIDs print differently. */
  lemma UuidToStringInjective(u: Uuid, v: Uuid)
    ensures UuidToString(u) == UuidToString(v) <==> u == v
  {
    UuidToStringValue(u);
    UuidToStringValue(v);
  }

  /** Five hexadecimal groups of 8, 4, 4, 4 and 12 digits joined by dashes. */
  lemma DashedGroups(a: string, b: string, c: string, d: string, e: string)
    requires |a| == 8 && |b| == 4 && |c| == 4 && |d| == 4 && |e| == 12
    requires forall i | 0 <= i < 8 :: IsHexDigit(a[i])
    requires forall i | 0 <= i < 4 :: IsHexDigit(b[i]) && IsHexDigit(c[i]) && IsHexDigit(d[i])
    requires forall i | 0 <= i < 12 :: IsHexDigit(e[i])
    ensures var r := a + "-" + b + "-" + c + "-" + d + "-" + e;
      && |r| == 36
      && r[8] == '-' && r[13] == '-' && r[18] == '-' && r[23] == '-'
      && forall i | 0 <= i < 36 && i != 8 && i != 13 && i != 18 && i != 23 :: IsHexDigit(r[i])
  {
    var r := a + "-" + b + "-" + c + "-" + d + "-" + e;
    assert forall i | 0 <= i < 8 :: r[i] == a[i];
    assert forall i | 9 <= i < 13 :: r[i] == b[i - 9];
    assert forall i | 14 <= i < 18 :: r[i] == c[i - 14];
    assert forall i | 19 <= i < 23 :: r[i] == d[i - 19];
    assert forall i | 24 <= i < 36 :: r[i] == e[i - 24];
  }

  /** `List<UUID>.toString()`: the elements between brackets, separated by
      ", ". */
  function UuidListToString(ids: seq<Uuid>): (r: string)
    ensures |r| >= 2 && r[0] == '[' && r[|r| - 1] == ']'
    ensures ids == [] ==> r == "[]"
    ensures ids != [] ==> |r| == 38 * |ids|
    ensures forall i | 0 <= i < |ids| :: Cell(r[1..|r| - 1], i) == UuidToString(ids[i])
    ensures forall i {:trigger Gap(r[1..|r| - 1], i)} | 0 <= i < |ids| - 1 :: Gap(r[1..|r| - 1], i) == ", "
  {
    var parts := seq(|ids|, i requires 0 <= i < |ids| => UuidToString(ids[i]));
    var r := "[" + Join(", ", parts) + "]";
    assert r[1..|r| - 1] == Join(", ", parts);
    if ids == [] then r
    else
      JoinedUuids(parts);
      r
  }

  /** The `i`-th 36-character element of a list joined with ", ". */
  function Cell(j: string, i: nat): string
    requires 38 * i + 36 <= |j|
  {
    j[38 * i..38 * i + 36]
  }

  /** The separator after the `i`-th element of a list joined with ", ". */
  function Gap(j: string, i: nat): string
    requires 38 * i + 38 <= |j|
  {
    j[38 * i + 36..38 * i + 38]
  }

  /** Joining 36-character texts with ", " puts each at a stride of 38. */
  lemma {:induction false} JoinedUuids(parts: seq<string>)
    requires parts != []
    requires forall i | 0 <= i < |parts| :: |parts[i]| == 36
    ensures var j := Join(", ", parts);
      && |j| == 38 * |parts| - 2
      && (forall i | 0 <= i < |parts| :: Cell(j, i) == parts[i])
      && (forall i | 0 <= i < |parts| - 1 :: Gap(j, i) == ", ")
  {
    if |parts| > 1 {
      var rest := Join(", ", parts[1..]);
      JoinedUuids(parts[1..]);
      var j := parts[0] + ", " + rest;
      assert j == Join(", ", parts);
      forall i | 0 <= i < |parts|
        ensures Cell(j, i) == parts[i]
      {
        if i > 0 {
          var a, b := Cell(j, i), Cell(rest, i - 1);
          forall k | 0 <= k < 36 ensures a[k] == b[k] {
            assert a[k] == j[38 * i + k] == rest[38 * (i - 1) + k];
          }
          assert a == b;
        }
      }
      forall i | 0 <= i < |parts| - 1
        ensures Gap(j, i) == ", "
      {
        if i > 0 {
          var a, b := Gap(j, i), Gap(rest, i - 1);
          forall k | 0 <= k < 2 ensures a[k] == b[k] {
            assert a[k] == j[38 * i + 36 + k] == rest[38 * (i - 1) + 36 + k];
          }
          assert a == b;
        }
      }
    }
  }
}
