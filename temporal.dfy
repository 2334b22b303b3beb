/** `java.time` values the core handles: `LocalDate`, `LocalTime` and
    `Instant` (as epoch milliseconds), the formats they are printed in, and
    the (date, time) order the queries sort by. */
module Temporal {
  import opened Text

  /** ISO proleptic leap-year rule. */
  predicate IsLeapYear(y: int) {
    y % 4 == 0 && (y % 100 != 0 || y % 400 == 0)
  }

  function DaysInMonth(year: int, month: int): int
    requires 1 <= month <= 12
  {
    if month == 2 then (if IsLeapYear(year) then 29 else 28)
    else if month == 4 || month == 6 || month == 9 || month == 11 then 30
    else 31
  }

  datatype Date = Date(year: int, month: int, day: int) {
    predicate Valid() {
      1 <= month <= 12 && 1 <= day <= DaysInMonth(year, month)
    }
  }

  /** `java.time.LocalDate`: a valid calendar date. */
  type LocalDate = d: Date | d.Valid() witness Date(2000, 1, 1)

  datatype Time = Time(hour: int, minute: int, second: int, nano: int) {
    predicate Valid() {
      0 <= hour < 24 && 0 <= minute < 60 && 0 <= second < 60 && 0 <= nano < 1_000_000_000
    }
  }

  /** `java.time.LocalTime`. */
  type LocalTime = t: Time | t.Valid() witness Time(0, 0, 0, 0)

  /** `java.time.Instant`, as milliseconds since the epoch. */
  type Instant = int

  /** `LocalDate.plusYears(n)`: same month and day, except that 29 February
      becomes 28 February in a common year (`resolvePreviousValid`). */
  function PlusYears(d: LocalDate, n: int): (r: LocalDate)
    ensures r.year == d.year + n && r.month == d.month
    ensures r.day == d.day || (d.month == 2 && d.day == 29 && r.day == 28 && !IsLeapYear(r.year))
  {
    var y := d.year + n;
    var day := if d.day > DaysInMonth(y, d.month) then DaysInMonth(y, d.month) else d.day;
    Date(y, d.month, day)
  }

  /** `DateTimeFormatter.ofPattern("yyyyMMdd")`: year of era padded to four
      digits (with a '+' once it needs more), then two-digit month and day. */
  function BasicIsoDate(d: LocalDate): (r: string)
    ensures 1 <= d.year <= 9999 ==> |r| == 8
  {
    assert Pow10(2) == 100 && Pow10(4) == 10000;
    var yearOfEra: nat := if d.year >= 1 then d.year else 1 - d.year;
    var yyyy := if yearOfEra > 9999 then "+" + NatToString(yearOfEra) else ZeroPad(yearOfEra, 4);
    yyyy + ZeroPad(d.month, 2) + ZeroPad(d.day, 2)
  }

  /** `LocalDate.toString()`: ISO-8601 `yyyy-MM-dd`, with a sign for years
      outside 0000 to 9999. */
  function IsoDate(d: LocalDate): string {
    var absYear: nat := if d.year < 0 then -d.year else d.year;
    var yyyy :=
      if absYear < 1000 then (if d.year < 0 then "-" else "") + ZeroPad(absYear, 4)
      else if d.year > 9999 then "+" + NatToString(absYear)
      else (if d.year < 0 then "-" else "") + NatToString(absYear);
    yyyy + "-" + ZeroPad(d.month, 2) + "-" + ZeroPad(d.day, 2)
  }

  /** `DateTimeFormatter.ofPattern("HHmmss")`. */
  function CompactTime(t: LocalTime): (r: string)
    ensures |r| == 6
  {
    assert Pow10(2) == 100;
    ZeroPad(t.hour, 2) + ZeroPad(t.minute, 2) + ZeroPad(t.second, 2)
  }

  /** `LocalTime.toString()`: `HH:mm`, then `:ss` unless seconds and
      nanoseconds are both zero, then a fraction of 3, 6 or 9 digits when
      nanoseconds are not zero. */
  function IsoTime(t: LocalTime): string {
    var hm := ZeroPad(t.hour, 2) + ":" + ZeroPad(t.minute, 2);
    if t.second == 0 && t.nano == 0 then hm
    else
      var fraction :=
        if t.nano == 0 then ""
        else if t.nano % 1_000_000 == 0 then "." + ZeroPad(t.nano / 1_000_000, 3)
        else if t.nano % 1000 == 0 then "." + ZeroPad(t.nano / 1000, 6)
        else "." + ZeroPad(t.nano, 9);
      hm + ":" + ZeroPad(t.second, 2) + fraction
  }

  /** For years 1 to 9999 the eight digits read back as yyyymmdd. */
  lemma BasicIsoDateValue(d: LocalDate)
    requires 1 <= d.year <= 9999
    ensures AllDigits(BasicIsoDate(d))
    ensures DigitsValue(BasicIsoDate(d)) == d.year * 10000 + d.month * 100 + d.day
  {
    assert Pow10(2) == 100 && Pow10(4) == 10000;
    var y, m, dd := ZeroPad(d.year, 4), ZeroPad(d.month, 2), ZeroPad(d.day, 2);
    ZeroPadValue(d.year, 4);
    ZeroPadValue(d.month, 2);
    ZeroPadValue(d.day, 2);
    DigitsValueAppend(y, m);
    DigitsValueAppend(y + m, dd);
    assert BasicIsoDate(d) == y + m + dd;
  }

  /** The six digits of `HHmmss` read back in pairs as hour, minute and
      second. */
  lemma CompactTimeValue(t: LocalTime)
    ensures var r := CompactTime(t);
      && AllDigits(r)
      && DigitsValue(r[..2]) == t.hour && DigitsValue(r[2..4]) == t.minute && DigitsValue(r[4..]) == t.second
  {
    assert Pow10(2) == 100;
    var h, m, sec := ZeroPad(t.hour, 2), ZeroPad(t.minute, 2), ZeroPad(t.second, 2);
    ZeroPadValue(t.hour, 2);
    ZeroPadValue(t.minute, 2);
    ZeroPadValue(t.second, 2);
    var r := h + m + sec;
    assert r == CompactTime(t);
    assert r[..2] == h && r[2..4] == m && r[4..] == sec;
    AllDigitsAppend(h, m);
    AllDigitsAppend(h + m, sec);
  }

  /** Distinct times of day differ in `HHmmss` unless only the nanoseconds
      differ. */
  lemma CompactTimeInjective(a: LocalTime, b: LocalTime)
    ensures CompactTime(a) == CompactTime(b) <==> (a.hour, a.minute, a.second) == (b.hour, b.minute, b.second)
  {
    CompactTimeValue(a);
    CompactTimeValue(b);
  }

  /** Within those years, distinct dates print differently. */
  lemma BasicIsoDateInjective(a: LocalDate, b: LocalDate)
    requires 1 <= a.year <= 9999 && 1 <= b.year <= 9999
    ensures BasicIsoDate(a) == BasicIsoDate(b) <==> a == b
  {
    if BasicIsoDate(a) == BasicIsoDate(b) {
      BasicIsoDateValue(a);
      BasicIsoDateValue(b);
      assert a.year * 10000 + a.month * 100 + a.day == (a.year * 100 + a.month) * 100 + a.day;
      assert b.year * 10000 + b.month * 100 + b.day == (b.year * 100 + b.month) * 100 + b.day;
      LexicographicKey(a.year * 100 + a.month, b.year * 100 + b.month, a.day, b.day, 100);
      LexicographicKey(b.year * 100 + b.month, a.year * 100 + a.month, b.day, a.day, 100);
      LexicographicKey(a.year, b.year, a.month, b.month, 100);
      LexicographicKey(b.year, a.year, b.month, a.month, 100);
    }
  }

  /** Chronological order on dates and on (date, time) pairs. */
  predicate DateBefore(a: LocalDate, b: LocalDate) {
    a.year < b.year || (a.year == b.year && (a.month < b.month || (a.month == b.month && a.day < b.day)))
  }

  predicate TimeBefore(a: LocalTime, b: LocalTime) {
    || a.hour < b.hour
    || (a.hour == b.hour && a.minute < b.minute)
    || (a.hour == b.hour && a.minute == b.minute && a.second < b.second)
    || (a.hour == b.hour && a.minute == b.minute && a.second == b.second && a.nano < b.nano)
  }

  /** Integer keys that order dates and times as `ORDER BY` does. */
  function DateKey(d: LocalDate): int {
    (d.year * 12 + (d.month - 1)) * 31 + (d.day - 1)
  }

  function TimeKey(t: LocalTime): int {
    ((t.hour * 60 + t.minute) * 60 + t.second) * 1_000_000_000 + t.nano
  }

  const NanosPerDay: int := 86_400 * 1_000_000_000

  function DateTimeKey(d: LocalDate, t: LocalTime): int {
    DateKey(d) * NanosPerDay + TimeKey(t)
  }

  lemma DateKeyOrder(a: LocalDate, b: LocalDate)
    ensures DateKey(a) < DateKey(b) <==> DateBefore(a, b)
    ensures DateKey(a) == DateKey(b) <==> a == b
  {
  }

  lemma TimeKeyRange(t: LocalTime)
    ensures 0 <= TimeKey(t) < NanosPerDay
  {
  }

  lemma TimeKeyOrder(a: LocalTime, b: LocalTime)
    ensures TimeKey(a) < TimeKey(b) <==> TimeBefore(a, b)
  {
  }

  /** Multiplying by a positive number keeps order. */
  lemma MulMonotone(a: int, b: int, n: int)
    requires a <= b && n > 0
    ensures a * n <= b * n
  {
    assert b * n - a * n == (b - a) * n;
  }

  /** A key `k * n + x` with `0 <= x < n` orders by `k`, then by `x`. */
  lemma LexicographicKey(ka: int, kb: int, xa: int, xb: int, n: int)
    requires n > 0 && 0 <= xa < n && 0 <= xb < n
    ensures ka * n + xa < kb * n + xb <==> ka < kb || (ka == kb && xa < xb)
  {
    if ka < kb {
      MulMonotone(ka + 1, kb, n);
    } else if kb < ka {
      MulMonotone(kb + 1, ka, n);
    }
  }

  /** Comparing keys is comparing by date, then by time of day. */
  lemma DateTimeKeyOrder(da: LocalDate, ta: LocalTime, db: LocalDate, tb: LocalTime)
    ensures DateTimeKey(da, ta) < DateTimeKey(db, tb)
        <==> DateBefore(da, db) || (da == db && TimeBefore(ta, tb))
  {
    DateKeyOrder(da, db);
    TimeKeyOrder(ta, tb);
    TimeKeyRange(ta);
    TimeKeyRange(tb);
    LexicographicKey(DateKey(da), DateKey(db), TimeKey(ta), TimeKey(tb), NanosPerDay);
  }
}
