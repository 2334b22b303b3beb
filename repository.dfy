/** The QSO repository. Its queries are functions over the stored rows,
    each a WHERE condition, an ORDER BY and a LIMIT/OFFSET window; `Store`
    holds the rows and performs the two writes, insert-or-replace and
    delete. */
module Repository {
  import opened Common
  import opened Text
  import opened Enums
  import opened Temporal
  import opened Ids
  import opened QsoEntity
  import opened Grouping

  /** `Integer.MAX_VALUE`, the page size the export asks for. */
  const IntMax: nat := 0x7fff_ffff

  /** The callsign pattern the service builds: `"%" + fragment + "%"`. */
  datatype LikePattern = Containing(fragment: string)

  /** The WHERE clauses of the queries. */
  datatype Condition =
    | OwnedBy(userId: Uuid)
    | IdAndOwner(id: Uuid, userId: Uuid)
    | DuplicateOf(userId: Uuid, callsign: string, date: LocalDate, band: string, modeName: string)
    | Filtered(userId: Uuid, pattern: Option<LikePattern>, bandFilter: Option<string>,
               fromDate: Option<LocalDate>, toDate: Option<LocalDate>)
    | DateRange(userId: Uuid, first: LocalDate, last: LocalDate)
    | SameCallsign(userId: Uuid, callsign: string)
    | Not(c: Condition)

  /** `qso_date >= from` (when `from` is given). */
  predicate OnOrAfter(d: LocalDate, from: Option<LocalDate>) {
    from.None? || !DateBefore(d, from.value)
  }

  /** `qso_date <= to` (when `to` is given). */
  predicate OnOrBefore(d: LocalDate, to: Option<LocalDate>) {
    to.None? || !DateBefore(to.value, d)
  }

  /** `UPPER(their_callsign) LIKE UPPER('%fragment%')`. */
  predicate MatchesPattern(callsign: string, pattern: Option<LikePattern>) {
    pattern.None? || Contains(ToUpper(callsign), ToUpper(pattern.value.fragment))
  }

  predicate Holds(c: Condition, r: QsoRecord) {
    match c
    case OwnedBy(u) => r.userId == u
    case IdAndOwner(id, u) => r.id == id && r.userId == u
    case DuplicateOf(u, callsign, date, band, modeName) =>
      && r.userId == u && r.contact.theirCallsign == callsign && r.contact.qsoDate == date
      && r.contact.band == band && r.contact.mode.Name() == modeName
    case Filtered(u, pattern, band, from, to) =>
      && r.userId == u
      && MatchesPattern(r.contact.theirCallsign, pattern)
      && (band.None? || r.contact.band == band.value)
      && OnOrAfter(r.contact.qsoDate, from)
      && OnOrBefore(r.contact.qsoDate, to)
    case DateRange(u, from, to) =>
      r.userId == u && OnOrAfter(r.contact.qsoDate, Some(from)) && OnOrBefore(r.contact.qsoDate, Some(to))
    case SameCallsign(u, callsign) =>
      r.userId == u && ToUpper(r.contact.theirCallsign) == ToUpper(callsign)
    case Not(c') => !Holds(c', r)
  }

  /** The rows meeting a condition, in storage order. */
  function Where(rows: seq<QsoRecord>, c: Condition): (r: seq<QsoRecord>)
    ensures |r| <= |rows|
    ensures forall x :: x in r <==> x in rows && Holds(c, x)
  {
    if rows == [] then []
    else
      var rest := Where(rows[1..], c);
      assert forall x :: x in rows <==> x == rows[0] || x in rows[1..];
      if Holds(c, rows[0]) then [rows[0]] + rest else rest
  }

  /** A condition every row meets keeps them all. */
  lemma {:induction false} WhereAll(rows: seq<QsoRecord>, c: Condition)
    requires forall i | 0 <= i < |rows| :: Holds(c, rows[i])
    ensures Where(rows, c) == rows
  {
    if rows != [] {
      WhereAll(rows[1..], c);
      assert rows == [rows[0]] + rows[1..];
    }
  }

  /** The rows kept and the rows dropped add up to all rows. */
  lemma {:induction false} WhereSplit(rows: seq<QsoRecord>, c: Condition)
    ensures |Where(rows, c)| + |Where(rows, Not(c))| == |rows|
  {
    if rows != [] {
      WhereSplit(rows[1..], c);
      if Holds(c, rows[0]) {
        assert Where(rows, c) == [rows[0]] + Where(rows[1..], c);
        assert Where(rows, Not(c)) == Where(rows[1..], Not(c));
      } else {
        assert Where(rows, c) == Where(rows[1..], c);
        assert Where(rows, Not(c)) == [rows[0]] + Where(rows[1..], Not(c));
      }
    }
  }

  // ORDER BY qso_date, time_on

  /** The (date, time) sort key. */
  function Chronological(r: QsoRecord): int {
    DateTimeKey(r.contact.qsoDate, r.contact.timeOn)
  }

  /** The key of `ORDER BY qso_date DESC, time_on DESC`. */
  function NewestFirstKey(r: QsoRecord): int {
    -Chronological(r)
  }

  predicate SortedByKey<T>(rows: seq<T>, key: T -> int) {
    forall i, j | 0 <= i < j < |rows| :: key(rows[i]) <= key(rows[j])
  }

  function InsertByKey<T>(x: T, rows: seq<T>, key: T -> int): (r: seq<T>)
    requires SortedByKey(rows, key)
    ensures |r| == |rows| + 1
    ensures forall i | 0 <= i < |r| :: r[i] == x || r[i] in rows
    ensures SortedByKey(r, key)
  {
    if rows == [] || key(x) <= key(rows[0]) then
      [x] + rows
    else
      var t := InsertByKey(x, rows[1..], key);
      var r := [rows[0]] + t;
      assert forall i | 1 <= i < |r| :: r[i] == t[i - 1];
      r
  }

  lemma {:induction false} InsertByKeyMultiset<T>(x: T, rows: seq<T>, key: T -> int)
    requires SortedByKey(rows, key)
    ensures multiset(InsertByKey(x, rows, key)) == multiset(rows) + multiset{x}
  {
    if rows != [] && key(x) > key(rows[0]) {
      InsertByKeyMultiset(x, rows[1..], key);
      assert rows == [rows[0]] + rows[1..];
      assert InsertByKey(x, rows, key) == [rows[0]] + InsertByKey(x, rows[1..], key);
    }
  }

  /** A stable sort by `key`: rows with equal keys keep their storage
      order. */
  function SortByKey<T>(rows: seq<T>, key: T -> int): (r: seq<T>)
    ensures SortedByKey(r, key)
    ensures |r| == |rows|
  {
    if rows == [] then [] else InsertByKey(rows[0], SortByKey(rows[1..], key), key)
  }

  /** Sorting permutes the rows. */
  lemma {:induction false} SortByKeyPermutes<T>(rows: seq<T>, key: T -> int)
    ensures multiset(SortByKey(rows, key)) == multiset(rows)
  {
    if rows != [] {
      var x, tail := rows[0], rows[1..];
      var t := SortByKey(tail, key);
      SortByKeyPermutes(tail, key);
      InsertByKeyMultiset(x, t, key);
      assert SortByKey(rows, key) == InsertByKey(x, t, key);
      assert rows == [x] + tail;
      assert multiset(rows) == multiset(tail) + multiset{x};
    }
  }

  /** Sorting keeps exactly the same rows. */
  lemma SortByKeySameRows<T>(rows: seq<T>, key: T -> int)
    ensures forall x :: x in SortByKey(rows, key) <==> x in rows
  {
    var s := SortByKey(rows, key);
    SortByKeyPermutes(rows, key);
    forall x ensures x in s <==> x in rows {
      assert x in s <==> x in multiset(s);
      assert x in rows <==> x in multiset(rows);
    }
  }

  /** `LIMIT limit OFFSET offset`. */
  function Window<T>(rows: seq<T>, limit: nat, offset: nat): (r: seq<T>)
    ensures |r| == if offset >= |rows| then 0 else if limit < |rows| - offset then limit else |rows| - offset
    ensures forall i | 0 <= i < |r| :: r[i] == rows[offset + i]
  {
    var after := if offset >= |rows| then [] else rows[offset..];
    if limit < |after| then after[..limit] else after
  }

  lemma WindowWhole<T>(rows: seq<T>, limit: nat)
    requires limit >= |rows|
    ensures Window(rows, limit, 0) == rows
  {
  }

  /** A window cut out of a sorted list is sorted. */
  lemma WindowSorted<T>(rows: seq<T>, key: T -> int, limit: nat, offset: nat)
    requires SortedByKey(rows, key)
    ensures SortedByKey(Window(rows, limit, offset), key)
  {
  }

  // The queries

  /** `findByUserId(userId, PageRequest.of(0, MAX_VALUE, ASC qsoDate, timeOn))`. */
  function FindByUserIdOldestFirst(rows: seq<QsoRecord>, userId: Uuid): (r: seq<QsoRecord>)
    ensures SortedByKey(r, Chronological)
    ensures forall x | x in r :: x in rows && x.userId == userId
    ensures |Where(rows, OwnedBy(userId))| <= IntMax ==> forall x :: x in r <==> x in rows && x.userId == userId
  {
    var w := Where(rows, OwnedBy(userId));
    var sorted := SortByKey(w, Chronological);
    WindowSorted(sorted, Chronological, IntMax, 0);
    SortByKeySameRows(w, Chronological);
    var r := Window(sorted, IntMax, 0);
    assert forall x | x in r :: x in sorted;
    if |w| <= IntMax then
      WindowWhole(sorted, IntMax);
      r
    else r
  }

  /** `findByIdAndUserId`. */
  function FindByIdAndUserId(rows: seq<QsoRecord>, id: Uuid, userId: Uuid): (r: Option<QsoRecord>)
    ensures r.Some? ==> r.value in rows && r.value.id == id && r.value.userId == userId
    ensures r.None? <==> forall x | x in rows :: !(x.id == id && x.userId == userId)
  {
    var found := Where(rows, IdAndOwner(id, userId));
    if found == [] then None
    else
      assert found[0] in found;
      Some(found[0])
  }

  /** The rows `deleteByIdAndUserId` leaves: every row but the one with
      that id and owner. */
  function Deleted(rows: seq<QsoRecord>, id: Uuid, userId: Uuid): (r: seq<QsoRecord>)
    ensures forall x :: x in r <==> x in rows && !(x.id == id && x.userId == userId)
  {
    var c := Not(IdAndOwner(id, userId));
    assert forall x :: Holds(c, x) <==> !(x.id == id && x.userId == userId);
    Where(rows, c)
  }

  /** `findPotentialDuplicates`: exact (case-sensitive) equality on owner,
      callsign, date, band and mode name; the time of day plays no part. */
  function FindPotentialDuplicates(rows: seq<QsoRecord>, userId: Uuid, callsign: string, date: LocalDate,
                                   band: string, modeName: string): (r: seq<QsoRecord>)
    ensures forall x :: x in r <==>
      && x in rows && x.userId == userId && x.contact.theirCallsign == callsign
      && x.contact.qsoDate == date && x.contact.band == band && x.contact.mode.Name() == modeName
  {
    Where(rows, DuplicateOf(userId, callsign, date, band, modeName))
  }

  /** A stored row is a potential duplicate of a new contact exactly when
      owner, callsign, date, band and mode agree. */
  lemma DuplicateKey(rows: seq<QsoRecord>, userId: Uuid, c: Contact, x: QsoRecord)
    requires x in rows
    ensures x in FindPotentialDuplicates(rows, userId, c.theirCallsign, c.qsoDate, c.band, c.mode.Name())
        <==> && x.userId == userId && x.contact.theirCallsign == c.theirCallsign
             && x.contact.qsoDate == c.qsoDate && x.contact.band == c.band && x.contact.mode == c.mode
  {
    ModeNameInjective(x.contact.mode, c.mode);
  }

  /** `countByUserId`. */
  function CountByUserId(rows: seq<QsoRecord>, userId: Uuid): (n: nat)
    ensures n <= |rows|
    ensures n == CountWhere(rows, (x: QsoRecord) => x.userId == userId)
  {
    OwnedRowsCounted(rows, userId);
    |Where(rows, OwnedBy(userId))|
  }

  /** Filtering by owner keeps exactly as many rows as the owner has. */
  lemma {:induction false} OwnedRowsCounted(rows: seq<QsoRecord>, userId: Uuid)
    ensures |Where(rows, OwnedBy(userId))| == CountWhere(rows, (x: QsoRecord) => x.userId == userId)
  {
    if rows != [] {
      OwnedRowsCounted(rows[1..], userId);
    }
  }

  /** `findByUserIdAndDateRange`: from and to inclusive, newest first. */
  function FindByUserIdAndDateRange(rows: seq<QsoRecord>, userId: Uuid, from: LocalDate, to: LocalDate,
                                    limit: nat, offset: nat): (r: seq<QsoRecord>)
  {
    Window(SortByKey(Where(rows, DateRange(userId, from, to)), NewestFirstKey), limit, offset)
  }

  /** `findByUserIdWithFilters`: a null filter matches everything. */
  function FindByUserIdWithFilters(rows: seq<QsoRecord>, userId: Uuid, pattern: Option<LikePattern>,
                                   band: Option<string>, from: Option<LocalDate>, to: Option<LocalDate>,
                                   limit: nat, offset: nat): (r: seq<QsoRecord>)
  {
    Window(SortByKey(Where(rows, Filtered(userId, pattern, band, from, to)), NewestFirstKey), limit, offset)
  }

  /** Newest first, in terms of dates and times. */
  lemma NewestFirstMeansLaterFirst(rows: seq<QsoRecord>, i: nat, j: nat)
    requires SortedByKey(rows, NewestFirstKey)
    requires i < j < |rows|
    ensures var a, b := rows[i].contact, rows[j].contact;
      !(DateBefore(a.qsoDate, b.qsoDate) || (a.qsoDate == b.qsoDate && TimeBefore(a.timeOn, b.timeOn)))
  {
    var a, b := rows[i].contact, rows[j].contact;
    DateTimeKeyOrder(a.qsoDate, a.timeOn, b.qsoDate, b.timeOn);
  }

  /** What the filtered listing returns: the owner's rows that pass every
      given filter, newest first, at most `limit` of them. */
  lemma FilteredListing(rows: seq<QsoRecord>, userId: Uuid, pattern: Option<LikePattern>,
                        band: Option<string>, from: Option<LocalDate>, to: Option<LocalDate>,
                        limit: nat, offset: nat)
    ensures var r := FindByUserIdWithFilters(rows, userId, pattern, band, from, to, limit, offset);
      && |r| <= limit
      && SortedByKey(r, NewestFirstKey)
      && (forall i | 0 <= i < |r| ::
            && r[i] in rows && r[i].userId == userId
            && MatchesPattern(r[i].contact.theirCallsign, pattern)
            && (band.Some? ==> r[i].contact.band == band.value)
            && OnOrAfter(r[i].contact.qsoDate, from) && OnOrBefore(r[i].contact.qsoDate, to))
  {
    var c := Filtered(userId, pattern, band, from, to);
    var sorted := SortByKey(Where(rows, c), NewestFirstKey);
    WindowSorted(sorted, NewestFirstKey, limit, offset);
    SortByKeySameRows(Where(rows, c), NewestFirstKey);
    var r := Window(sorted, limit, offset);
    assert forall i | 0 <= i < |r| :: r[i] in sorted;
  }

  /** With offset 0 and a large enough limit, the filtered listing holds
      every matching row. */
  lemma FilteredListingComplete(rows: seq<QsoRecord>, userId: Uuid, pattern: Option<LikePattern>,
                                band: Option<string>, from: Option<LocalDate>, to: Option<LocalDate>,
                                limit: nat)
    requires limit >= |Where(rows, Filtered(userId, pattern, band, from, to))|
    ensures multiset(FindByUserIdWithFilters(rows, userId, pattern, band, from, to, limit, 0))
         == multiset(Where(rows, Filtered(userId, pattern, band, from, to)))
  {
    var sorted := SortByKey(Where(rows, Filtered(userId, pattern, band, from, to)), NewestFirstKey);
    SortByKeyPermutes(Where(rows, Filtered(userId, pattern, band, from, to)), NewestFirstKey);
    WindowWhole(sorted, limit);
  }

  /** The date-range query keeps exactly the owner's rows between the two
      dates, inclusive, newest first. */
  lemma DateRangeListing(rows: seq<QsoRecord>, userId: Uuid, from: LocalDate, to: LocalDate)
    ensures var r := FindByUserIdAndDateRange(rows, userId, from, to, IntMax, 0);
      && SortedByKey(r, NewestFirstKey)
      && (|Where(rows, DateRange(userId, from, to))| <= IntMax ==>
            forall x :: x in r <==> x in rows && x.userId == userId
                                    && !DateBefore(x.contact.qsoDate, from) && !DateBefore(to, x.contact.qsoDate))
  {
    var w := Where(rows, DateRange(userId, from, to));
    var sorted := SortByKey(w, NewestFirstKey);
    WindowSorted(sorted, NewestFirstKey, IntMax, 0);
    if |w| <= IntMax {
      WindowWhole(sorted, IntMax);
      SortByKeySameRows(w, NewestFirstKey);
    }
  }

  // Statistics

  /** Confirmed by paper QSL, LoTW or eQSL. */
  predicate IsConfirmed(r: QsoRecord) {
    || r.qslStatus == Some(QslStatus.CONFIRMED)
    || r.lotwStatus == Some(LotwStatus.CONFIRMED)
    || r.eqslStatus == Some(EqslStatus.CONFIRMED)
  }

  datatype GroupCount<K> = GroupCount(key: K, countAll: nat, countConfirmed: nat)

  datatype TotalCount = TotalCount(countAll: nat, countConfirmed: nat)

  /** The rows the statistics of one owner and period are taken over. */
  function PeriodRows(rows: seq<QsoRecord>, userId: Uuid, from: Option<LocalDate>, to: Option<LocalDate>): seq<QsoRecord> {
    Where(rows, Filtered(userId, None, None, from, to))
  }

  /** One count row per key, in key order. */
  function GroupsOver<K(==, !new)>(ks: seq<K>, xs: seq<QsoRecord>, key: QsoRecord -> K): (gs: seq<GroupCount<K>>)
    ensures |gs| == |ks|
    ensures forall i | 0 <= i < |gs| ::
      && gs[i].key == ks[i]
      && gs[i].countAll == CountKey(xs, key, ks[i])
      && gs[i].countConfirmed == CountKeyWhere(xs, key, ks[i], IsConfirmed)
      && gs[i].countConfirmed <= gs[i].countAll
  {
    if ks == [] then []
    else [GroupCount(ks[0], CountKey(xs, key, ks[0]), CountKeyWhere(xs, key, ks[0], IsConfirmed))]
         + GroupsOver(ks[1..], xs, key)
  }

  /** `GROUP BY key ORDER BY key` with `COUNT(*)` and the confirmed count. */
  function GroupBy<K(==, !new)>(xs: seq<QsoRecord>, key: QsoRecord -> K, less: (K, K) -> bool): seq<GroupCount<K>> {
    GroupsOver(DistinctKeys(xs, key, less), xs, key)
  }

  function BandOf(r: QsoRecord): string {
    r.contact.band
  }

  /** The stored text of the mode column. */
  function ModeNameOf(r: QsoRecord): string {
    r.contact.mode.Name()
  }

  function DateOf(r: QsoRecord): LocalDate {
    r.contact.qsoDate
  }

  /** `getStatsByBand`, `getStatsByMode`, `getStatsByDay`, `getTotals`.
      Band and mode groups are ordered by the database's collation of
      text, which is a parameter here; `StringLess` (code-point order) is
      one such collation. */
  function StatsByBand(rows: seq<QsoRecord>, userId: Uuid, from: Option<LocalDate>, to: Option<LocalDate>,
                       collation: (string, string) -> bool): seq<GroupCount<string>> {
    GroupBy(PeriodRows(rows, userId, from, to), BandOf, collation)
  }

  function StatsByMode(rows: seq<QsoRecord>, userId: Uuid, from: Option<LocalDate>, to: Option<LocalDate>,
                       collation: (string, string) -> bool): seq<GroupCount<string>> {
    GroupBy(PeriodRows(rows, userId, from, to), ModeNameOf, collation)
  }

  function StatsByDay(rows: seq<QsoRecord>, userId: Uuid, from: Option<LocalDate>, to: Option<LocalDate>): seq<GroupCount<LocalDate>> {
    GroupBy(PeriodRows(rows, userId, from, to), DateOf, DateBefore)
  }

  function Totals(rows: seq<QsoRecord>, userId: Uuid, from: Option<LocalDate>, to: Option<LocalDate>): (t: TotalCount)
    ensures t.countConfirmed <= t.countAll
  {
    var xs := PeriodRows(rows, userId, from, to);
    TotalCount(|xs|, CountWhere(xs, IsConfirmed))
  }

  function SumAll<K>(gs: seq<GroupCount<K>>): nat {
    if gs == [] then 0 else gs[0].countAll + SumAll(gs[1..])
  }

  function SumConfirmed<K>(gs: seq<GroupCount<K>>): nat {
    if gs == [] then 0 else gs[0].countConfirmed + SumConfirmed(gs[1..])
  }

  lemma {:induction false} GroupsOverSums<K(!new)>(ks: seq<K>, xs: seq<QsoRecord>, key: QsoRecord -> K)
    ensures SumAll(GroupsOver(ks, xs, key)) == SumCounts(ks, xs, key)
    ensures SumConfirmed(GroupsOver(ks, xs, key)) == SumCountsWhere(ks, xs, key, IsConfirmed)
  {
    if ks != [] {
      GroupsOverSums(ks[1..], xs, key);
      var gs := GroupsOver(ks, xs, key);
      assert gs[1..] == GroupsOver(ks[1..], xs, key);
    }
  }

  /** The groups partition the rows: their counts add up to the totals. */
  lemma {:induction false} GroupByPartition<K(!new)>(xs: seq<QsoRecord>, key: QsoRecord -> K, less: (K, K) -> bool)
    ensures SumAll(GroupBy(xs, key, less)) == |xs|
    ensures SumConfirmed(GroupBy(xs, key, less)) == CountWhere(xs, IsConfirmed)
  {
    var ks := DistinctKeys(xs, key, less);
    GroupsPartition(ks, xs, key, IsConfirmed);
    GroupsOverSums(ks, xs, key);
  }

  /** Each statistics query adds up to the totals: every row of the period
      falls in exactly one band, one mode and one day group. */
  lemma StatsAddUpToTotals(rows: seq<QsoRecord>, userId: Uuid, from: Option<LocalDate>, to: Option<LocalDate>,
                           collation: (string, string) -> bool)
    ensures var t := Totals(rows, userId, from, to);
      && SumAll(StatsByBand(rows, userId, from, to, collation)) == t.countAll
      && SumConfirmed(StatsByBand(rows, userId, from, to, collation)) == t.countConfirmed
      && SumAll(StatsByMode(rows, userId, from, to, collation)) == t.countAll
      && SumConfirmed(StatsByMode(rows, userId, from, to, collation)) == t.countConfirmed
      && SumAll(StatsByDay(rows, userId, from, to)) == t.countAll
      && SumConfirmed(StatsByDay(rows, userId, from, to)) == t.countConfirmed
  {
    var xs := PeriodRows(rows, userId, from, to);
    GroupByPartition(xs, BandOf, collation);
    GroupByPartition(xs, ModeNameOf, collation);
    GroupByPartition(xs, DateOf, DateBefore);
  }

  /** Code-point order is a total collation, so `StatsOrdered` covers it. */
  lemma StringLessIsTotal()
    ensures Total(StringLess)
  {
    forall a: string, b: string ensures a == b || StringLess(a, b) || StringLess(b, a) {
      StringLessTotal(a, b);
    }
  }

  lemma DateBeforeIsTotal()
    ensures Total(DateBefore)
  {
    forall a: LocalDate, b: LocalDate ensures a == b || DateBefore(a, b) || DateBefore(b, a) {
      DateKeyOrder(a, b);
      DateKeyOrder(b, a);
    }
  }

  /** The band and mode groups come out in the order of any total
      collation, the day groups in date order, one group per key. */
  lemma StatsOrdered(rows: seq<QsoRecord>, userId: Uuid, from: Option<LocalDate>, to: Option<LocalDate>,
                     collation: (string, string) -> bool)
    requires Total(collation)
    ensures var xs := PeriodRows(rows, userId, from, to);
      && SortedBy(DistinctKeys(xs, BandOf, collation), collation)
      && SortedBy(DistinctKeys(xs, ModeNameOf, collation), collation)
      && SortedBy(DistinctKeys(xs, DateOf, DateBefore), DateBefore)
  {
    var xs := PeriodRows(rows, userId, from, to);
    DateBeforeIsTotal();
    DistinctKeysSorted(xs, BandOf, collation);
    DistinctKeysSorted(xs, ModeNameOf, collation);
    DistinctKeysSorted(xs, DateOf, DateBefore);
  }

  // Suggestion queries

  /** `findMostRecentByCallsign`: the owner's latest row (by date, then
      time) whose callsign equals the given one ignoring case. */
  function FindMostRecentByCallsign(rows: seq<QsoRecord>, userId: Uuid, callsign: string): (r: Option<QsoRecord>)
    ensures r.None? <==> forall x | x in rows :: !Holds(SameCallsign(userId, callsign), x)
    ensures r.Some? ==>
      && r.value in rows && Holds(SameCallsign(userId, callsign), r.value)
      && forall x | x in rows && Holds(SameCallsign(userId, callsign), x) :: Chronological(x) <= Chronological(r.value)
  {
    var m := Where(rows, SameCallsign(userId, callsign));
    var sorted := SortByKey(m, NewestFirstKey);
    SortByKeySameRows(m, NewestFirstKey);
    if sorted == [] then None
    else
      assert forall x | x in m :: NewestFirstKey(sorted[0]) <= NewestFirstKey(x) by {
        forall x | x in m ensures NewestFirstKey(sorted[0]) <= NewestFirstKey(x) {
          var i :| 0 <= i < |sorted| && sorted[i] == x;
        }
      }
      assert sorted[0] in sorted;
      Some(sorted[0])
  }

  /** `getMostCommonBandForCallsign` / `getMostCommonModeForCallsign`: a
      key with the highest count among the rows for that callsign; which of
      several equally common keys is returned is left open by the query. */
  function MostCommonFor(rows: seq<QsoRecord>, userId: Uuid, callsign: string, key: QsoRecord -> string): (r: Option<string>)
    ensures var m := Where(rows, SameCallsign(userId, callsign));
      && (r.None? <==> m == [])
      && (r.Some? ==> CountKey(m, key, r.value) >= 1
                      && forall x | x in m :: CountKey(m, key, key(x)) <= CountKey(m, key, r.value))
  {
    var m := Where(rows, SameCallsign(userId, callsign));
    if m == [] then None
    else
      var ks := DistinctKeys(m, key, StringLess);
      assert key(m[0]) in ks;
      var best := MostCommonKey(ks, m, key);
      assert forall x | x in m :: key(x) in ks;
      Some(best)
  }

  function MostCommonBandForCallsign(rows: seq<QsoRecord>, userId: Uuid, callsign: string): Option<string> {
    MostCommonFor(rows, userId, callsign, BandOf)
  }

  function MostCommonModeForCallsign(rows: seq<QsoRecord>, userId: Uuid, callsign: string): Option<string> {
    MostCommonFor(rows, userId, callsign, ModeNameOf)
  }

  // Writes

  predicate UniqueIds(rows: seq<QsoRecord>) {
    forall i, j | 0 <= i < j < |rows| :: rows[i].id != rows[j].id
  }

  predicate HasId(rows: seq<QsoRecord>, id: Uuid) {
    exists i | 0 <= i < |rows| :: rows[i].id == id
  }

  /** `save`: replace the row with the same id, or append a new one. */
  function Upsert(rows: seq<QsoRecord>, r: QsoRecord): (out: seq<QsoRecord>)
    ensures r in out
    ensures forall x | x in out :: x == r || (x in rows && x.id != r.id)
    ensures forall x | x in rows && x.id != r.id :: x in out
    ensures |out| == if HasId(rows, r.id) then |rows| else |rows| + 1
  {
    if HasId(rows, r.id) then
      var out := seq(|rows|, i requires 0 <= i < |rows| => if rows[i].id == r.id then r else rows[i]);
      var k :| 0 <= k < |rows| && rows[k].id == r.id;
      assert out[k] == r;
      assert forall x | x in rows && x.id != r.id :: x in out by {
        forall x | x in rows && x.id != r.id ensures x in out {
          var i :| 0 <= i < |rows| && rows[i] == x;
          assert out[i] == x;
        }
      }
      out
    else rows + [r]
  }

  /** Saving keeps ids unique, and the saved row is what its id finds
      afterwards. */
  lemma UpsertKeepsIdsUnique(rows: seq<QsoRecord>, r: QsoRecord)
    requires UniqueIds(rows)
    ensures UniqueIds(Upsert(rows, r))
    ensures FindByIdAndUserId(Upsert(rows, r), r.id, r.userId) == Some(r)
  {
    var out := Upsert(rows, r);
    if HasId(rows, r.id) {
      assert forall i | 0 <= i < |out| :: out[i].id == rows[i].id;
    } else {
      assert forall i | 0 <= i < |rows| :: out[i] == rows[i];
    }
  }

  lemma DeleteKeepsIdsUnique(rows: seq<QsoRecord>, id: Uuid, userId: Uuid)
    requires UniqueIds(rows)
    ensures UniqueIds(Deleted(rows, id, userId))
    ensures FindByIdAndUserId(Deleted(rows, id, userId), id, userId).None?
  {
    WhereKeepsIdsUnique(rows, Not(IdAndOwner(id, userId)));
  }

  /** Filtering keeps ids unique. */
  lemma {:induction false} WhereKeepsIdsUnique(rows: seq<QsoRecord>, c: Condition)
    requires UniqueIds(rows)
    ensures UniqueIds(Where(rows, c))
  {
    if rows != [] {
      assert UniqueIds(rows[1..]) by {
        forall i, j | 0 <= i < j < |rows| - 1 ensures rows[1..][i].id != rows[1..][j].id {
          assert rows[i + 1].id != rows[j + 1].id;
        }
      }
      WhereKeepsIdsUnique(rows[1..], c);
      var rest := Where(rows[1..], c);
      forall x | x in rest ensures x.id != rows[0].id {
        var k :| 0 <= k < |rows| - 1 && rows[1..][k] == x;
        assert rows[0].id != rows[k + 1].id;
      }
    }
  }

  /** The stored rows. */
  class Store {
    var rows: seq<QsoRecord>

    predicate Valid()
      reads this
    {
      UniqueIds(rows)
    }

    constructor ()
      ensures rows == [] && Valid()
    {
      rows := [];
    }

    method Save(r: QsoRecord)
      requires Valid()
      modifies this
      ensures rows == Upsert(old(rows), r) && Valid()
    {
      UpsertKeepsIdsUnique(rows, r);
      rows := Upsert(rows, r);
    }

    method DeleteByIdAndUserId(id: Uuid, userId: Uuid)
      requires Valid()
      modifies this
      ensures rows == Deleted(old(rows), id, userId) && Valid()
    {
      DeleteKeepsIdsUnique(rows, id, userId);
      rows := Deleted(rows, id, userId);
    }
  }
}
