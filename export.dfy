/** The export service: which QSOs an export covers and in which order,
    and the ADIF and CSV documents, each a header chunk followed by one
    chunk per QSO. "Now" is a parameter. */
module Export {
  import opened Common
  import opened Text
  import opened Temporal
  import opened Ids
  import opened QsoEntity
  import opened Repository
  import opened Adif
  import opened Csv

  /** How far before and after today a missing date bound reaches. */
  const OpenBoundYears := 100

  /** `fetchQsos`: the date-range query when either bound is given, a
      missing one replaced by today ± 100 years; otherwise every QSO of the
      user, oldest first. */
  function FetchQsos(rows: seq<QsoRecord>, userId: Uuid, from: Option<LocalDate>, to: Option<LocalDate>,
                     today: LocalDate): seq<QsoRecord>
  {
    if from.Some? && to.Some? then
      FindByUserIdAndDateRange(rows, userId, from.value, to.value, IntMax, 0)
    else if from.Some? then
      FindByUserIdAndDateRange(rows, userId, from.value, PlusYears(today, OpenBoundYears), IntMax, 0)
    else if to.Some? then
      FindByUserIdAndDateRange(rows, userId, PlusYears(today, -OpenBoundYears), to.value, IntMax, 0)
    else
      FindByUserIdOldestFirst(rows, userId)
  }

  /** The dates an export with at least one bound covers. */
  function LowerBound(from: Option<LocalDate>, today: LocalDate): LocalDate {
    if from.Some? then from.value else PlusYears(today, -OpenBoundYears)
  }

  function UpperBound(to: Option<LocalDate>, today: LocalDate): LocalDate {
    if to.Some? then to.value else PlusYears(today, OpenBoundYears)
  }

  /** Whether a QSO falls in an export's date range: everything when no
      bound is given. */
  predicate InExportRange(x: QsoRecord, from: Option<LocalDate>, to: Option<LocalDate>, today: LocalDate) {
    (from.None? && to.None?)
    || (!DateBefore(x.contact.qsoDate, LowerBound(from, today))
        && !DateBefore(UpperBound(to, today), x.contact.qsoDate))
  }

  /** An export holds only the user's stored QSOs within the given bounds. */
  lemma FetchedRowsQualify(rows: seq<QsoRecord>, userId: Uuid, from: Option<LocalDate>, to: Option<LocalDate>,
                           today: LocalDate)
    ensures forall x | x in FetchQsos(rows, userId, from, to, today) ::
      && x in rows && x.userId == userId
      && InExportRange(x, from, to, today)
      && OnOrAfter(x.contact.qsoDate, from) && OnOrBefore(x.contact.qsoDate, to)
  {
    var lo, hi := LowerBound(from, today), UpperBound(to, today);
    if from.Some? || to.Some? {
      var w := Where(rows, DateRange(userId, lo, hi));
      var sorted := SortByKey(w, NewestFirstKey);
      SortByKeySameRows(w, NewestFirstKey);
      var r := Window(sorted, IntMax, 0);
      assert forall x | x in r :: x in sorted;
    } else {
      var w := Where(rows, OwnedBy(userId));
      var sorted := SortByKey(w, Chronological);
      SortByKeySameRows(w, Chronological);
      var r := Window(sorted, IntMax, 0);
      assert forall x | x in r :: x in sorted;
    }
  }

  /** As long as the store holds no more than `Integer.MAX_VALUE` rows, an
      export misses none of the user's QSOs in its range. */
  lemma FetchedRowsComplete(rows: seq<QsoRecord>, userId: Uuid, from: Option<LocalDate>, to: Option<LocalDate>,
                            today: LocalDate)
    requires |rows| <= IntMax
    ensures forall x | x in rows && x.userId == userId && InExportRange(x, from, to, today) ::
      x in FetchQsos(rows, userId, from, to, today)
  {
    var lo, hi := LowerBound(from, today), UpperBound(to, today);
    if from.Some? || to.Some? {
      var w := Where(rows, DateRange(userId, lo, hi));
      var sorted := SortByKey(w, NewestFirstKey);
      SortByKeySameRows(w, NewestFirstKey);
      WindowWhole(sorted, IntMax);
    } else {
      var w := Where(rows, OwnedBy(userId));
      var sorted := SortByKey(w, Chronological);
      SortByKeySameRows(w, Chronological);
      WindowWhole(sorted, IntMax);
    }
  }

  /** The order of an export depends on its bounds: oldest first without
      any, newest first with one or two. */
  lemma FetchOrder(rows: seq<QsoRecord>, userId: Uuid, from: Option<LocalDate>, to: Option<LocalDate>,
                   today: LocalDate)
    ensures var r := FetchQsos(rows, userId, from, to, today);
      && (from.None? && to.None? ==> SortedByKey(r, Chronological))
      && (from.Some? || to.Some? ==> SortedByKey(r, NewestFirstKey))
  {
    var lo, hi := LowerBound(from, today), UpperBound(to, today);
    if from.Some? || to.Some? {
      var w := Where(rows, DateRange(userId, lo, hi));
      WindowSorted(SortByKey(w, NewestFirstKey), NewestFirstKey, IntMax, 0);
    } else {
      var w := Where(rows, OwnedBy(userId));
      WindowSorted(SortByKey(w, Chronological), Chronological, IntMax, 0);
    }
  }

  /** A one-sided bound is the same as the other side at today ± 100 years. */
  lemma OpenBoundIsCentury(rows: seq<QsoRecord>, userId: Uuid, from: Option<LocalDate>, to: Option<LocalDate>,
                           today: LocalDate)
    requires from.Some? != to.Some?
    ensures FetchQsos(rows, userId, from, to, today)
         == FetchQsos(rows, userId, Some(LowerBound(from, today)), Some(UpperBound(to, today)), today)
  {
  }

  // The documents

  /** `formatQsoAsAdif` applied to each QSO, in order. */
  function AdifRecords(qs: seq<QsoRecord>): (out: seq<string>)
    ensures |out| == |qs|
    ensures forall i | 0 <= i < |qs| :: out[i] == AdifRecord(qs[i])
  {
    if qs == [] then [] else [AdifRecord(qs[0])] + AdifRecords(qs[1..])
  }

  /** `formatQsoAsCsv` applied to each QSO, in order. */
  function CsvLines(qs: seq<QsoRecord>, lineSeparator: string): (out: seq<string>)
    ensures |out| == |qs|
    ensures forall i | 0 <= i < |qs| :: out[i] == FormatQsoAsCsv(qs[i], lineSeparator)
  {
    if qs == [] then [] else [FormatQsoAsCsv(qs[0], lineSeparator)] + CsvLines(qs[1..], lineSeparator)
  }

  /** A document: a header chunk, then the chunks of the QSOs. */
  function Document(header: string, chunks: seq<string>): (out: seq<string>)
    ensures |out| == |chunks| + 1 && out[0] == header
    ensures forall i | 0 <= i < |chunks| :: out[i + 1] == chunks[i]
  {
    [header] + chunks
  }

  /** An ADIF document: the header, then one record per QSO. */
  function AdifDocument(qs: seq<QsoRecord>): seq<string> {
    Document(AdifHeader, AdifRecords(qs))
  }

  /** A CSV document: the header line, then one line per QSO. */
  function CsvDocument(qs: seq<QsoRecord>, lineSeparator: string): seq<string> {
    Document(CsvHeader, CsvLines(qs, lineSeparator))
  }

  /** `generateAdif`: the ADIF document of the exported QSOs. */
  function GenerateAdif(rows: seq<QsoRecord>, userId: Uuid, from: Option<LocalDate>, to: Option<LocalDate>,
                        today: LocalDate): seq<string>
  {
    AdifDocument(FetchQsos(rows, userId, from, to, today))
  }

  /** `generateCsv`: the CSV document of the exported QSOs. */
  function GenerateCsv(rows: seq<QsoRecord>, userId: Uuid, from: Option<LocalDate>, to: Option<LocalDate>,
                       today: LocalDate, lineSeparator: string): seq<string>
  {
    CsvDocument(FetchQsos(rows, userId, from, to, today), lineSeparator)
  }

  /** Each record reads back as its QSO's fields. */
  lemma AdifRecordsReadBack(qs: seq<QsoRecord>)
    ensures forall i | 0 <= i < |qs| :: ParseRecord(AdifRecords(qs)[i]) == Some(Spelled(AdifEntries(qs[i])))
  {
    forall i | 0 <= i < |qs| ensures ParseRecord(AdifRecords(qs)[i]) == Some(Spelled(AdifEntries(qs[i]))) {
      AdifRecordDecodes(qs[i]);
    }
  }

  /** A line that is a row followed by the line separator, the row reading
      back as the QSO's sixteen values. */
  predicate CsvLineOf(line: string, q: QsoRecord, lineSeparator: string) {
    && |line| >= |lineSeparator|
    && line[|line| - |lineSeparator|..] == lineSeparator
    && ParseCells(line[..|line| - |lineSeparator|]) == Some(CsvValues(q))
  }

  /** `formatQsoAsCsv` gives such a line. */
  lemma CsvLineDecodes(q: QsoRecord, lineSeparator: string)
    ensures CsvLineOf(FormatQsoAsCsv(q, lineSeparator), q, lineSeparator)
  {
    var line := FormatQsoAsCsv(q, lineSeparator);
    var row := Join(",", CsvCells(q));
    assert line == row + lineSeparator;
    assert line[..|row|] == row;
    CsvRowDecodes(q);
  }

  /** Each line reads back as its QSO. */
  lemma CsvLinesReadBack(qs: seq<QsoRecord>, lineSeparator: string)
    ensures forall i | 0 <= i < |qs| :: CsvLineOf(CsvLines(qs, lineSeparator)[i], qs[i], lineSeparator)
  {
    forall i | 0 <= i < |qs| ensures CsvLineOf(CsvLines(qs, lineSeparator)[i], qs[i], lineSeparator) {
      CsvLineDecodes(qs[i], lineSeparator);
    }
  }

  /** A document that is the ADIF header, then one record per QSO of `qs`
      that reads back as that QSO's fields. */
  predicate AdifDocumentOf(out: seq<string>, qs: seq<QsoRecord>) {
    && |out| == |qs| + 1 && out[0] == AdifHeader
    && forall i | 0 <= i < |qs| :: ParseRecord(out[i + 1]) == Some(Spelled(AdifEntries(qs[i])))
  }

  /** A document that is the CSV header line, then one line per QSO of `qs`
      that ends with the line separator and whose cells read back as that
      QSO's sixteen values. */
  predicate CsvDocumentOf(out: seq<string>, qs: seq<QsoRecord>, lineSeparator: string) {
    && |out| == |qs| + 1 && out[0] == CsvHeader
    && forall i | 0 <= i < |qs| :: CsvLineOf(out[i + 1], qs[i], lineSeparator)
  }

  /** Record `i` of an ADIF document reads back as the fields of QSO `i`. */
  lemma AdifDocumentReadsBack(qs: seq<QsoRecord>)
    ensures AdifDocumentOf(AdifDocument(qs), qs)
  {
    AdifRecordsReadBack(qs);
  }

  /** Line `i` of a CSV document ends with the line separator, and its
      cells read back as the sixteen values of QSO `i`. */
  lemma CsvDocumentReadsBack(qs: seq<QsoRecord>, lineSeparator: string)
    ensures CsvDocumentOf(CsvDocument(qs, lineSeparator), qs, lineSeparator)
  {
    CsvLinesReadBack(qs, lineSeparator);
  }
}
