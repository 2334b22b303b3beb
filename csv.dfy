/** The CSV writer of the export service: a fixed header line, then one
    line per QSO with sixteen comma-separated cells. Text fields go through
    `escapeCsv`; dates, times, the frequency and the enumeration names are
    printed as they are. A reader that splits on commas outside quotes and
    undoubles quotes inside them recovers every cell (`CsvRowDecodes`). */
module Csv {
  import opened Common
  import opened Text
  import opened Enums
  import opened Temporal
  import opened Decimal
  import opened QsoEntity

  /** The header line. */
  const CsvHeader := Join(",", CsvColumns) + "\n"

  /** The column titles, in the order the header line lists them. */
  const CsvColumns: seq<string> := [
    "Callsign", "Date", "Time", "Band", "Frequency (kHz)", "Mode", "Submode", "Custom Mode",
    "RST Sent", "RST Recv", "QTH", "Grid Square", "Notes", "QSL Status", "LoTW Status", "eQSL Status"]

  // Escaping

  /** A value that `escapeCsv` wraps in quotes: one holding a comma, a
      double quote or a line feed. */
  predicate NeedsQuoting(v: string) {
    Contains(v, ",") || Contains(v, "\"") || Contains(v, "\n")
  }

  /** `replace("\"", "\"\"")`: every double quote doubled. */
  function DoubleQuotes(v: string): (r: string)
    ensures |r| >= |v|
  {
    if v == [] then ""
    else (if v[0] == '"' then "\"\"" else [v[0]]) + DoubleQuotes(v[1..])
  }

  /** What `escapeCsv` does to a present, non-blank value. */
  function EncodeCell(v: string): string {
    if NeedsQuoting(v) then "\"" + DoubleQuotes(v) + "\"" else v
  }

  /** `escapeCsv`: nothing for a null or blank value. */
  function EscapeCsv(v: Option<string>): (r: string)
    ensures !Present(v) ==> r == ""
    ensures Present(v) ==> r == EncodeCell(v.value)
  {
    if !Present(v) then ""
    else if NeedsQuoting(v.value) then "\"" + DoubleQuotes(v.value) + "\""
    else v.value
  }

  /** The quoting test is a test for three characters. */
  lemma NeedsQuotingChars(v: string)
    ensures NeedsQuoting(v) <==> ',' in v || '"' in v || '\n' in v
  {
    ContainsChar(v, ',');
    ContainsChar(v, '"');
    ContainsChar(v, '\n');
  }

  // Reading a row back

  /** The rest of a quoted cell after its opening quote: characters up to
      a lone closing quote, a doubled quote standing for one. */
  function ParseQuoted(t: string): (r: Option<(string, string)>)
    ensures r.Some? ==> |r.value.1| < |t|
  {
    if t == [] then None
    else if t[0] == '"' then
      if |t| >= 2 && t[1] == '"' then
        match ParseQuoted(t[2..])
        case None => None
        case Some((v, rest)) => Some(("\"" + v, rest))
      else Some(("", t[1..]))
    else
      match ParseQuoted(t[1..])
      case None => None
      case Some((v, rest)) => Some(([t[0]] + v, rest))
  }

  /** One cell: quoted when it opens with a quote, otherwise everything
      up to the next comma. */
  function ParseCell(s: string): (r: Option<(string, string)>)
    ensures r.Some? ==> |r.value.1| <= |s|
  {
    if s != [] && s[0] == '"' then ParseQuoted(s[1..])
    else
      var i := FindChar(s, ',');
      Some((s[..i], s[i..]))
  }

  /** Cells separated by commas, to the end of the text. */
  function ParseCells(s: string): Option<seq<string>>
    decreases |s|
  {
    match ParseCell(s)
    case None => None
    case Some((v, rest)) =>
      if rest == [] then Some([v])
      else if rest[0] != ',' then None
      else
        match ParseCells(rest[1..])
        case None => None
        case Some(vs) => Some([v] + vs)
  }

  /** A cell is followed by the end of the row or by a comma. */
  predicate CellEnd(rest: string) {
    rest == [] || rest[0] == ','
  }

  lemma {:induction false} ParseQuotedOf(v: string, rest: string)
    requires CellEnd(rest)
    ensures ParseQuoted(DoubleQuotes(v) + "\"" + rest) == Some((v, rest))
  {
    var t := DoubleQuotes(v) + "\"" + rest;
    if v == [] {
      assert t == "\"" + rest;
      assert t[1..] == rest;
    } else {
      ParseQuotedOf(v[1..], rest);
      var tail := DoubleQuotes(v[1..]) + "\"" + rest;
      if v[0] == '"' {
        assert t == "\"\"" + tail;
        assert t[2..] == tail;
        assert "\"" + v[1..] == v;
      } else {
        assert t == [v[0]] + tail;
        assert t[1..] == tail;
        assert [v[0]] + v[1..] == v;
      }
    }
  }

  /** Any value's encoding reads back as the value, whatever follows it in
      the row. */
  lemma CellRoundTrip(v: string, rest: string)
    requires CellEnd(rest)
    ensures ParseCell(EncodeCell(v) + rest) == Some((v, rest))
  {
    NeedsQuotingChars(v);
    if NeedsQuoting(v) {
      var s := EncodeCell(v) + rest;
      assert s == "\"" + (DoubleQuotes(v) + "\"" + rest);
      assert s[1..] == DoubleQuotes(v) + "\"" + rest;
      ParseQuotedOf(v, rest);
    } else {
      var s := v + rest;
      assert v != [] ==> v[0] != '"';
      FindCharAppend(v, rest, ',');
      assert s[..|v|] == v && s[|v|..] == rest;
    }
  }

  /** The encoded cells of a row. */
  function EncodeAll(vs: seq<string>): (cs: seq<string>)
    ensures |cs| == |vs|
    ensures forall i | 0 <= i < |vs| :: cs[i] == EncodeCell(vs[i])
  {
    if vs == [] then [] else [EncodeCell(vs[0])] + EncodeAll(vs[1..])
  }

  /** A row whose every cell is the encoding of a value is the encoded row. */
  lemma EncodeAllPointwise(vs: seq<string>, cs: seq<string>)
    requires |cs| == |vs|
    requires forall i | 0 <= i < |vs| :: cs[i] == EncodeCell(vs[i])
    ensures cs == EncodeAll(vs)
  {
  }

  /** A row of encoded values, joined by commas, reads back as the values. */
  lemma {:induction false} RowRoundTrip(vs: seq<string>)
    requires |vs| >= 1
    ensures ParseCells(Join(",", EncodeAll(vs))) == Some(vs)
  {
    var cs := EncodeAll(vs);
    if |vs| == 1 {
      CellRoundTrip(vs[0], "");
      assert EncodeCell(vs[0]) + "" == EncodeCell(vs[0]);
      assert [vs[0]] == vs;
    } else {
      RowRoundTrip(vs[1..]);
      assert cs[1..] == EncodeAll(vs[1..]);
      var tail := Join(",", cs[1..]);
      CellRoundTrip(vs[0], "," + tail);
      AppendAssoc(cs[0], ",", tail);
      assert ("," + tail)[1..] == tail;
      assert [vs[0]] + vs[1..] == vs;
    }
  }

  // One QSO's row

  /** The text a nullable text field contributes: its value when present
      and not blank, nothing otherwise. */
  function CellText(v: Option<string>): string {
    if Present(v) then v.value else ""
  }

  /** The cells of the fields printed without escaping: the value's
      `toString()` or `name()`, nothing for null. */
  function FrequencyCell(f: Option<BigDecimal>): string {
    if f.Some? then ToSciString(f.value) else ""
  }

  function SubmodeCell(s: Option<AdifSubmode>): string {
    if s.Some? then s.value.Name() else ""
  }

  function QslCell(s: Option<QslStatus>): string {
    if s.Some? then s.value.Name() else ""
  }

  function LotwCell(s: Option<LotwStatus>): string {
    if s.Some? then s.value.Name() else ""
  }

  function EqslCell(s: Option<EqslStatus>): string {
    if s.Some? then s.value.Name() else ""
  }

  /** A cell of a row: a text field that goes through `escapeCsv`, or a
      value printed as it is. */
  datatype CsvCell = Escaped(value: Option<string>) | Verbatim(text: string)

  /** What `formatQsoAsCsv` prints for a cell. */
  function Printed(cell: CsvCell): string {
    match cell
    case Escaped(v) => EscapeCsv(v)
    case Verbatim(t) => t
  }

  /** The value a reader gets back for a cell. */
  function Read(cell: CsvCell): string {
    match cell
    case Escaped(v) => CellText(v)
    case Verbatim(t) => t
  }

  function PrintAll(cells: seq<CsvCell>): (ps: seq<string>)
    ensures |ps| == |cells|
    ensures forall i | 0 <= i < |cells| :: ps[i] == Printed(cells[i])
  {
    if cells == [] then [] else [Printed(cells[0])] + PrintAll(cells[1..])
  }

  function ReadAll(cells: seq<CsvCell>): (vs: seq<string>)
    ensures |vs| == |cells|
    ensures forall i | 0 <= i < |cells| :: vs[i] == Read(cells[i])
  {
    if cells == [] then [] else [Read(cells[0])] + ReadAll(cells[1..])
  }

  /** The sixteen cells of a row, in header order, from the texts of the
      fields printed as they are and the text fields that are escaped. */
  function RowOf(callsign: string, date: string, time: string, band: string,
                 frequency: string, mode: string, submode: string,
                 customMode: Option<string>, rstSent: Option<string>, rstRecv: Option<string>,
                 qth: Option<string>, gridSquare: Option<string>, notes: Option<string>,
                 qsl: string, lotw: string, eqsl: string): (cells: seq<CsvCell>)
    ensures |cells| == |CsvColumns|
  {
    [ Escaped(Some(callsign)), Verbatim(date), Verbatim(time), Escaped(Some(band)),
      Verbatim(frequency), Verbatim(mode), Verbatim(submode),
      Escaped(customMode), Escaped(rstSent), Escaped(rstRecv), Escaped(qth), Escaped(gridSquare), Escaped(notes),
      Verbatim(qsl), Verbatim(lotw), Verbatim(eqsl) ]
  }

  /** A QSO's row. */
  function CsvRow(r: QsoRecord): (cells: seq<CsvCell>)
    ensures |cells| == |CsvColumns|
  {
    var c := r.contact;
    RowOf(c.theirCallsign, IsoDate(c.qsoDate), IsoTime(c.timeOn), c.band,
      FrequencyCell(c.frequencyKhz), c.mode.Name(), SubmodeCell(c.submode),
      c.customMode, c.rstSent, c.rstRecv, c.qth, c.gridSquare, c.notes,
      QslCell(r.qslStatus), LotwCell(r.lotwStatus), EqslCell(r.eqslStatus))
  }

  /** The texts `formatQsoAsCsv` prints, one per cell. */
  function CsvCells(r: QsoRecord): seq<string> {
    PrintAll(CsvRow(r))
  }

  /** The sixteen values of a QSO's row, as a reader sees them. */
  function CsvValues(r: QsoRecord): (vs: seq<string>)
    ensures |vs| == |CsvColumns|
  {
    ReadAll(CsvRow(r))
  }

  /** `formatQsoAsCsv`: the cells joined by commas, then the platform line
      separator that `%n` prints. */
  function FormatQsoAsCsv(r: QsoRecord, lineSeparator: string): string {
    Join(",", CsvCells(r)) + lineSeparator
  }

  // Texts that need no quoting

  /** No comma, double quote or line feed. */
  predicate CsvPlain(s: string) {
    ',' !in s && '"' !in s && '\n' !in s
  }

  lemma DigitsArePlain(s: string)
    requires AllDigits(s)
    ensures CsvPlain(s)
  {
    assert forall k | 0 <= k < |s| :: IsDigit(s[k]);
  }

  /** A plain text is printed as it is. */
  lemma PlainCellUnchanged(s: string)
    requires CsvPlain(s)
    ensures EncodeCell(s) == s
  {
    NeedsQuotingChars(s);
  }

  lemma IsoDatePlain(d: LocalDate)
    ensures CsvPlain(IsoDate(d))
  {
    var absYear: nat := if d.year < 0 then -d.year else d.year;
    DigitsArePlain(ZeroPad(absYear, 4));
    DigitsArePlain(NatToString(absYear));
    DigitsArePlain(ZeroPad(d.month, 2));
    DigitsArePlain(ZeroPad(d.day, 2));
  }

  lemma IsoTimePlain(t: LocalTime)
    ensures CsvPlain(IsoTime(t))
  {
    DigitsArePlain(ZeroPad(t.hour, 2));
    DigitsArePlain(ZeroPad(t.minute, 2));
    DigitsArePlain(ZeroPad(t.second, 2));
    if t.nano != 0 {
      DigitsArePlain(ZeroPad(t.nano / 1_000_000, 3));
      DigitsArePlain(ZeroPad(t.nano / 1000, 6));
      DigitsArePlain(ZeroPad(t.nano, 9));
    }
  }

  lemma DigitSlicesPlain(ds: string, k: nat)
    requires AllDigits(ds) && k <= |ds|
    ensures CsvPlain(ds[..k]) && CsvPlain(ds[k..])
  {
    assert AllDigits(ds[..k]) by {
      forall i | 0 <= i < k ensures IsDigit(ds[..k][i]) {
        assert ds[..k][i] == ds[i];
      }
    }
    assert AllDigits(ds[k..]) by {
      forall i | 0 <= i < |ds| - k ensures IsDigit(ds[k..][i]) {
        assert ds[k..][i] == ds[k + i];
      }
    }
    DigitsArePlain(ds[..k]);
    DigitsArePlain(ds[k..]);
  }

  lemma IntToStringPlain(n: int)
    ensures CsvPlain(IntToString(n))
  {
    DigitsArePlain(NatToString(if n < 0 then -n else n));
  }

  /** `BigDecimal.toString()` prints digits, a sign, a point and `E`. */
  lemma SciStringPlain(x: BigDecimal)
    ensures CsvPlain(ToSciString(x))
  {
    var coeff := NatToString(Abs(x.unscaled));
    DigitsArePlain(coeff);
    IntToStringPlain(x.unscaled);
    IntToStringPlain(Adjusted(x));
    if x.scale > 0 {
      if |coeff| > x.scale {
        DigitSlicesPlain(coeff, |coeff| - x.scale);
      } else {
        DigitsArePlain(Zeros(x.scale - |coeff|));
      }
    }
    if |coeff| > 1 {
      DigitSlicesPlain(coeff, 1);
    }
  }

  lemma ModeNamePlain(m: AdifMode)
    ensures CsvPlain(m.Name())
  {
  }

  lemma SubmodeCellPlain(s: Option<AdifSubmode>)
    ensures CsvPlain(SubmodeCell(s))
  {
  }

  lemma StatusCellsPlain(q: Option<QslStatus>, l: Option<LotwStatus>, e: Option<EqslStatus>)
    ensures CsvPlain(QslCell(q)) && CsvPlain(LotwCell(l)) && CsvPlain(EqslCell(e))
  {
  }

  lemma FrequencyCellPlain(f: Option<BigDecimal>)
    ensures CsvPlain(FrequencyCell(f))
  {
    if f.Some? {
      SciStringPlain(f.value);
    }
  }

  /** Escaping a nullable text field is encoding the text it contributes. */
  lemma EscapeIsEncode(v: Option<string>)
    ensures EscapeCsv(v) == EncodeCell(CellText(v))
  {
    if !Present(v) {
      PlainCellUnchanged("");
    }
  }

  /** A cell printed as it is can be read back when it needs no quoting. */
  predicate Readable(cell: CsvCell) {
    cell.Verbatim? ==> CsvPlain(cell.text)
  }

  lemma PrintedEncodesRead(cell: CsvCell)
    requires Readable(cell)
    ensures Printed(cell) == EncodeCell(Read(cell))
  {
    match cell
    case Escaped(v) => EscapeIsEncode(v);
    case Verbatim(t) => PlainCellUnchanged(t);
  }

  lemma PrintAllEncodes(cells: seq<CsvCell>)
    requires forall i | 0 <= i < |cells| :: Readable(cells[i])
    ensures PrintAll(cells) == EncodeAll(ReadAll(cells))
  {
    forall i | 0 <= i < |cells| ensures PrintAll(cells)[i] == EncodeAll(ReadAll(cells))[i] {
      PrintedEncodesRead(cells[i]);
    }
  }

  /** A row whose cells printed as they are need no quoting is readable. */
  lemma RowOfReadable(callsign: string, date: string, time: string, band: string,
                      frequency: string, mode: string, submode: string,
                      customMode: Option<string>, rstSent: Option<string>, rstRecv: Option<string>,
                      qth: Option<string>, gridSquare: Option<string>, notes: Option<string>,
                      qsl: string, lotw: string, eqsl: string)
    requires CsvPlain(date) && CsvPlain(time) && CsvPlain(frequency) && CsvPlain(mode) && CsvPlain(submode)
    requires CsvPlain(qsl) && CsvPlain(lotw) && CsvPlain(eqsl)
    ensures var row := RowOf(callsign, date, time, band, frequency, mode, submode,
                             customMode, rstSent, rstRecv, qth, gridSquare, notes, qsl, lotw, eqsl);
      forall i | 0 <= i < |row| :: Readable(row[i])
  {
  }

  /** Every cell of a QSO's row printed as it is needs no quoting. */
  lemma CsvRowReadable(r: QsoRecord)
    ensures forall i | 0 <= i < |CsvRow(r)| :: Readable(CsvRow(r)[i])
  {
    var c := r.contact;
    IsoDatePlain(c.qsoDate);
    IsoTimePlain(c.timeOn);
    FrequencyCellPlain(c.frequencyKhz);
    ModeNamePlain(c.mode);
    SubmodeCellPlain(c.submode);
    StatusCellsPlain(r.qslStatus, r.lotwStatus, r.eqslStatus);
    RowOfReadable(c.theirCallsign, IsoDate(c.qsoDate), IsoTime(c.timeOn), c.band,
      FrequencyCell(c.frequencyKhz), c.mode.Name(), SubmodeCell(c.submode),
      c.customMode, c.rstSent, c.rstRecv, c.qth, c.gridSquare, c.notes,
      QslCell(r.qslStatus), LotwCell(r.lotwStatus), EqslCell(r.eqslStatus));
  }

  /** Every printed cell is the encoding of the reader's value. */
  lemma CsvCellsEncodeValues(r: QsoRecord)
    ensures CsvCells(r) == EncodeAll(CsvValues(r))
  {
    CsvRowReadable(r);
    PrintAllEncodes(CsvRow(r));
  }

  /** A QSO's row, without its line separator, reads back as its sixteen
      values: commas and quotes inside the text fields do not shift the
      columns. */
  lemma CsvRowDecodes(r: QsoRecord)
    ensures ParseCells(Join(",", CsvCells(r))) == Some(CsvValues(r))
  {
    CsvCellsEncodeValues(r);
    RowRoundTrip(CsvValues(r));
  }

  lemma ColumnPlain(i: nat)
    requires i < |CsvColumns|
    ensures CsvPlain(CsvColumns[i])
  {
    if i < 8 {
      FirstColumnsPlain(i);
    } else {
      LastColumnsPlain(i);
    }
  }

  lemma FirstColumnsPlain(i: nat)
    requires i < 8
    ensures CsvPlain(CsvColumns[i])
  {
    if i < 2 {
      assert CsvPlain(CsvColumns[i]);
    } else if i < 4 {
      assert CsvPlain(CsvColumns[i]);
    } else if i < 6 {
      assert CsvPlain(CsvColumns[i]);
    }
  }

  lemma LastColumnsPlain(i: nat)
    requires 8 <= i < |CsvColumns|
    ensures CsvPlain(CsvColumns[i])
  {
    if i < 10 {
      assert CsvPlain(CsvColumns[i]);
    } else if i < 12 {
      assert CsvPlain(CsvColumns[i]);
    } else if i < 14 {
      assert CsvPlain(CsvColumns[i]);
    }
  }

  /** The header titles need no quoting, so the header line reads back
      as the titles: one per cell of a row. */
  lemma CsvHeaderReadsBack()
    ensures ParseCells(Join(",", CsvColumns)) == Some(CsvColumns)
  {
    forall i | 0 <= i < |CsvColumns| ensures EncodeCell(CsvColumns[i]) == CsvColumns[i] {
      ColumnPlain(i);
      PlainCellUnchanged(CsvColumns[i]);
    }
    EncodeAllPointwise(CsvColumns, CsvColumns);
    RowRoundTrip(CsvColumns);
  }

  /** Quoting examples: a value with a comma and a quote is wrapped and its
      quote doubled; a plain text is left alone; a blank one is dropped. */
  lemma EscapeExamples()
    ensures EscapeCsv(Some("a,\"b")) == "\"a,\"\"b\""
    ensures EscapeCsv(Some("59")) == "59"
    ensures EscapeCsv(Some(" ")) == ""
    ensures EscapeCsv(None) == ""
  {
    NeedsQuotingChars("a,\"b");
    assert "a,\"b"[1] == ',';
    assert DoubleQuotes("a,\"b") == "a,\"\"b";
    NeedsQuotingChars("59");
    assert IsJavaWhitespace(" "[0]);
  }
}
