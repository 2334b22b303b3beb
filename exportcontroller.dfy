/** The export endpoints: the download's file name, built from the date
    bounds, and the document body the export service produces. */
module ExportEndpoints {
  import opened Common
  import opened Text
  import opened Temporal
  import opened Ids
  import opened QsoEntity
  import opened Export
  import opened Adif
  import opened Csv

  const FilePrefix := "qsolog"
  const AdifExtension := "adi"
  const CsvExtension := "csv"

  /** Whether a date prints as exactly eight `yyyyMMdd` digits. */
  predicate FourDigitYear(d: Option<LocalDate>) {
    d.None? || 1 <= d.value.year <= 9999
  }

  /** The part of the name that records the bounds. */
  function BoundsPart(from: Option<LocalDate>, to: Option<LocalDate>): (r: string)
    ensures FourDigitYear(from) && FourDigitYear(to) ==>
      |r| == (if from.Some? && to.Some? then 18 else if from.Some? then 14 else if to.Some? then 12 else 0)
  {
    if from.Some? && to.Some? then "_" + BasicIsoDate(from.value) + "-" + BasicIsoDate(to.value)
    else if from.Some? then "_from_" + BasicIsoDate(from.value)
    else if to.Some? then "_to_" + BasicIsoDate(to.value)
    else ""
  }

  /** The file name: prefix, the bounds, then "." and the extension. */
  function FileName(prefix: string, from: Option<LocalDate>, to: Option<LocalDate>, extension: string): string {
    prefix + BoundsPart(from, to) + "." + extension
  }

  /** `generateFilename`: appends to a builder branch by branch. */
  method GenerateFilename(prefix: string, from: Option<LocalDate>, to: Option<LocalDate>, extension: string)
    returns (filename: string)
    ensures filename == FileName(prefix, from, to, extension)
  {
    var sb := new StringBuilder(prefix);
    if from.Some? && to.Some? {
      var fromText, toText := BasicIsoDate(from.value), BasicIsoDate(to.value);
      sb.Append("_");
      sb.Append(fromText);
      sb.Append("-");
      sb.Append(toText);
      AppendRegroup4(prefix, "_", fromText, "-", toText);
    } else if from.Some? {
      var fromText := BasicIsoDate(from.value);
      sb.Append("_from_");
      sb.Append(fromText);
      AppendAssoc(prefix, "_from_", fromText);
    } else if to.Some? {
      var toText := BasicIsoDate(to.value);
      sb.Append("_to_");
      sb.Append(toText);
      AppendAssoc(prefix, "_to_", toText);
    }
    sb.Append(".");
    sb.Append(extension);
    filename := sb.content;
  }

  /** A name opens with its prefix and closes with "." and the extension. */
  lemma FileNameFrame(prefix: string, from: Option<LocalDate>, to: Option<LocalDate>, extension: string)
    ensures var name := FileName(prefix, from, to, extension);
      && |name| >= |prefix| + 1 + |extension|
      && name[..|prefix|] == prefix
      && name[|name| - |extension| - 1..] == "." + extension
      && (from.None? && to.None? ==> name == prefix + "." + extension)
  {
    var middle := BoundsPart(from, to);
    assert FileName(prefix, from, to, extension) == prefix + middle + "." + extension;
    Framed(prefix, middle, extension);
    if from.None? && to.None? {
      assert middle == [];
    }
  }

  lemma Framed(prefix: string, middle: string, extension: string)
    ensures var name := prefix + middle + "." + extension;
      && |name| >= |prefix| + 1 + |extension|
      && name[..|prefix|] == prefix
      && name[|name| - |extension| - 1..] == "." + extension
      && (middle == [] ==> name == prefix + "." + extension)
  {
    var name := prefix + middle + "." + extension;
    assert name == prefix + (middle + "." + extension);
    assert name == (prefix + middle) + ("." + extension);
  }

  /** Dates whose years have four digits can be read back from the name:
      two names with the same prefix and extension are equal only when
      their bounds are. */
  lemma FileNameDeterminesBounds(prefix: string, extension: string,
                                 from1: Option<LocalDate>, to1: Option<LocalDate>,
                                 from2: Option<LocalDate>, to2: Option<LocalDate>)
    requires FourDigitYear(from1) && FourDigitYear(to1) && FourDigitYear(from2) && FourDigitYear(to2)
    ensures FileName(prefix, from1, to1, extension) == FileName(prefix, from2, to2, extension)
        <==> from1 == from2 && to1 == to2
  {
    var b1, b2 := BoundsPart(from1, to1), BoundsPart(from2, to2);
    if FileName(prefix, from1, to1, extension) == FileName(prefix, from2, to2, extension) {
      BoundsPartRecovered(prefix, extension, b1, b2);
      BoundsPartDeterminesBounds(from1, to1, from2, to2);
    }
  }

  /** The bounds part sits between the prefix and the extension. */
  lemma BoundsPartRecovered(prefix: string, extension: string, b1: string, b2: string)
    requires prefix + b1 + "." + extension == prefix + b2 + "." + extension
    ensures b1 == b2
  {
    var n1, n2 := prefix + b1 + "." + extension, prefix + b2 + "." + extension;
    assert |b1| == |b2|;
    assert n1[|prefix|..|prefix| + |b1|] == b1;
    assert n2[|prefix|..|prefix| + |b2|] == b2;
  }

  /** Distinct bounds give distinct bounds parts: the length tells which
      bounds are present, and the eight digits of each date its value. */
  lemma BoundsPartDeterminesBounds(from1: Option<LocalDate>, to1: Option<LocalDate>,
                                   from2: Option<LocalDate>, to2: Option<LocalDate>)
    requires FourDigitYear(from1) && FourDigitYear(to1) && FourDigitYear(from2) && FourDigitYear(to2)
    requires BoundsPart(from1, to1) == BoundsPart(from2, to2)
    ensures from1 == from2 && to1 == to2
  {
    if from1.Some? && to1.Some? {
      BothBoundsRecovered(from1.value, to1.value, from2, to2);
    } else if from1.Some? {
      var b := BoundsPart(from1, to1);
      assert b[6..] == BasicIsoDate(from1.value) == BasicIsoDate(from2.value);
      BasicIsoDateInjective(from1.value, from2.value);
    } else if to1.Some? {
      var b := BoundsPart(from1, to1);
      assert b[4..] == BasicIsoDate(to1.value) == BasicIsoDate(to2.value);
      BasicIsoDateInjective(to1.value, to2.value);
    }
  }

  lemma BothBoundsRecovered(from1: LocalDate, to1: LocalDate, from2: Option<LocalDate>, to2: Option<LocalDate>)
    requires 1 <= from1.year <= 9999 && 1 <= to1.year <= 9999 && FourDigitYear(from2) && FourDigitYear(to2)
    requires BoundsPart(Some(from1), Some(to1)) == BoundsPart(from2, to2)
    ensures from2 == Some(from1) && to2 == Some(to1)
  {
    assert |BoundsPart(from2, to2)| == 18;
    assert from2.Some? && to2.Some?;
    SeparatedPairsEqual(BasicIsoDate(from1), BasicIsoDate(to1), BasicIsoDate(from2.value), BasicIsoDate(to2.value));
    BasicIsoDateInjective(from1, from2.value);
    BasicIsoDateInjective(to1, to2.value);
  }

  /** Two eight-character texts joined the same way are equal piecewise. */
  lemma SeparatedPairsEqual(x1: string, y1: string, x2: string, y2: string)
    requires |x1| == |x2| == 8
    requires "_" + x1 + "-" + y1 == "_" + x2 + "-" + y2
    ensures x1 == x2 && y1 == y2
  {
    var b1, b2 := "_" + x1 + "-" + y1, "_" + x2 + "-" + y2;
    assert b1[1..9] == x1 && b2[1..9] == x2;
    assert b1[10..] == y1 && b2[10..] == y2;
  }

  /** A download: the `Content-Disposition` header and the chunks of the
      document (each sent as its UTF-8 bytes). */
  datatype Download = Download(contentDisposition: string, body: seq<string>)

  function Attachment(filename: string): string {
    "attachment; filename=\"" + filename + "\""
  }

  /** `GET /api/v1/export/adif`: a "qsolog" `.adi` attachment holding the
      ADIF document of the exported QSOs. */
  function ExportAdif(rows: seq<QsoRecord>, userId: Uuid, from: Option<LocalDate>, to: Option<LocalDate>,
                      today: LocalDate): (r: Download)
    ensures r.contentDisposition == Attachment(FileName(FilePrefix, from, to, AdifExtension))
    ensures AdifDocumentOf(r.body, FetchQsos(rows, userId, from, to, today))
  {
    var qs := FetchQsos(rows, userId, from, to, today);
    AdifDocumentReadsBack(qs);
    Download(Attachment(FileName(FilePrefix, from, to, AdifExtension)), AdifDocument(qs))
  }

  /** `GET /api/v1/export/csv`: a "qsolog" `.csv` attachment holding the CSV
      document of the exported QSOs. */
  function ExportCsv(rows: seq<QsoRecord>, userId: Uuid, from: Option<LocalDate>, to: Option<LocalDate>,
                     today: LocalDate, lineSeparator: string): (r: Download)
    ensures r.contentDisposition == Attachment(FileName(FilePrefix, from, to, CsvExtension))
    ensures CsvDocumentOf(r.body, FetchQsos(rows, userId, from, to, today), lineSeparator)
  {
    var qs := FetchQsos(rows, userId, from, to, today);
    CsvDocumentReadsBack(qs, lineSeparator);
    Download(Attachment(FileName(FilePrefix, from, to, CsvExtension)), CsvDocument(qs, lineSeparator))
  }

  /** The two endpoints name their files alike but for the extension. */
  lemma ExportNamesDifferOnlyInExtension(from: Option<LocalDate>, to: Option<LocalDate>)
    ensures FileName(FilePrefix, from, to, AdifExtension) != FileName(FilePrefix, from, to, CsvExtension)
    ensures var a, c := FileName(FilePrefix, from, to, AdifExtension), FileName(FilePrefix, from, to, CsvExtension);
      |a| == |c| && a[..|a| - 3] == c[..|c| - 3]
  {
    var a, c := FileName(FilePrefix, from, to, AdifExtension), FileName(FilePrefix, from, to, CsvExtension);
    var stem := FilePrefix + BoundsPart(from, to) + ".";
    assert a == stem + AdifExtension && c == stem + CsvExtension;
    assert a[|a| - 3..] == AdifExtension && c[|c| - 3..] == CsvExtension;
    assert AdifExtension[2] == 'i' && CsvExtension[2] == 'v';
  }
}
