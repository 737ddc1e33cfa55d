/** The page's flow once a PDF has been uploaded and the button pressed:
    normalise the decoded page texts, extract the record, work out the local
    and download file names, and compose the report's cells. */
module App {
  import opened Wrappers
  import opened PyStr
  import opened Normalise
  import opened Extractor
  import opened Composer

  datatype AppError = Extraction(cause: ExtractError) | Composition(reason: ComposeError)

  /** What one press of the button produces. */
  datatype Output = Output(record: Extracted, report: Report, localName: string, downloadName: string)

  /** The flow as a function of the decoded pages and the two random results;
      this is its definition, and `GenerateReport` is the same flow written as
      the page's sequence of steps. The file names are worked out before the
      report is generated, so their failures come first. */
  function Run(pages: seq<string>, copper: string, ph: string): Result<Output, AppError> {
    match Scan(Lines(pages))
    case Err(e) => Err(Extraction(e))
    case Ok(rec) =>
      match ReportFileName(rec)
      case Err(e) => Err(Composition(e))
      case Ok(download) =>
        var local := LocalName(StripOrdinal(rec.products[0].name), rec.invoiceNo.value);
        match Compose(rec, copper, ph)
        case Err(e) => Err(Composition(e))
        case Ok(report) => Ok(Output(rec, report, local, download))
  }

  /** Upload and button press (source lines 154-171), step by step with an
      early return at each failure; it mirrors `Run` and is proved equal to it. */
  method GenerateReport(pages: seq<string>, copper: string, ph: string) returns (r: Result<Output, AppError>)
    ensures r == Run(pages, copper, ph)
  {
    var lines := Lines(pages);
    var extracted := Extract(lines);
    if extracted.Err? {
      return Err(Extraction(extracted.error));
    }
    var rec := extracted.value;
    if |rec.products| == 0 {
      return Err(Composition(MissingProduct));
    }
    var item := StripOrdinal(rec.products[0].name);
    if rec.invoiceNo.None? {
      return Err(Composition(MissingInvoice));
    }
    var local := LocalName(item, rec.invoiceNo.value);
    var composed := Compose(rec, copper, ph);
    if composed.Err? {
      return Err(Composition(composed.error));
    }
    var download := DownloadName(item, rec.invoiceNo.value);
    r := Ok(Output(rec, composed.value, local, download));
  }

  /** The flow fails at extraction exactly when the scan does, and otherwise
      with exactly the error composition reports. */
  lemma RunErrors(pages: seq<string>, copper: string, ph: string)
    ensures Run(pages, copper, ph).Err? && Run(pages, copper, ph).error.Extraction? <==> Scan(Lines(pages)).Err?
    ensures Scan(Lines(pages)).Ok? ==>
              (Run(pages, copper, ph).Ok? <==> Compose(Scan(Lines(pages)).value, copper, ph).Ok?)
    ensures Scan(Lines(pages)).Ok? && Compose(Scan(Lines(pages)).value, copper, ph).Err? ==>
              Run(pages, copper, ph) == Err(Composition(Compose(Scan(Lines(pages)).value, copper, ph).error))
  {
    if Scan(Lines(pages)).Ok? {
      var rec := Scan(Lines(pages)).value;
      ComposeErrors(rec, copper, ph);
    }
  }

  /** A successful press yields the extracted record, the report composed from
      it, a download name built from the report's item cell, and a local
      name that differs from it only in letter case at two positions. */
  lemma RunOutput(pages: seq<string>, copper: string, ph: string)
    requires Run(pages, copper, ph).Ok?
    ensures var o := Run(pages, copper, ph).value;
            Scan(Lines(pages)) == Ok(o.record)
            && Compose(o.record, copper, ph) == Ok(o.report)
            && o.downloadName == DownloadName(o.report.item, o.record.invoiceNo.value)
            && o.localName == LocalName(o.report.item, o.record.invoiceNo.value)
            && |o.localName| == |o.downloadName| && o.localName != o.downloadName
            && o.downloadName[0] == 'T' && o.localName[0] == 't'
            && o.downloadName[5] == 'R' && o.localName[5] == 'r'
            && forall k :: 0 <= k < |o.localName| && k != 0 && k != 5 ==> o.localName[k] == o.downloadName[k]
  {
    RunParts(pages, copper, ph);
    var o := Run(pages, copper, ph).value;
    ComposedReportHasName(o.record, copper, ph);
    LocalNameDiffersInCase(StripOrdinal(o.record.products[0].name), o.record.invoiceNo.value);
  }

  /** Exactly one product reaches the report, and every line it reads is a
      non-empty, stripped line of the decoded text. */
  lemma RunReadsCleanLines(pages: seq<string>, copper: string, ph: string)
    requires Run(pages, copper, ph).Ok?
    ensures var o := Run(pages, copper, ph).value;
            |o.record.products| == 1
            && o.record.products[0].name in Lines(pages)
            && o.report.quantity in Lines(pages) && o.report.bags in Lines(pages)
            && IsStripped(o.report.quantity) && o.report.quantity != []
            && IsStripped(o.report.bags) && o.report.bags != []
  {
    var lines := Lines(pages);
    RunParts(pages, copper, ph);
    var o := Run(pages, copper, ph).value;
    ProductFromLines(lines);
    ComposedCells(o.record, copper, ph);
  }

  /** A successful press carries the scanned record and the report composed from it. */
  lemma RunParts(pages: seq<string>, copper: string, ph: string)
    requires Run(pages, copper, ph).Ok?
    ensures var o := Run(pages, copper, ph).value;
            Scan(Lines(pages)) == Ok(o.record) && Compose(o.record, copper, ph) == Ok(o.report)
            && |o.record.products| > 0
  {
    var rec := Scan(Lines(pages)).value;
    assert ReportFileName(rec).Ok?;
    assert Run(pages, copper, ph).value.record == rec;
  }
}
