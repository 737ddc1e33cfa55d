/** The pure derivations of `generate_test_report` and of the download file
    name: what the report's cells contain, given an extracted record. */
module Composer {
  import opened Wrappers
  import opened PyStr
  import opened Extractor

  /** The failures of composition, in the order the source meets them:
      `Products[0]` on an empty list, `None[-3:]` on a missing invoice
      number, and `batch.group(1)` when the batch pattern did not match. */
  datatype ComposeError = MissingProduct | MissingInvoice | BatchParse

  // ---------------------------------------------------------------------------
  // Cleaned product name: re.sub(r"^\d+\.\s*", "", name)

  /** `name` starts with one or more digits followed by a dot. */
  predicate OrdinalAt(name: string, d: nat) {
    0 < d < |name| && AllDigits(name[..d]) && name[d] == '.'
  }

  predicate HasOrdinal(name: string) {
    exists d :: 0 < d < |name| && OrdinalAt(name, d)
  }

  /** The cleaned name is always a suffix of the name. */
  function StripOrdinal(name: string): (r: string)
    ensures |r| <= |name| && r == name[|name| - |r|..]
  {
    var d := DigitRun(name);
    if 0 < d < |name| && name[d] == '.' then TrimStart(name[d + 1..]) else name
  }

  /** With an ordinal marker of `d` digits, the marker and the whitespace run
      after it are removed, and nothing else: the result is what follows the
      dot with its leading whitespace trimmed. */
  lemma StripOrdinalRemovesMarker(name: string, d: nat)
    requires OrdinalAt(name, d)
    ensures StripOrdinal(name) == TrimStart(name[d + 1..])
  {
    assert name == name[..d] + name[d..];
    DigitRunOf(name[..d], name[d..]);
  }

  /** A name without an ordinal marker is left unchanged. */
  lemma StripOrdinalKeepsPlainName(name: string)
    ensures !HasOrdinal(name) ==> StripOrdinal(name) == name
  {
    var d := DigitRun(name);
    if 0 < d < |name| && name[d] == '.' {
      assert OrdinalAt(name, d);
    }
  }

  /** A name made of a marker (digits and a dot), a whitespace run and a rest
      that does not start with whitespace is cleaned to exactly that rest, even
      when the rest begins with another marker. */
  lemma StripOrdinalOfMarked(digits: string, w: string, rest: string)
    requires |digits| > 0 && AllDigits(digits) && AllSpace(w)
    requires rest == [] || !IsSpace(rest[0])
    ensures StripOrdinal(digits + "." + w + rest) == rest
  {
    var tail := w + rest;
    var name := digits + "." + w + rest;
    var d := |digits|;
    assert name == digits + ("." + tail);
    assert name[..d] == digits && name[d] == '.';
    assert name[d + 1..] == tail;
    StripOrdinalRemovesMarker(name, d);
    TrimStartAfterSpaces(w, rest);
  }

  // ---------------------------------------------------------------------------
  // Order number: "VERBAL", or the text between "Order no:" and "dtd"

  function ResolveOrderNo(orderNo: Option<string>): (r: string)
    ensures orderNo.None? || orderNo == Some("") ==> r == "VERBAL"
  {
    if orderNo.None? || orderNo.value == "" then "VERBAL"
    else
      var afterTag := Strip(Last(Split(orderNo.value, "Order no:")));
      Strip(Split(afterTag, "dtd")[0])
  }

  /** The text an order line is read from lies after its last "Order no:"
      (the whole line when it has none). */
  lemma OrderNoTail(line: string)
    ensures var tail := Last(Split(line, "Order no:"));
            !Contains(tail, "Order no:")
            && (!Contains(line, "Order no:") ==> tail == line)
            && (Contains(line, "Order no:") ==> |tail| + 9 <= |line| && line[|line| - |tail| - 9..] == "Order no:" + tail)
  {
    SplitLast(line, "Order no:");
  }

  /** A non-empty order line resolves to the trimmed text that lies, within
      its trimmed tail, before the first "dtd". */
  lemma OrderNoBeforeDtd(line: string)
    requires line != ""
    ensures var tail := Strip(Last(Split(line, "Order no:")));
            var head := Split(tail, "dtd")[0];
            ResolveOrderNo(Some(line)) == Strip(head)
            && head <= tail && !Contains(head, "dtd")
            && (Contains(tail, "dtd") ==> OccursAt(tail, "dtd", |head|))
            && (forall m :: 0 <= m < |head| ==> !OccursAt(tail, "dtd", m))
            && (!Contains(tail, "dtd") ==> head == tail)
  {
    var tail := Strip(Last(Split(line, "Order no:")));
    var head := Split(tail, "dtd")[0];
    assert ResolveOrderNo(Some(line)) == Strip(head);
    SplitFirst(tail, "dtd");
  }

  // ---------------------------------------------------------------------------
  // Batch code: re.search(r"batch no:\s*(\d+)", batch_no).group(1)

  const BatchTag := "batch no:"

  /** `\s*(\d+)` matches at the start of `u`, consuming the whitespace `w`
      and capturing the digits `c`; the greedy digit run stops only at the
      end of `u` or at a non-digit. */
  predicate GroupMatch(u: string, w: string, c: string) {
    var e := |w| + |c|;
    e <= |u| && u[..|w|] == w && u[|w|..e] == c
    && AllSpace(w) && |c| > 0 && AllDigits(c) && (e == |u| || !IsDigit(u[e]))
  }

  /** The whole pattern matches at `p` with whitespace `w` and digit group `c`. */
  predicate BatchMatch(s: string, p: nat, w: string, c: string) {
    OccursAt(s, BatchTag, p) && GroupMatch(s[p + |BatchTag|..], w, c)
  }

  /** The group `\s*(\d+)` captures at the start of `u`, if it matches there. */
  function GroupAt(u: string): Option<string> {
    var t := TrimStart(u);
    var d := DigitRun(t);
    if d == 0 then None else Some(t[..d])
  }

  /** The group the pattern captures when it is tried at position `p`. */
  function CodeAt(s: string, p: nat): Option<string>
    requires p <= |s|
  {
    if !OccursAt(s, BatchTag, p) then None else GroupAt(s[p + |BatchTag|..])
  }

  /** The leftmost match at or after `p`. */
  function SearchFrom(s: string, p: nat): (r: Option<string>)
    requires p <= |s|
    decreases |s| - p
    ensures r.Some? ==> |r.value| > 0 && AllDigits(r.value)
  {
    match CodeAt(s, p)
    case Some(c) => Some(c)
    case None => if p == |s| then None else SearchFrom(s, p + 1)
  }

  /** `re.search(r"batch no:\s*(\d+)", batchNo)` and its group 1; a group is a non-empty run of digits. */
  function BatchCode(batchNo: string): (r: Option<string>)
    ensures r.Some? ==> |r.value| > 0 && AllDigits(r.value)
  {
    SearchFrom(batchNo, 0)
  }

  lemma {:induction false} DigitIsNotSpace(c: string)
    requires |c| > 0 && AllDigits(c)
    ensures !IsSpace(c[0])
  {
  }

  /** What `GroupAt` returns is the group of a match, with the whitespace
      run `TrimStart` skipped. */
  lemma GroupAtSound(u: string) returns (w: string)
    requires GroupAt(u).Some?
    ensures GroupMatch(u, w, GroupAt(u).value)
  {
    var t := TrimStart(u);
    TrimStartSplit(u);
    w := u[..|u| - |t|];
    var d := DigitRun(t);
    assert u[|w|..] == t;
    assert u[|w|..|w| + d] == t[..d];
  }

  /** Every match is found by `GroupAt`, with the same group. */
  lemma GroupAtComplete(u: string, w: string, c: string)
    requires GroupMatch(u, w, c)
    ensures GroupAt(u) == Some(c)
  {
    var rest := u[|w| + |c|..];
    assert u == w + (c + rest) by {
      assert u == u[..|w|] + u[|w|..|w| + |c|] + rest;
    }
    DigitIsNotSpace(c);
    TrimStartAfterSpaces(w, c + rest);
    DigitRunOf(c, rest);
    assert (c + rest)[..|c|] == c;
  }

  /** What trying the pattern at `p` returns is the group of a match there. */
  lemma CodeAtSound(s: string, p: nat) returns (w: string)
    requires p <= |s| && CodeAt(s, p).Some?
    ensures BatchMatch(s, p, w, CodeAt(s, p).value)
  {
    w := GroupAtSound(s[p + |BatchTag|..]);
  }

  /** A match at `p` is found by trying the pattern at `p`. */
  lemma CodeAtComplete(s: string, p: nat, w: string, c: string)
    requires p <= |s| && BatchMatch(s, p, w, c)
    ensures CodeAt(s, p) == Some(c)
  {
    GroupAtComplete(s[p + |BatchTag|..], w, c);
  }

  /** No match at `k` when trying the pattern there fails. */
  lemma NoMatchAt(s: string, k: nat)
    requires k <= |s| && CodeAt(s, k).None?
    ensures forall w, c :: !BatchMatch(s, k, w, c)
  {
    forall w, c ensures !BatchMatch(s, k, w, c) {
      if BatchMatch(s, k, w, c) {
        CodeAtComplete(s, k, w, c);
      }
    }
  }

  /** `re.search` gives the group of the leftmost match; the lemma returns
      where that match starts and the whitespace it skips. */
  lemma {:induction false} SearchFromFound(s: string, k: nat) returns (p: nat, w: string)
    requires k <= |s| && SearchFrom(s, k).Some?
    decreases |s| - k
    ensures k <= p <= |s| && BatchMatch(s, p, w, SearchFrom(s, k).value)
    ensures forall q, w', c' :: k <= q < p ==> !BatchMatch(s, q, w', c')
  {
    if CodeAt(s, k).Some? {
      p := k;
      w := CodeAtSound(s, k);
    } else {
      NoMatchAt(s, k);
      p, w := SearchFromFound(s, k + 1);
      forall q, w', c' | k <= q < p ensures !BatchMatch(s, q, w', c') {
        if q > k {
          assert k + 1 <= q < p;
        }
      }
    }
  }

  /** `re.search` gives nothing when no position matches. */
  lemma {:induction false} SearchFromNone(s: string, k: nat)
    requires k <= |s|
    decreases |s| - k
    ensures SearchFrom(s, k).None? ==> forall p, w, c :: k <= p ==> !BatchMatch(s, p, w, c)
  {
    if CodeAt(s, k).None? {
      NoMatchAt(s, k);
      if k < |s| {
        SearchFromNone(s, k + 1);
      } else {
        forall p, w, c | k < p ensures !BatchMatch(s, p, w, c) {
          assert !(p + |BatchTag| <= |s|);
        }
      }
    }
  }

  /** The batch code is absent exactly when the pattern matches nowhere. */
  lemma BatchCodeSpec(batchNo: string)
    ensures BatchCode(batchNo).None? <==> forall p, w, c :: !BatchMatch(batchNo, p, w, c)
  {
    SearchFromNone(batchNo, 0);
    if BatchCode(batchNo).Some? {
      var p, w := SearchFromFound(batchNo, 0);
    }
  }

  /** A batch code is the group of the leftmost match; the lemma returns
      where that match starts and the whitespace it skips. */
  lemma BatchCodeLeftmost(batchNo: string) returns (p: nat, w: string)
    requires BatchCode(batchNo).Some?
    ensures BatchMatch(batchNo, p, w, BatchCode(batchNo).value)
    ensures forall q, w', c' :: 0 <= q < p ==> !BatchMatch(batchNo, q, w', c')
  {
    p, w := SearchFromFound(batchNo, 0);
  }

  // ---------------------------------------------------------------------------
  // The report's cells

  /** How an f-string renders an optional field (`None` prints as "None"). */
  function Show(field: Option<string>): string {
    match field
    case None => "None"
    case Some(v) => v
  }

  /** The value cells of the consignee table and the varying cells of the
      results table (the whole table is `ResultsTable(batchCode, copper, ph)`).
      Copper and pH are the already-formatted random values. */
  datatype Report = Report(
    consignee: Option<string>,
    item: string,
    orderNo: string,
    invoiceCell: string,
    quantity: string,
    bags: string,
    certificate: string,
    manufacturingDate: string,
    batchCode: string,
    copper: string,
    ph: string)

  /** The cells `generate_test_report` fills in (source lines 73-121), failing
      as Python does at the first missing piece. */
  function Compose(rec: Extracted, copper: string, ph: string): (r: Result<Report, ComposeError>)
    ensures r.Ok? ==> |rec.products| > 0 && rec.invoiceNo.Some?
                      && BatchCode(rec.products[0].batchNo).Some?
  {
    if |rec.products| == 0 then Err(MissingProduct)
    else
      var product := rec.products[0];
      var batch := BatchCode(product.batchNo);
      var item := StripOrdinal(product.name);
      var orderNo := ResolveOrderNo(rec.orderNo);
      if rec.invoiceNo.None? then Err(MissingInvoice)
      else
        var invoice := rec.invoiceNo.value;
        if batch.None? then Err(BatchParse)
        else
          Ok(Report(
            consignee := rec.companyName,
            item := item,
            orderNo := orderNo,
            invoiceCell := invoice + " " + Show(rec.orderDate),
            quantity := product.quantity,
            bags := product.bags,
            certificate := TakeLast(invoice, 3) + " dated " + Show(rec.orderDate),
            manufacturingDate := TakeLast(product.batchNo, 10),
            batchCode := batch.value,
            copper := copper,
            ph := ph))
  }

  /** When composition fails, and with which error. */
  lemma ComposeErrors(rec: Extracted, copper: string, ph: string)
    ensures Compose(rec, copper, ph) == Err(MissingProduct) <==> |rec.products| == 0
    ensures Compose(rec, copper, ph) == Err(MissingInvoice) <==> |rec.products| > 0 && rec.invoiceNo.None?
    ensures Compose(rec, copper, ph) == Err(BatchParse) <==>
              |rec.products| > 0 && rec.invoiceNo.Some? && BatchCode(rec.products[0].batchNo).None?
  {
  }

  /** The derived cells of a composed report and what they are made of. */
  lemma ComposedCells(rec: Extracted, copper: string, ph: string)
    requires Compose(rec, copper, ph).Ok?
    ensures var r, p, inv := Compose(rec, copper, ph).value, rec.products[0], rec.invoiceNo.value;
            var suffix := TakeLast(inv, 3);
            |suffix| == (if |inv| < 3 then |inv| else 3) && inv[|inv| - |suffix|..] == suffix
            && r.consignee == rec.companyName
            && r.invoiceCell == inv + " " + Show(rec.orderDate)
            && r.certificate == suffix + " dated " + Show(rec.orderDate)
            && |r.manufacturingDate| == (if |p.batchNo| < 10 then |p.batchNo| else 10)
            && p.batchNo[|p.batchNo| - |r.manufacturingDate|..] == r.manufacturingDate
            && r.item == StripOrdinal(p.name)
            && r.quantity == p.quantity && r.bags == p.bags
            && r.orderNo == ResolveOrderNo(rec.orderNo)
            && (rec.orderNo.None? || rec.orderNo == Some("") ==> r.orderNo == "VERBAL")
  {
    var r, p, inv := Compose(rec, copper, ph).value, rec.products[0], rec.invoiceNo.value;
    assert r.certificate == TakeLast(inv, 3) + " dated " + Show(rec.orderDate);
    assert r.manufacturingDate == TakeLast(p.batchNo, 10);
    assert r.orderNo == ResolveOrderNo(rec.orderNo);
    assert r.consignee == rec.companyName;
    assert r.invoiceCell == inv + " " + Show(rec.orderDate);
  }

  /** The results table of a composed report has its eight rows, with the
      batch code in the header's result cell and the two random results in
      the copper and pH rows; by `ResultsTableFixed` every other cell is fixed. */
  lemma ComposedResults(rec: Extracted, copper: string, ph: string)
    requires Compose(rec, copper, ph).Ok?
    ensures var r := Compose(rec, copper, ph).value;
            var t := ResultsTable(r.batchCode, r.copper, r.ph);
            Some(r.batchCode) == BatchCode(rec.products[0].batchNo)
            && |t| == 8
            && t[0].2 == "Test Result\nBatch No:" + r.batchCode
            && t[3].2 == copper + "%" && t[4].2 == ph
  {
    var r := Compose(rec, copper, ph).value;
    assert Some(r.batchCode) == BatchCode(rec.products[0].batchNo);
    assert r.copper == copper && r.ph == ph;
    ResultsTableCells(r.batchCode, copper, ph);
  }

  /** Where the three varying inputs land in the results table. */
  lemma ResultsTableCells(batchCode: string, copper: string, ph: string)
    ensures var t := ResultsTable(batchCode, copper, ph);
            |t| == 8 && t[0].2 == "Test Result\nBatch No:" + batchCode
            && t[3].2 == copper + "%" && t[4].2 == ph
  {
  }

  /** The batch cell of a composed report is the digit group of the leftmost
      match of the batch pattern in the product's batch line. */
  lemma ComposedBatchCode(rec: Extracted, copper: string, ph: string) returns (pos: nat, w: string)
    requires Compose(rec, copper, ph).Ok?
    ensures var r, b := Compose(rec, copper, ph).value, rec.products[0].batchNo;
            Some(r.batchCode) == BatchCode(b) && |r.batchCode| > 0 && AllDigits(r.batchCode)
            && BatchMatch(b, pos, w, r.batchCode)
            && forall q, w', c' :: 0 <= q < pos ==> !BatchMatch(b, q, w', c')
  {
    var b := rec.products[0].batchNo;
    var r := Compose(rec, copper, ph).value;
    assert Some(r.batchCode) == BatchCode(b);
    pos, w := BatchCodeLeftmost(b);
  }

  /** The results table (source lines 112-121): a header naming the batch
      code and seven parameter rows. */
  function ResultsTable(batchCode: string, copper: string, ph: string): seq<(string, string, string)> {
    [ ("Sl No.", "Parameters", "Test Result\nBatch No:" + batchCode),
      ("1", "Appearance", "Bluish White Fine Crystals free from\nforeign material with\nslight yellowish additives"),
      ("2", "Copper Sulphate", "98%"),
      ("3", "Copper as Cu", copper + "%"),
      ("4", "pH of 10% solution", ph),
      ("5", "Solubility of 10% Solution", "Clear blue solution"),
      ("6", "Additives", "2%"),
      ("7", "Iron", "< 0.075%") ]
  }

  /** Only the header's result cell and the copper and pH results depend on
      the inputs; every label and every other cell is fixed. */
  lemma ResultsTableFixed(b1: string, c1: string, p1: string, b2: string, c2: string, p2: string)
    ensures var t1, t2 := ResultsTable(b1, c1, p1), ResultsTable(b2, c2, p2);
            |t1| == |t2| == 8
            && (forall k :: 0 <= k < 8 ==> t1[k].0 == t2[k].0 && t1[k].1 == t2[k].1)
            && (forall k :: 0 <= k < 8 && k != 0 && k != 3 && k != 4 ==> t1[k] == t2[k])
            && (t1 == t2 <==> b1 == b2 && c1 == c2 && p1 == p2)
  {
    var t1, t2 := ResultsTable(b1, c1, p1), ResultsTable(b2, c2, p2);
    if t1 == t2 {
      var h := "Test Result\nBatch No:";
      assert h + b1 == t1[0].2 == t2[0].2 == h + b2;
      assert b1 == (h + b1)[|h|..];
      assert c1 + "%" == c2 + "%";
      assert c1 == (c1 + "%")[..|c1|];
    }
  }

  // ---------------------------------------------------------------------------
  // File names (source lines 162-171)

  /** The name offered for download. */
  function DownloadName(item: string, invoice: string): string {
    "Test_Report" + item + TakeLast(invoice, 3) + ".pdf"
  }

  /** The name of the file written locally before it is offered. */
  function LocalName(item: string, invoice: string): string {
    "test_report" + item + TakeLast(invoice, 3) + ".pdf"
  }

  /** The download name of the record's report; it needs a product and an invoice number. */
  function ReportFileName(rec: Extracted): (r: Result<string, ComposeError>)
    ensures r.Ok? <==> |rec.products| > 0 && rec.invoiceNo.Some?
    ensures r.Err? ==> r.error == (if |rec.products| == 0 then MissingProduct else MissingInvoice)
  {
    if |rec.products| == 0 then Err(MissingProduct)
    else if rec.invoiceNo.None? then Err(MissingInvoice)
    else Ok(DownloadName(StripOrdinal(rec.products[0].name), rec.invoiceNo.value))
  }

  /** A download name is "Test_Report", the cleaned item, the invoice number's
      last three characters, and ".pdf", in that order. */
  lemma DownloadNameLayout(item: string, invoice: string)
    ensures var d, s := DownloadName(item, invoice), TakeLast(invoice, 3);
            |d| == 15 + |item| + |s|
            && d[..11] == "Test_Report" && d[11..11 + |item|] == item
            && d[11 + |item|..|d| - 4] == s && d[|d| - 4..] == ".pdf"
  {
    var s := TakeLast(invoice, 3);
    var m := item + s + ".pdf";
    var d := DownloadName(item, invoice);
    assert d == "Test_Report" + m;
    assert d[11..] == m;
    assert d[11..][..|item|] == item;
    assert d[11..][|item|..|m| - 4] == s;
  }

  /** The local file name differs from the download name only in the case of
      the two letters that start "test" and "report". */
  lemma LocalNameDiffersInCase(item: string, invoice: string)
    ensures var d, l := DownloadName(item, invoice), LocalName(item, invoice);
            |d| == |l| && d != l && d[0] == 'T' && l[0] == 't' && d[5] == 'R' && l[5] == 'r'
            && (forall k :: 0 <= k < |d| && k != 0 && k != 5 ==> d[k] == l[k])
  {
    var m := item + TakeLast(invoice, 3) + ".pdf";
    assert DownloadName(item, invoice) == "Test_Report" + m;
    assert LocalName(item, invoice) == "test_report" + m;
    PrefixesDifferInCase(m);
  }

  /** The two prefixes differ only at positions 0 and 5, whatever follows them. */
  lemma PrefixesDifferInCase(m: string)
    ensures var d, l := "Test_Report" + m, "test_report" + m;
            |d| == |l| && d != l && d[0] == 'T' && l[0] == 't' && d[5] == 'R' && l[5] == 'r'
            && (forall k :: 0 <= k < |d| && k != 0 && k != 5 ==> d[k] == l[k])
  {
    var d, l := "Test_Report" + m, "test_report" + m;
    assert d[0] == 'T' && l[0] == 't' && d[5] == 'R' && l[5] == 'r';
    forall k | 0 <= k < |d| && k != 0 && k != 5
      ensures d[k] == l[k]
    {
      if k >= 11 {
        assert d[k] == m[k - 11] == l[k];
      }
    }
  }

  /** Whenever a report can be composed, its download name exists, built from
      the report's own item cell. */
  lemma ComposedReportHasName(rec: Extracted, copper: string, ph: string)
    requires Compose(rec, copper, ph).Ok?
    ensures ReportFileName(rec) == Ok(DownloadName(Compose(rec, copper, ph).value.item, rec.invoiceNo.value))
  {
  }
}
