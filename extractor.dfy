/** The anchor-based field extractor of `extract_pdf_data`: one pass over the
    normalised lines, five anchor tests per line, fixed-offset lookups, and a
    stop as soon as one product has been recorded. */
module Extractor {
  import opened Wrappers
  import opened PyStr

  /** One line item: the anchor line and the lines 2, 5 and 6 after it. */
  datatype Product = Product(name: string, quantity: string, batchNo: string, bags: string)

  /** The `extracted_data` dictionary. */
  datatype Extracted = Extracted(
    companyName: Option<string>,
    orderDate: Option<string>,
    invoiceNo: Option<string>,
    orderNo: Option<string>,
    products: seq<Product>)

  /** `IndexError` from `lines[k]`, carrying the first index that was out of range. */
  datatype ExtractError = OutOfRange(index: nat)

  const Empty := Extracted(None, None, None, None, [])

  /** `counter`: the number of products after which the scan stops. */
  const ProductLimit := 1

  /** The five anchor tests, in the order the scan applies them. */
  datatype Anchor = ShippedTo | InvoiceNo | OrderNo | Dated | ProductLine

  predicate Matches(a: Anchor, line: string) {
    match a
    case ShippedTo => Contains(line, "Shipped to :") || Contains(line, "Shipped to  :")
    case InvoiceNo => Contains(line, "Invoice No.")
    case OrderNo => Contains(line, "Order no:")
    case Dated => Contains(line, "Dated")
    case ProductLine => StartsWith(line, "1.") || StartsWith(line, "2.") || StartsWith(line, "3.")
  }

  predicate MatchesAny(line: string) {
    Matches(ShippedTo, line) || Matches(InvoiceNo, line) || Matches(OrderNo, line)
    || Matches(Dated, line) || Matches(ProductLine, line)
  }

  /** The anchors whose field is read from the following line. */
  predicate ReadsNext(line: string) {
    Matches(ShippedTo, line) || Matches(InvoiceNo, line) || Matches(Dated, line)
  }

  /** `lines[k]`, which raises `IndexError` past the end. */
  function Lookup(lines: seq<string>, k: nat): (r: Result<string, ExtractError>)
    ensures r.Ok? <==> k < |lines|
    ensures r.Ok? ==> r.value == lines[k]
    ensures r.Err? ==> r.error == OutOfRange(k)
  {
    if k < |lines| then Ok(lines[k]) else Err(OutOfRange(k))
  }

  /** `s.split(":")[-1].strip()`: the text after the last colon, trimmed. */
  function AfterLastColon(s: string): string {
    Strip(Last(Split(s, ":")))
  }

  lemma AfterLastColonSpec(s: string)
    ensures var t := Last(Split(s, ":"));
            AfterLastColon(s) == Strip(t) && !Contains(t, ":")
            && (!Contains(s, ":") ==> t == s)
            && (Contains(s, ":") ==> |t| < |s| && s[|s| - |t| - 1..] == ":" + t)
  {
    SplitLast(s, ":");
  }

  // ---------------------------------------------------------------------------
  // The scan as a specification function

  /** The four field anchors of the loop body applied to line `i`, in order,
      each lookup failing as Python's indexing does. */
  function ReadFields(lines: seq<string>, i: nat, rec: Extracted): Result<Extracted, ExtractError>
    requires i < |lines|
  {
    var line := lines[i];
    var r1 :- if Matches(ShippedTo, line) then
                var v :- Lookup(lines, i + 1); Ok(rec.(companyName := Some(v)))
              else Ok(rec);
    var r2 :- if Matches(InvoiceNo, line) then
                var v :- Lookup(lines, i + 1); Ok(r1.(invoiceNo := Some(AfterLastColon(v))))
              else Ok(r1);
    var r3 := if Matches(OrderNo, line) then r2.(orderNo := Some(line)) else r2;
    if Matches(Dated, line) then
      var v :- Lookup(lines, i + 1); Ok(r3.(orderDate := Some(AfterLastColon(v))))
    else Ok(r3)
  }

  /** The product anchor of the loop body applied to line `i`. */
  function ReadProduct(lines: seq<string>, i: nat, rec: Extracted): Result<Extracted, ExtractError>
    requires i < |lines|
  {
    var line := lines[i];
    if Matches(ProductLine, line) then
      var quantity :- Lookup(lines, i + 2);
      var batch :- Lookup(lines, i + 5);
      var bags :- Lookup(lines, i + 6);
      Ok(rec.(products := rec.products + [Product(line, quantity, batch, bags)]))
    else Ok(rec)
  }

  /** Everything the loop body does to line `i` before the stop test. */
  function ApplyAnchors(lines: seq<string>, i: nat, rec: Extracted): Result<Extracted, ExtractError>
    requires i < |lines|
  {
    var r :- ReadFields(lines, i, rec);
    ReadProduct(lines, i, r)
  }

  /** The scan from index `i` with the record built so far. */
  function ScanFrom(lines: seq<string>, i: nat, rec: Extracted): Result<Extracted, ExtractError>
    requires i <= |lines|
    decreases |lines| - i
  {
    if i == |lines| then Ok(rec)
    else
      match ApplyAnchors(lines, i, rec)
      case Err(e) => Err(e)
      case Ok(next) => if |next.products| >= ProductLimit then Ok(next) else ScanFrom(lines, i + 1, next)
  }

  function Scan(lines: seq<string>): Result<Extracted, ExtractError> {
    ScanFrom(lines, 0, Empty)
  }

  // ---------------------------------------------------------------------------
  // The scan as the source writes it

  /** `extract_pdf_data` after the lines have been produced (lines 25-45). */
  method Extract(lines: seq<string>) returns (r: Result<Extracted, ExtractError>)
    ensures r == Scan(lines)
  {
    var extracted := Empty;
    var productCount := 0;
    for i := 0 to |lines|
      invariant productCount == |extracted.products| == 0
      invariant ScanFrom(lines, i, extracted) == Scan(lines)
    {
      ghost var before := extracted;
      var line := lines[i];
      if Matches(ShippedTo, line) {
        var company :- Lookup(lines, i + 1);
        extracted := extracted.(companyName := Some(company));
      }
      if Matches(InvoiceNo, line) {
        var next :- Lookup(lines, i + 1);
        extracted := extracted.(invoiceNo := Some(AfterLastColon(next)));
      }
      if Matches(OrderNo, line) {
        extracted := extracted.(orderNo := Some(lines[i]));
      }
      if Matches(Dated, line) {
        var next :- Lookup(lines, i + 1);
        extracted := extracted.(orderDate := Some(AfterLastColon(next)));
      }
      if Matches(ProductLine, line) {
        var quantity :- Lookup(lines, i + 2);
        var batch :- Lookup(lines, i + 5);
        var bags :- Lookup(lines, i + 6);
        extracted := extracted.(products := extracted.products + [Product(line, quantity, batch, bags)]);
        productCount := productCount + 1;
      }
      assert ApplyAnchors(lines, i, before) == Ok(extracted);
      if productCount >= ProductLimit {
        break;
      }
    }
    r := Ok(extracted);
  }

  // ---------------------------------------------------------------------------
  // A reference definition of what the scan computes

  /** The last index before `end` whose line matches `a`. */
  function LastMatch(lines: seq<string>, a: Anchor, end: nat): (r: Option<nat>)
    requires end <= |lines|
    ensures r.Some? ==> r.value < end && Matches(a, lines[r.value])
                        && forall m :: r.value < m < end ==> !Matches(a, lines[m])
    ensures r.None? <==> forall m :: 0 <= m < end ==> !Matches(a, lines[m])
  {
    if end == 0 then None
    else if Matches(a, lines[end - 1]) then Some(end - 1)
    else LastMatch(lines, a, end - 1)
  }

  /** The first index at or after `k` whose line matches `a`. */
  function FirstMatchFrom(lines: seq<string>, a: Anchor, k: nat): (r: Option<nat>)
    decreases |lines| - k
    ensures r.Some? ==> k <= r.value < |lines| && Matches(a, lines[r.value])
                        && forall m :: k <= m < r.value ==> !Matches(a, lines[m])
    ensures r.None? <==> forall m :: k <= m < |lines| ==> !Matches(a, lines[m])
  {
    if k >= |lines| then None
    else if Matches(a, lines[k]) then Some(k)
    else FirstMatchFrom(lines, a, k + 1)
  }

  /** The first line that starts a product, if any. */
  function FirstProduct(lines: seq<string>): Option<nat> {
    FirstMatchFrom(lines, ProductLine, 0)
  }

  /** Lines `0 .. end-1` can all be processed without a "next line" lookup
      running off the end. */
  predicate Readable(lines: seq<string>, end: nat) {
    end <= |lines| && (end == |lines| && end > 0 ==> !ReadsNext(lines[end - 1]))
  }

  /** The anchors whose field is read from the line after the anchor. */
  predicate NeedsNext(a: Anchor) {
    a == ShippedTo || a == InvoiceNo || a == Dated
  }

  /** The value an anchor on line `j` writes into its field. */
  function Value(lines: seq<string>, a: Anchor, j: nat): string
    requires j < |lines| && (NeedsNext(a) ==> j + 1 < |lines|)
  {
    match a
    case ShippedTo => lines[j + 1]
    case InvoiceNo => AfterLastColon(lines[j + 1])
    case Dated => AfterLastColon(lines[j + 1])
    case OrderNo => lines[j]
    case ProductLine => lines[j]
  }

  /** A field as it stands after lines `0 .. end-1`: read from the last line
      before `end` that carries its anchor. */
  function Pick(lines: seq<string>, a: Anchor, end: nat): Option<string>
    requires Readable(lines, end)
  {
    match LastMatch(lines, a, end)
    case None => None
    case Some(j) => Some(Value(lines, a, j))
  }

  /** The four optional fields as they stand after lines `0 .. end-1`. */
  function Fields(lines: seq<string>, end: nat): Extracted
    requires Readable(lines, end)
  {
    Extracted(
      companyName := Pick(lines, ShippedTo, end),
      orderDate := Pick(lines, Dated, end),
      invoiceNo := Pick(lines, InvoiceNo, end),
      orderNo := Pick(lines, OrderNo, end),
      products := [])
  }

  /** What the scan returns, stated without the loop: the fields come from
      the lines up to and including the first product line; the extraction
      fails when that product line, or (with no product) the last line, needs
      a line the sequence does not have. */
  function Reference(lines: seq<string>): Result<Extracted, ExtractError> {
    var n := |lines|;
    match FirstProduct(lines)
    case Some(p) =>
      if p + 6 < n then
        Ok(Fields(lines, p + 1).(products := [Product(lines[p], lines[p + 2], lines[p + 5], lines[p + 6])]))
      else
        Err(OutOfRange(if ReadsNext(lines[p]) && p + 1 == n then p + 1
                       else if p + 2 >= n then p + 2
                       else if p + 5 >= n then p + 5
                       else p + 6))
    case None =>
      if n > 0 && ReadsNext(lines[n - 1]) then Err(OutOfRange(n)) else Ok(Fields(lines, n))
  }

  lemma PickStep(lines: seq<string>, a: Anchor, i: nat)
    requires Readable(lines, i + 1)
    ensures Pick(lines, a, i + 1) == if Matches(a, lines[i]) then Some(Value(lines, a, i)) else Pick(lines, a, i)
  {
  }

  /** The field anchors of line `i` take the reference record one line further,
      or fail exactly when a "next line" lookup runs off the end. */
  lemma ReadFieldsStep(lines: seq<string>, i: nat)
    requires i < |lines|
    ensures ReadFields(lines, i, Fields(lines, i)) ==
              if ReadsNext(lines[i]) && i + 1 == |lines| then Err(OutOfRange(i + 1))
              else Ok(Fields(lines, i + 1))
  {
    if !(ReadsNext(lines[i]) && i + 1 == |lines|) {
      PickStep(lines, ShippedTo, i);
      PickStep(lines, InvoiceNo, i);
      PickStep(lines, OrderNo, i);
      PickStep(lines, Dated, i);
    }
  }

  lemma ReadProductStep(lines: seq<string>, i: nat, rec: Extracted)
    requires i < |lines|
    ensures var n := |lines|;
            ReadProduct(lines, i, rec) ==
              if !Matches(ProductLine, lines[i]) then Ok(rec)
              else if i + 6 < n then
                Ok(rec.(products := rec.products + [Product(lines[i], lines[i + 2], lines[i + 5], lines[i + 6])]))
              else Err(OutOfRange(if i + 2 >= n then i + 2 else if i + 5 >= n then i + 5 else i + 6))
  {
  }

  lemma ReferenceWithoutProduct(lines: seq<string>)
    requires forall m :: 0 <= m < |lines| ==> !Matches(ProductLine, lines[m])
    ensures var n := |lines|;
            Reference(lines) == if n > 0 && ReadsNext(lines[n - 1]) then Err(OutOfRange(n)) else Ok(Fields(lines, n))
  {
    assert FirstProduct(lines) == None;
  }

  lemma ReferenceWithProduct(lines: seq<string>, p: nat)
    requires p < |lines| && Matches(ProductLine, lines[p])
    requires forall m :: 0 <= m < p ==> !Matches(ProductLine, lines[m])
    ensures var n := |lines|;
            Reference(lines) ==
              if p + 6 < n then
                Ok(Fields(lines, p + 1).(products := [Product(lines[p], lines[p + 2], lines[p + 5], lines[p + 6])]))
              else
                Err(OutOfRange(if ReadsNext(lines[p]) && p + 1 == n then p + 1
                               else if p + 2 >= n then p + 2
                               else if p + 5 >= n then p + 5
                               else p + 6))
  {
    assert FirstProduct(lines) == Some(p);
  }

  lemma ScanFromStep(lines: seq<string>, i: nat, rec: Extracted)
    requires i < |lines|
    ensures ScanFrom(lines, i, rec) ==
              match ApplyAnchors(lines, i, rec)
              case Err(e) => Err(e)
              case Ok(next) => if |next.products| >= ProductLimit then Ok(next) else ScanFrom(lines, i + 1, next)
  {
  }

  lemma {:induction false} ScanFromFields(lines: seq<string>, i: nat)
    requires Readable(lines, i)
    requires forall m :: 0 <= m < i ==> !Matches(ProductLine, lines[m])
    decreases |lines| - i
    ensures ScanFrom(lines, i, Fields(lines, i)) == Reference(lines)
  {
    var n := |lines|;
    var rec := Fields(lines, i);
    if i == n {
      ReferenceWithoutProduct(lines);
    } else {
      var line := lines[i];
      ReadFieldsStep(lines, i);
      ScanFromStep(lines, i, rec);
      if ReadsNext(line) && i + 1 == n {
        assert ApplyAnchors(lines, i, rec) == Err(OutOfRange(i + 1));
        if Matches(ProductLine, line) {
          ReferenceWithProduct(lines, i);
        } else {
          ReferenceWithoutProduct(lines);
        }
      } else {
        var next := Fields(lines, i + 1);
        ReadProductStep(lines, i, next);
        assert ApplyAnchors(lines, i, rec) == ReadProduct(lines, i, next);
        if Matches(ProductLine, line) {
          ReferenceWithProduct(lines, i);
          if i + 6 < n {
            assert next.products + [Product(line, lines[i + 2], lines[i + 5], lines[i + 6])]
                == [Product(line, lines[i + 2], lines[i + 5], lines[i + 6])];
          }
        } else {
          ScanFromFields(lines, i + 1);
        }
      }
    }
  }

  /** The loop computes the reference definition. */
  lemma ScanIsReference(lines: seq<string>)
    ensures Scan(lines) == Reference(lines)
  {
    assert Fields(lines, 0) == Empty;
    ScanFromFields(lines, 0);
  }

  // ---------------------------------------------------------------------------
  // Properties of the extraction

  /** Lines none of which carries an anchor give the empty record, without error. */
  lemma NoAnchorsGivesEmpty(lines: seq<string>)
    requires forall k :: 0 <= k < |lines| ==> !MatchesAny(lines[k])
    ensures Scan(lines) == Ok(Empty)
  {
    ScanIsReference(lines);
    ReferenceWithoutProduct(lines);
    var n := |lines|;
    assert LastMatch(lines, ShippedTo, n) == None;
    assert LastMatch(lines, InvoiceNo, n) == None;
    assert LastMatch(lines, OrderNo, n) == None;
    assert LastMatch(lines, Dated, n) == None;
  }

  /** The scan never records more than one product. */
  lemma AtMostOneProduct(lines: seq<string>)
    ensures Scan(lines).Ok? ==> |Scan(lines).value.products| <= 1
  {
    ScanIsReference(lines);
  }

  /** With a product line, the single entry is read from that first product
      line and the lines 2, 5 and 6 after it, and the extraction fails exactly
      when line `p + 6` does not exist. */
  lemma FirstProductEntry(lines: seq<string>, p: nat)
    requires FirstProduct(lines) == Some(p)
    ensures Scan(lines).Err? <==> p + 6 >= |lines|
    ensures p + 6 < |lines| ==>
              Scan(lines).value.products == [Product(lines[p], lines[p + 2], lines[p + 5], lines[p + 6])]
  {
    ScanIsReference(lines);
  }

  /** A successful extraction that found a product found exactly one, and
      each of its fields is one of the lines. */
  lemma ProductFromLines(lines: seq<string>)
    requires Scan(lines).Ok? && |Scan(lines).value.products| > 0
    ensures var ps := Scan(lines).value.products;
            |ps| == 1 && ps[0].name in lines && ps[0].quantity in lines
            && ps[0].batchNo in lines && ps[0].bags in lines
  {
    if FirstProduct(lines).None? {
      NoProductLine(lines);
    } else {
      var p := FirstProduct(lines).value;
      FirstProductEntry(lines, p);
    }
  }

  /** Without a product line the product list stays empty, and the extraction
      fails only when the last line carries an anchor that reads the line after it. */
  lemma NoProductLine(lines: seq<string>)
    requires FirstProduct(lines) == None
    ensures Scan(lines).Err? <==> |lines| > 0 && ReadsNext(lines[|lines| - 1])
    ensures Scan(lines).Err? ==> Scan(lines).error == OutOfRange(|lines|)
    ensures Scan(lines).Ok? ==> Scan(lines).value.products == []
  {
    ScanIsReference(lines);
  }

  /** How many lines the scan looks at: up to and including the first product line. */
  function ScannedEnd(lines: seq<string>): (end: nat)
    ensures end <= |lines|
  {
    match FirstProduct(lines)
    case Some(p) => p + 1
    case None => |lines|
  }

  /** `field` is what the last anchor `a` among the first `end` lines wrote, or
      absent when none of them carries that anchor. */
  predicate WrittenBy(lines: seq<string>, a: Anchor, end: nat, field: Option<string>)
    requires end <= |lines|
  {
    match field
    case None => forall m :: 0 <= m < end ==> !Matches(a, lines[m])
    case Some(v) =>
      exists j :: 0 <= j < end && Matches(a, lines[j]) && (NeedsNext(a) ==> j + 1 < |lines|)
                  && (forall m :: j < m < end ==> !Matches(a, lines[m]))
                  && v == Value(lines, a, j)
  }

  /** Each field of a successful extraction comes from the last line carrying
      its anchor among the lines scanned before the stop. */
  lemma LastAnchorWins(lines: seq<string>)
    requires Scan(lines).Ok?
    ensures var rec, end := Scan(lines).value, ScannedEnd(lines);
            WrittenBy(lines, ShippedTo, end, rec.companyName)
            && WrittenBy(lines, InvoiceNo, end, rec.invoiceNo)
            && WrittenBy(lines, OrderNo, end, rec.orderNo)
            && WrittenBy(lines, Dated, end, rec.orderDate)
  {
    ScanIsReference(lines);
    var end := ScannedEnd(lines);
    assert Readable(lines, end);
    var rec := Fields(lines, end);
    assert Scan(lines).value.companyName == rec.companyName;
    assert Scan(lines).value.invoiceNo == rec.invoiceNo;
    assert Scan(lines).value.orderNo == rec.orderNo;
    assert Scan(lines).value.orderDate == rec.orderDate;
    PickWrittenBy(lines, ShippedTo, end);
    PickWrittenBy(lines, InvoiceNo, end);
    PickWrittenBy(lines, OrderNo, end);
    PickWrittenBy(lines, Dated, end);
  }

  lemma PickWrittenBy(lines: seq<string>, a: Anchor, end: nat)
    requires Readable(lines, end)
    ensures WrittenBy(lines, a, end, Pick(lines, a, end))
  {
    match LastMatch(lines, a, end)
    case None =>
    case Some(j) =>
      assert Matches(a, lines[j]) && (NeedsNext(a) ==> j + 1 < |lines|);
  }

  /** `LastMatch` looks only at the lines before `end`. */
  lemma LastMatchPrefix(lines: seq<string>, other: seq<string>, a: Anchor, end: nat)
    requires end <= |lines| && end <= |other|
    requires forall m :: 0 <= m < end ==> lines[m] == other[m]
    ensures LastMatch(lines, a, end) == LastMatch(other, a, end)
  {
    var l, o := LastMatch(lines, a, end), LastMatch(other, a, end);
    if l.Some? && o.Some? {
      assert !(l.value < o.value) && !(o.value < l.value);
    }
  }

  /** The fields after `end` lines depend on those lines and the one after them. */
  lemma FieldsPrefix(lines: seq<string>, other: seq<string>, end: nat)
    requires end < |lines| && end < |other|
    requires forall m :: 0 <= m <= end ==> lines[m] == other[m]
    ensures Fields(lines, end) == Fields(other, end)
  {
    forall a: Anchor
      ensures Pick(lines, a, end) == Pick(other, a, end)
    {
      LastMatchPrefix(lines, other, a, end);
    }
  }

  /** Once a product has been read, no line after the product's sixth
      following line influences the result. */
  lemma LinesAfterProductIgnored(lines: seq<string>, p: nat, tail: seq<string>)
    requires FirstProduct(lines) == Some(p) && p + 6 < |lines|
    ensures Scan(lines[..p + 7] + tail) == Scan(lines)
  {
    var other := lines[..p + 7] + tail;
    assert forall m :: 0 <= m < p + 7 ==> other[m] == lines[m];
    ScanIsReference(lines);
    ScanIsReference(other);
    ReferenceWithProduct(lines, p);
    ReferenceWithProduct(other, p);
    FieldsPrefix(lines, other, p + 1);
  }
}
