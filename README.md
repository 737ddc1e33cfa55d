# PDF data extractor and test-report generator, modelled in Dafny

The system is a one-page Streamlit tool. It reads an uploaded PDF order or
invoice and pulls out a few fields: consignee company, invoice number, order
line, order date, and the first product with its quantity, batch line and bag
count. From that record it produces a copper-sulphate test report and offers
it for download.

This project models the two parts of `test_report_gui_st.py` that carry logic:

* **Normalise** (lines 23-24). The decoded page texts are joined with
  newlines and split on newlines. Each piece is stripped, and pieces that
  strip to nothing are dropped.
* **Extractor** (`extract_pdf_data`, lines 20-45). This is one pass over the
  lines with five anchor tests per line:
  * "Shipped to :" in either spacing;
  * "Invoice No.";
  * "Order no:";
  * "Dated";
  * a line starting with "1.", "2." or "3.".

  Each anchor reads a line at a fixed offset. The pass stops once one product
  has been recorded. `Extract` is the loop as written, a `method` over an
  immutable record value. `Scan`/`ScanFrom` is the same scan as a function.
  `Reference` is a loop-free definition of the result: "the last anchor
  among the lines up to and including the first product line wins" (the
  field tests of lines 26-33 run on the product line too, before the break
  at line 43). `ScanIsReference` proves the scan equal to it.
* **Composer** (the derivations in `generate_test_report`, lines 73-121, and
  the file names, lines 162-171). It computes:
  * the product name with its ordinal marker removed;
  * the order number resolved to "VERBAL" or the text between the last
    "Order no:" and the first "dtd";
  * the batch code from `re.search(r"batch no:\s*(\d+)", ...)`;
  * the invoice and certificate cells;
  * the manufacturing date, which is the last ten characters of the batch line;
  * the results table;
  * the local and download file names.
* **App** joins these as the page runs them after upload and button press
  (lines 154-171).

Python's `str` operations are modelled in `PyStr`:
* `isspace`;
* `strip`/`lstrip`/`rstrip`;
* `in`;
* `startswith`;
* `split` with a non-empty separator;
* `[-n:]`;
* the digit run of `\d+`.

Each comes with a contract stating its Python meaning. For `split`, the
function's contract says there is at least one piece and no piece holds the
separator. `SplitJoin` adds that the pieces rejoin to the input, and
`SplitFirst` that the first piece ends at the first occurrence. `SplitLast`
pins the last piece down uniquely only for separators that cannot overlap
themselves, such as ":" and "Order no:", which are the ones it is used with. Every
exception the source can raise on these paths is a value of an error
datatype:
* `OutOfRange(index)` for the `IndexError` of `lines[k]` past the end;
* `MissingProduct` for the `IndexError` of `Products[0]` on an empty list;
* `MissingInvoice` for the `TypeError` of `None[-3:]`;
* `BatchParse` for the `AttributeError` of `None.group(1)` when the batch
  search finds nothing.

The errors come in the order Python evaluates the expressions that raise them.

Points where the code's behaviour is easy to misread:
* The batch pattern is case-sensitive, because `re.search` gets no flags.
* The order number is taken after the *last* "Order no:", because of
  `split(...)[-1]`.
* An empty stored order line also resolves to "VERBAL", because of `not ""`.
* Line 26 reads `f "Shipped to :" in line or ...`, which is not valid Python.
  It is modelled as the evidently intended `if`.

## Model

| member | source | states |
|---|---|---|
| PyStr.IsSpace | test_report_gui_st.py:24 | the characters `str.isspace()` and `\s` accept (computes; used by every strip lemma) |
| PyStr.TrimStart | test_report_gui_st.py:73-74 | the result is a suffix of `s`; everything removed is whitespace; the result does not start with whitespace (the maximal leading run is removed) |
| PyStr.TrimEnd | test_report_gui_st.py:24 | the result is a prefix of `s`; everything removed is whitespace; the result does not end with whitespace |
| PyStr.Strip | test_report_gui_st.py:24 | the result has no leading and no trailing whitespace |
| PyStr.TrimStartSplit | test_report_gui_st.py:73-74 | the prefix `lstrip` cuts off is all whitespace |
| PyStr.TrimEndSplit | test_report_gui_st.py:24 | the suffix `rstrip` cuts off is all whitespace |
| PyStr.StripRemovesOnlyOuterSpace | test_report_gui_st.py:24 | `s` is whitespace, then the stripped text, then whitespace: strip removes nothing from the inside |
| PyStr.TrimStartAfterSpaces | test_report_gui_st.py:74 | a whitespace run followed by a non-space start is exactly what `lstrip` (and `\s*`) consumes |
| PyStr.TrimEndBeforeSpaces | test_report_gui_st.py:24 | a trailing whitespace run after a non-space end is exactly what `rstrip` removes |
| PyStr.StripEmptyIff | test_report_gui_st.py:24 | `line.strip()` is empty exactly when the line is all whitespace (the filter's both directions) |
| PyStr.StripOfStripped | test_report_gui_st.py:24 | a string without outer whitespace is left unchanged by strip |
| PyStr.StripIdempotent | test_report_gui_st.py:29 | stripping twice is stripping once |
| PyStr.IndexFrom | test_report_gui_st.py:26-32 | the found position is the first occurrence at or after `k`; none means no occurrence at or after `k` |
| PyStr.IndexOfIffContains | test_report_gui_st.py:26-32 | the search finds a position exactly when `pat in s` |
| PyStr.Contains | test_report_gui_st.py:26-33 | Python's `pat in s`: some position holds `pat` (computes; characterised by `IndexOfIffContains`) |
| PyStr.StartsWith | test_report_gui_st.py:34 | Python's `s.startswith(pre)`: `pre` is a prefix of `s` (computes) |
| PyStr.OccursInPrefix | test_report_gui_st.py:79 | an occurrence inside a prefix is an occurrence in the whole string |
| PyStr.Join | test_report_gui_st.py:23 | `sep.join(parts)` (computes; characterised by `SplitJoin`) |
| PyStr.Split | test_report_gui_st.py:24 | `split` never returns an empty list, and no piece contains the separator |
| PyStr.SplitJoin | test_report_gui_st.py:23-24 | joining the pieces of `s.split(sep)` with `sep` gives `s` back |
| PyStr.NoneBeforeFirst | test_report_gui_st.py:79 | the text before the first occurrence holds no occurrence |
| PyStr.SplitFirst | test_report_gui_st.py:79 | `split(sep)[0]` is the prefix of `s` before the first occurrence of `sep`: no occurrence starts inside it, `sep` follows it when `s` contains `sep`, and it is all of `s` otherwise |
| PyStr.SplitLast | test_report_gui_st.py:29 | `split(sep)[-1]` has no `sep`; it is all of `s` when `s` has no `sep`; otherwise `s` ends with `sep` followed by it |
| PyStr.SplitLastSuffix | test_report_gui_st.py:29 | when `s` contains `sep`, `s` ends with `sep` followed by `split(sep)[-1]` |
| PyStr.SplitLastStep | test_report_gui_st.py:78 | the suffix property of `split(sep)[-1]` carries over one cut |
| PyStr.TakeLast | test_report_gui_st.py:89-90 | `s[-n:]` is a suffix of `s`, of length `min(n, len(s))` for `n >= 1` and all of `s` for `n = 0` |
| PyStr.DigitRun | test_report_gui_st.py:73-74 | the counted prefix is all digits and is maximal (what follows is not a digit) |
| PyStr.DigitRunOf | test_report_gui_st.py:73-74 | a digit block followed by a non-digit is measured exactly |
| Normalise.Clean | test_report_gui_st.py:24 | every kept line is non-empty and stripped, and there are no more lines than pieces |
| Normalise.OriginsLength | test_report_gui_st.py:24 | one origin per kept line |
| Normalise.OriginsBounded | test_report_gui_st.py:24 | every origin is a valid piece index |
| Normalise.OriginsIncreasing | test_report_gui_st.py:24 | origins are strictly increasing: the comprehension keeps order and never repeats a piece |
| Normalise.CleanAtOrigins | test_report_gui_st.py:24 | each kept line is the stripped piece its origin points at |
| Normalise.CleanAt | test_report_gui_st.py:24 | the same for one kept line |
| Normalise.OriginsComplete | test_report_gui_st.py:24 | no piece that is not all whitespace is dropped |
| Normalise.OriginOf | test_report_gui_st.py:24 | the same for one piece |
| Normalise.OriginsExtend | test_report_gui_st.py:24 | appending a piece keeps the earlier origins and adds the new one when it survives |
| Normalise.OriginsKept | test_report_gui_st.py:24 | every origin points at a piece that is not all whitespace |
| Normalise.CleanCount | test_report_gui_st.py:24 | the number of kept lines equals the number of pieces that are not all whitespace |
| Normalise.Lines | test_report_gui_st.py:23-24 | every line the extractor sees is non-empty and stripped |
| Normalise.PageText | test_report_gui_st.py:23 | the page texts joined with newlines (computes; characterised through `LinesFromPieces`) |
| Normalise.LinesFromPieces | test_report_gui_st.py:23-24 | the pieces rejoin to the page text, each line is the strip of one of them, and no line contains a newline |
| Normalise.StripHasNoNewSep | test_report_gui_st.py:24 | stripping a piece without a separator leaves none in it |
| Normalise.LinesCount | test_report_gui_st.py:23-24 | there is exactly one line per non-blank piece of the joined page text |
| Extractor.Lookup | test_report_gui_st.py:27-39 | `lines[k]` succeeds exactly when `k < len(lines)`, and otherwise fails with that index |
| Extractor.Matches | test_report_gui_st.py:26-34 | the five anchor tests: "Shipped to :" or "Shipped to  :" in the line, "Invoice No.", "Order no:", "Dated", and a start with "1.", "2." or "3." (computes; used by every scan lemma) |
| Extractor.AfterLastColon | test_report_gui_st.py:29-33 | `line.split(":")[-1].strip()` (computes; characterised by `AfterLastColonSpec`) |
| Extractor.AfterLastColonSpec | test_report_gui_st.py:29 | `split(":")[-1].strip()` is the strip of a colon-free tail that follows the last colon (or the whole line when there is none) |
| Extractor.Extract | test_report_gui_st.py:20-45 | the loop, with its break after the first product and its `IndexError`s, computes `Scan` |
| Extractor.ReadFields | test_report_gui_st.py:26-33 | the four field tests of one iteration, each overwriting its field, failing at `i+1` when a next-line read runs off the end (computes; characterised by `ReadFieldsStep`) |
| Extractor.ReadProduct | test_report_gui_st.py:34-42 | the product test of one iteration, appending the entry (computes; characterised by `ReadProductStep`) |
| Extractor.ApplyAnchors | test_report_gui_st.py:26-42 | one iteration's five tests in source order (computes) |
| Extractor.ScanFrom | test_report_gui_st.py:25-44 | the loop from line `i`, stopping at the first error or once a product is recorded (computes; characterised by `ScanFromFields`) |
| Extractor.Scan | test_report_gui_st.py:13-45 | the whole extraction from the initial record (computes; equal to `Reference` by `ScanIsReference`) |
| Extractor.Reference | test_report_gui_st.py:25-45 | loop-free result: fields from the last anchors up to and including the first product line, the product from lines `p`, `p+2`, `p+5`, `p+6`, or the first failing index (computes; connected by `ScanIsReference`) |
| Extractor.LastMatch | test_report_gui_st.py:26-33 | the last matching index before `end`, or none exactly when no line before `end` matches |
| Extractor.FirstMatchFrom | test_report_gui_st.py:34 | the first matching index at or after `k`, or none exactly when none matches |
| Extractor.PickStep | test_report_gui_st.py:26-33 | one more line overwrites a field exactly when it carries that field's anchor |
| Extractor.ReadFieldsStep | test_report_gui_st.py:26-33 | the four field anchors on line `i` advance the reference record by one line, or fail with `i+1` exactly when a next-line anchor sits on the last line |
| Extractor.ReadProductStep | test_report_gui_st.py:34-42 | a product line appends the entry read from lines `i+2`, `i+5`, `i+6`, or fails at the first of those that is missing |
| Extractor.ReferenceWithoutProduct | test_report_gui_st.py:25-45 | without a product line the reference result is the fields after all lines, or `OutOfRange(n)` |
| Extractor.ReferenceWithProduct | test_report_gui_st.py:25-45 | with a first product line at `p` the reference result is the fields up to `p` with that one product, or the first failing index |
| Extractor.ScanFromFields | test_report_gui_st.py:25-45 | from any point before the first product, the scan computes the reference result |
| Extractor.ScanIsReference | test_report_gui_st.py:20-45 | the scan equals the loop-free reference definition |
| Extractor.NoAnchorsGivesEmpty | test_report_gui_st.py:13-45 | lines without any anchor give the initial record with no error |
| Extractor.AtMostOneProduct | test_report_gui_st.py:20-44 | with `counter = 1` the record never holds more than one product |
| Extractor.FirstProductEntry | test_report_gui_st.py:34-44 | with a product line at `p`, the scan fails exactly when line `p+6` is missing; otherwise the single product is lines `p`, `p+2`, `p+5`, `p+6` |
| Extractor.ProductFromLines | test_report_gui_st.py:35-40 | a recorded product is the only one, and each of its four fields is one of the lines |
| Extractor.NoProductLine | test_report_gui_st.py:25-45 | without a product line the scan fails exactly when the last line needs a next line, at index `len(lines)`, and otherwise has no products |
| Extractor.LastAnchorWins | test_report_gui_st.py:26-33 | each field of a successful scan was written by the last line carrying its anchor among the lines scanned, or is absent when no such line exists |
| Extractor.PickWrittenBy | test_report_gui_st.py:26-33 | the reference field is what the last anchor before `end` wrote |
| Extractor.LastMatchPrefix | test_report_gui_st.py:25-33 | the last match before `end` depends only on the lines before `end` |
| Extractor.FieldsPrefix | test_report_gui_st.py:25-33 | the fields after `end` lines depend only on those lines and the one after |
| Extractor.LinesAfterProductIgnored | test_report_gui_st.py:43-44 | once a product is read, replacing every line after its sixth following line changes nothing |
| Composer.StripOrdinal | test_report_gui_st.py:74 | `re.sub(r"^\d+\.\s*", "", name)`: the result is a suffix of the name |
| Composer.StripOrdinalRemovesMarker | test_report_gui_st.py:74 | with a digits-and-dot marker of length `d`, the cleaned name is what follows the dot with its leading whitespace removed |
| Composer.StripOrdinalKeepsPlainName | test_report_gui_st.py:74 | a name without a marker is unchanged |
| Composer.StripOrdinalOfMarked | test_report_gui_st.py:74 | marker, whitespace and rest give exactly the rest, even when the rest starts with another marker (the pattern is anchored and applied once) |
| Composer.ResolveOrderNo | test_report_gui_st.py:75-79 | an absent or empty order line gives "VERBAL" (the present case is stated by `OrderNoBeforeDtd`) |
| Composer.OrderNoTail | test_report_gui_st.py:78 | the text read is after the last "Order no:", holds no further "Order no:", and is the whole line when it has none |
| Composer.OrderNoBeforeDtd | test_report_gui_st.py:79 | a present order line resolves to the strip of the text before the first "dtd" of its trimmed tail (no "dtd" starts earlier, even an overlapping one), or of all of it when there is no "dtd" |
| Composer.GroupAtSound | test_report_gui_st.py:73 | what `\s*(\d+)` captures after the tag is the group of a genuine greedy match |
| Composer.GroupAtComplete | test_report_gui_st.py:73 | every match of `\s*(\d+)` is found, with the same group |
| Composer.CodeAtSound | test_report_gui_st.py:73 | a capture at `p` is the group of a match of the whole pattern at `p` |
| Composer.CodeAtComplete | test_report_gui_st.py:73 | a match of the whole pattern at `p` is captured there |
| Composer.NoMatchAt | test_report_gui_st.py:73 | when trying at `p` fails, no match starts at `p` |
| Composer.SearchFromFound | test_report_gui_st.py:73 | the search result is the group of the leftmost match at or after `k` |
| Composer.SearchFromNone | test_report_gui_st.py:73 | no result means no match at or after `k` |
| Composer.SearchFrom | test_report_gui_st.py:73 | a found group is a non-empty run of digits |
| Composer.GroupAt | test_report_gui_st.py:73 | trying `\s*(\d+)` at the start of a string (computes; characterised by `GroupAtSound`/`GroupAtComplete`) |
| Composer.CodeAt | test_report_gui_st.py:73 | trying the whole batch pattern at one position (computes; characterised by `CodeAtSound`/`CodeAtComplete`/`NoMatchAt`) |
| Composer.BatchCode | test_report_gui_st.py:73 | `re.search(...).group(1)` when it matches: a non-empty run of digits |
| Composer.BatchCodeSpec | test_report_gui_st.py:73 | `re.search` finds nothing exactly when the pattern matches nowhere in the batch line |
| Composer.BatchCodeLeftmost | test_report_gui_st.py:73 | a found batch code is the group of the leftmost match in the batch line |
| Composer.Show | test_report_gui_st.py:86-89 | how an f-string prints an optional field, `None` as "None" (computes; used by `ComposedCells`) |
| Composer.Compose | test_report_gui_st.py:73-121 | a composed report implies a product, an invoice number and a batch match |
| Composer.ComposeErrors | test_report_gui_st.py:73-113 | composition fails with `MissingProduct` exactly when there is no product, with `MissingInvoice` exactly when there is a product but no invoice number, and with `BatchParse` exactly when both exist but the batch pattern does not match |
| Composer.ComposedCells | test_report_gui_st.py:82-90 | the consignee is the company name as extracted; the item is the cleaned name; the order cell is the resolved order number ("VERBAL" when absent or empty); the invoice cell is the invoice number, a space and the date ("None" when absent); the certificate begins with the invoice number's last `min(3, len)` characters; the manufacturing date is the batch line's last `min(10, len)` characters; quantity and bags are copied |
| Composer.ComposedBatchCode | test_report_gui_st.py:113 | the header's batch code is a non-empty digit string, the group of the leftmost match in the batch line |
| Composer.ResultsTable | test_report_gui_st.py:112-121 | the eight rows of the results table (computes; characterised by `ResultsTableFixed`) |
| Composer.ComposedResults | test_report_gui_st.py:112-121 | a composed report's results table has eight rows, the batch code found in the batch line in its header, and the random copper and pH results in rows 3 and 4 |
| Composer.ResultsTableFixed | test_report_gui_st.py:112-121 | the table always has eight rows with fixed labels; only the header result, copper and pH cells vary, and two tables are equal exactly when those inputs are |
| Composer.DownloadName | test_report_gui_st.py:171 | the download file name (computes; characterised by `DownloadNameLayout`) |
| Composer.LocalName | test_report_gui_st.py:164 | the local file name (computes; characterised by `LocalNameDiffersInCase`) |
| Composer.ReportFileName | test_report_gui_st.py:162-163 | the names exist exactly when there is a product and an invoice number, failing with `MissingProduct` first and `MissingInvoice` second |
| Composer.DownloadNameLayout | test_report_gui_st.py:169-171 | the download name is "Test_Report", the cleaned item, the invoice suffix and ".pdf", in that order and nothing else |
| Composer.LocalNameDiffersInCase | test_report_gui_st.py:162-171 | the local file name has the download name's length and differs from it only at positions 0 and 5, where the download name has "T" and "R" and the local name "t" and "r" |
| Composer.PrefixesDifferInCase | test_report_gui_st.py:164-171 | "Test_Report" and "test_report" followed by the same text differ only at positions 0 and 5 |
| Composer.ComposedReportHasName | test_report_gui_st.py:162-171 | whenever a report can be composed, its download name exists and is built from the report's item cell |
| App.Run | test_report_gui_st.py:154-171 | the page's flow as a function (computes; characterised by `RunErrors`, `RunParts`, `RunOutput`, `RunReadsCleanLines`) |
| App.GenerateReport | test_report_gui_st.py:154-171 | upload then button press: normalise, extract, name and compose, failing with the first error Python would raise, computes `Run` |
| App.RunErrors | test_report_gui_st.py:156-166 | the flow fails in extraction exactly when the scan does, succeeds after extraction exactly when composition does, and otherwise reports composition's error |
| App.RunParts | test_report_gui_st.py:156-166 | a successful run carries the scanned record and the report composed from it, with a product |
| App.RunOutput | test_report_gui_st.py:161-171 | a successful run's download and local names are `DownloadName` and `LocalName` of the report's item cell and the invoice number; they have the same length and agree except at positions 0 and 5, where the download name has "T" and "R" and the local name "t" and "r" |
| App.RunReadsCleanLines | test_report_gui_st.py:156-166 | exactly one product reaches the report; its name is one of the lines; its quantity and bag cells are non-empty, stripped, and lines of the decoded text |

## Left out

- PDF decoding by PyMuPDF (`page.get_text`, line 23). Its output is the input `pages: seq<string>`.
- The reportlab drawing (lines 48-69, 93-110, 123-148) is not modelled. This covers the canvas, fonts, positions, column widths, table styles, the fixed header and footer text, how a missing consignee is drawn, and saving the PDF. The consignee cell stays an `Option`.
- The logo (lines 50-58) is not modelled: its existence check, its loading, and the warnings printed on failure are file-system I/O.
- The two random quality values (lines 71-72) are inputs. `uniform`, rounding and float formatting are not modelled; the values enter the report as already-formatted strings.
- The Streamlit page (lines 150-171, apart from the name computation and the order of calls) is not modelled. That is the uploader, the success message, `st.json`, the button, writing and re-reading the report file, and the download widget.
- `generate_test_report` returns the tuple `(output_path,)`. It is not modelled, because nothing reads it.
- The labels of the consignee table (line 82-91: "Consignee:", "Item:", ...) are fixed text, and only the value cells are modelled in `Report`.
- DigitRun: counts ASCII digits only, while Python's `\d` on `str` patterns also matches other Unicode decimal digits.
- IsSpace: follows `str.isspace()` and `\s` for the characters Python lists as whitespace. It is not derived from the Unicode database.
- Split: covers non-empty separators only, which are the only ones the source uses.
