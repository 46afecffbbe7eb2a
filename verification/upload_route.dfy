/** The `/api/upload-invoice` handler: the file guards, the stored file
    name, and `parseInvoiceText`, which reads vendor, total and item lines
    from OCR text. Storage, OCR and the Firestore write are given as their
    outcomes; the handler's result records what it stored and wrote. */
module UploadRoute {
  import opened Collections
  import opened Text
  import opened Patterns

  // ---------------------------------------------------------------------
  // parseInvoiceText
  // ---------------------------------------------------------------------

  /** One entry of `items`: `{ name, price }`. */
  datatype Item = Item(name: string, price: JsNumber)

  /** The object `parseInvoiceText` returns. */
  datatype ParsedInvoice = ParsedInvoice(vendor: string, total: JsNumber, items: seq<Item>)

  /** `text.match(/Vendor:\s*(.*)/)?.[1] || "Unknown"`: no match and an
      empty capture both give "Unknown". */
  function VendorOf(text: string): string
  {
    match FindLine(text, "Vendor:", false, 0)
    case Some(c) => if c == "" then "Unknown" else c
    case None => "Unknown"
  }

  /** `text.split("\n").filter(line => /\$\d+\.\d{2}/.test(line))`. */
  function PriceLines(text: string): seq<string>
  {
    Select(SplitOn(text, '\n'), HasPriceTag)
  }

  /** The item of a line as written: the first and the last part of
      `line.split(/\s+/)`, the last read by `parseFloat`. */
  function ItemOfAsWritten(line: string): Item
  {
    var parts := SplitWhitespace(line);
    Item(parts[0], ParseFloat(Last(parts)))
  }

  /** The last part with a leading "$" dropped before it is read. */
  function ItemOf(line: string): Item
  {
    var parts := SplitWhitespace(line);
    var last := Last(parts);
    Item(parts[0], ParseFloat(if |last| > 0 && last[0] == '$' then last[1..] else last))
  }

  /** The items, one per price line, in order. */
  function Items(text: string, item: string -> Item): (items: seq<Item>)
    ensures |items| == |PriceLines(text)|
    ensures forall j :: 0 <= j < |items| ==> items[j] == item(PriceLines(text)[j])
  {
    var lines := PriceLines(text);
    seq(|lines|, j requires 0 <= j < |lines| => item(lines[j]))
  }

  /** `parseInvoiceText` as the handler calls it. */
  function ParseInvoiceTextAsWritten(text: string): ParsedInvoice
  {
    ParsedInvoice(VendorOf(text), LabelledAmount(text, "Total:", true), Items(text, ItemOfAsWritten))
  }

  /** The parser with a price tag's "$" dropped before `parseFloat`. */
  function ParseInvoiceText(text: string): ParsedInvoice
  {
    ParsedInvoice(VendorOf(text), LabelledAmount(text, "Total:", true), Items(text, ItemOf))
  }

  /** The vendor is the rest of the line after the leftmost "Vendor:" (exact
      case), whitespace and line breaks after the colon skipped; "Unknown"
      when there is no such line or it is empty. It is never empty. */
  lemma VendorSpec(text: string)
    ensures FindLine(text, "Vendor:", false, 0).None? ==> VendorOf(text) == "Unknown"
    ensures FindLine(text, "Vendor:", false, 0).Some? && FindLine(text, "Vendor:", false, 0).value != "" ==>
      VendorOf(text) == FindLine(text, "Vendor:", false, 0).value
    ensures |VendorOf(text)| >= 1
    ensures forall j :: 0 <= j < |VendorOf(text)| ==> !IsLineTerminator(VendorOf(text)[j])
  {
    if FindLine(text, "Vendor:", false, 0).Some? {
      FindLineCapture(text, "Vendor:", false, 0);
    }
  }

  /** The total is 0 without a case-insensitive "Total:" amount, and
      otherwise the value of the leftmost one, which may sit inside
      "Subtotal:". */
  lemma TotalSpec(text: string)
    ensures FindAmount(text, "Total:", true).None? ==> ParseInvoiceText(text).total == Finite(0.0)
    ensures FindAmount(text, "Total:", true).Some? ==>
      var c := FindAmount(text, "Total:", true).value;
      |c| >= 4 && ParseInvoiceText(text).total
        == Finite(DigitsValue(c[..|c| - 3]) as real + DigitsValue(c[|c| - 2..]) as real / 100.0)
    ensures ParseInvoiceText(text).total == ParseInvoiceTextAsWritten(text).total
  {
    LabelledAmountValue(text, "Total:", true);
  }

  /** The item lines are the newline-separated lines of the text holding a
      price tag `$digits.dd`, in their order, one item per line. */
  lemma ItemLines(text: string, item: string -> Item) returns (idx: seq<nat>)
    ensures |Items(text, item)| == |idx| && Increasing(idx)
    ensures forall j :: 0 <= j < |idx| ==>
      idx[j] < |SplitOn(text, '\n')| && Items(text, item)[j] == item(SplitOn(text, '\n')[idx[j]])
    ensures forall k :: 0 <= k < |SplitOn(text, '\n')| ==>
      (k in idx <==> exists i: nat, n: nat :: PriceParse(SplitOn(text, '\n')[k], i, n))
  {
    var lines := SplitOn(text, '\n');
    idx := SelectIndices(lines, HasPriceTag);
    forall k | 0 <= k < |lines|
      ensures HasPriceTag(lines[k]) <==> exists i: nat, n: nat :: PriceParse(lines[k], i, n)
    {
      HasPriceTagSpec(lines[k]);
    }
  }

  /** The name is the line's leading non-whitespace run: "" when the line
      starts with whitespace. */
  lemma ItemName(line: string)
    ensures ItemOf(line).name == ItemOfAsWritten(line).name
    ensures IsPrefix(ItemOf(line).name, line) && NoWhitespace(ItemOf(line).name)
    ensures |ItemOf(line).name| == |line| || IsWhitespace(line[|ItemOf(line).name|])
  {
    SplitWhitespaceFirst(line);
    SplitWhitespaceParts(line);
  }

  /** As written, the price is `parseFloat` of the line's trailing
      non-whitespace run, so it is NaN when that run is empty or starts
      with "$". */
  lemma PriceAsWritten(line: string)
    ensures EndsRun(Last(SplitWhitespace(line)), line)
    ensures ItemOfAsWritten(line).price == ParseFloat(Last(SplitWhitespace(line)))
    ensures var last := Last(SplitWhitespace(line));
      (|last| == 0 || last[0] == '$') ==> ItemOfAsWritten(line).price == NaN
  {
    SplitWhitespaceLast(line);
    var last := Last(SplitWhitespace(line));
    if |last| == 0 || last[0] == '$' {
      ParseFloatNaN(last);
    }
  }

  /** A price tag `$whole.frac`. */
  function Tag(whole: string, frac: string): string
  {
    "$" + whole + "." + frac
  }

  predicate TagDigits(whole: string, frac: string) {
    |whole| >= 1 && AllDigits(whole) && |frac| == 2 && AllDigits(frac)
  }

  lemma TagNoWhitespace(whole: string, frac: string)
    requires TagDigits(whole, frac)
    ensures NoWhitespace(Tag(whole, frac))
  {
    var tag := Tag(whole, frac);
    assert forall j :: 1 <= j <= |whole| ==> tag[j] == whole[j - 1];
    assert forall j :: |whole| + 2 <= j < |tag| ==> tag[j] == frac[j - |whole| - 2];
  }

  lemma TagParse(prefix: string, whole: string, frac: string)
    requires TagDigits(whole, frac)
    ensures PriceParse(prefix + " " + Tag(whole, frac), |prefix| + 1, |whole|)
  {
    var line, k := prefix + " " + Tag(whole, frac), |prefix|;
    assert forall j :: k + 2 <= j < k + 2 + |whole| ==> line[j] == whole[j - k - 2];
    assert line[k + 2 + |whole|] == '.';
    assert line[k + 3 + |whole|] == frac[0] && line[k + 4 + |whole|] == frac[1];
  }

  /** A line ending in a price tag is an item line, and the tag is its last part. */
  lemma TagLast(prefix: string, whole: string, frac: string)
    requires TagDigits(whole, frac)
    ensures var line := prefix + " " + Tag(whole, frac);
      HasPriceTag(line) && Last(SplitWhitespace(line)) == Tag(whole, frac)
  {
    var line := prefix + " " + Tag(whole, frac);
    assert line[|prefix| + 1..] == Tag(whole, frac);
    TagNoWhitespace(whole, frac);
    LastAfterWhitespace(line, |prefix|);
    TagParse(prefix, whole, frac);
    HasPriceTagSpec(line);
  }

  /** A line whose price tag ends it, such as "Widget $12.50", is kept as an
      item line, yet as written its price is NaN: the last part starts with
      "$", which `parseFloat` cannot read. */
  lemma TagPriceLost(prefix: string, whole: string, frac: string)
    requires TagDigits(whole, frac)
    ensures var line := prefix + " " + Tag(whole, frac);
      HasPriceTag(line) && ItemOfAsWritten(line).price == NaN
  {
    TagLast(prefix, whole, frac);
    ParseFloatNaN(Tag(whole, frac));
  }

  /** With the "$" dropped the price of such a line is the amount on its tag. */
  lemma TagPriceRead(prefix: string, whole: string, frac: string)
    requires TagDigits(whole, frac)
    ensures var line := prefix + " " + Tag(whole, frac);
      && HasPriceTag(line)
      && ItemOf(line).price == Finite(DigitsValue(whole) as real + DigitsValue(frac) as real / 100.0)
  {
    TagLast(prefix, whole, frac);
    assert Tag(whole, frac)[1..] == whole + "." + frac;
    ParseFloatDecimal(whole, frac);
  }

  /** The price differs from the one as written only for a last part that
      starts with "$", where the one as written is NaN. */
  lemma PriceCorrectionOnlyForDollar(line: string)
    ensures var last := Last(SplitWhitespace(line));
      (|last| == 0 || last[0] != '$') ==> ItemOf(line) == ItemOfAsWritten(line)
    ensures ItemOf(line) != ItemOfAsWritten(line) ==> ItemOfAsWritten(line).price == NaN
  {
    PriceAsWritten(line);
  }

  // ---------------------------------------------------------------------
  // POST
  // ---------------------------------------------------------------------

  /** `formData.get('file')`: nothing (null), a text field, or a file. */
  datatype Entry = NoEntry | TextField(value: string) | FileField(name: string, mimeType: string)

  /** The upload and download-URL calls: the upload fails, the upload
      succeeds but the URL cannot be had, or both succeed. */
  datatype StorageOutcome = UploadFailed | UrlFailed | Stored(url: string)

  datatype OcrOutcome = OcrFailed | Recognized(text: string)

  /** The document written to the `invoices` collection. */
  datatype Record = Record(parsed: ParsedInvoice, fileUrl: string, fileName: string, uploadedAt: string)

  datatype Body =
    | ErrorBody(error: string)
    | ParsedBody(message: string, data: ParsedInvoice)
    | UploadedBody(message: string, fileUrl: string)

  /** The response with the side effects: the storage path written to and
      the record written, if any. */
  datatype Outcome = Outcome(status: nat, body: Body, uploadedPath: Option<string>, record: Option<Record>)

  /** `${timestamp}-${file.name}`. */
  function UniqueFileName(timestamp: nat, name: string): string
  {
    NatToString(timestamp) + "-" + name
  }

  /** `!file`: null and the empty string are falsy; a file object is not. */
  predicate Missing(entry: Entry) {
    entry.NoEntry? || entry == TextField("")
  }

  /** The handler. form is None when `request.formData()` throws; a text
      field has no `arrayBuffer` method, so reading it throws. */
  function Handle(form: Option<Entry>, timestamp: nat, storage: StorageOutcome, ocr: OcrOutcome,
                  writeOk: bool, uploadedAt: string): (o: Outcome)
    ensures o.record.Some? ==> o.status == 200 && o.uploadedPath.Some?
  {
    match form
    case None => Outcome(500, ErrorBody("Failed to handle request"), None, None)
    case Some(entry) =>
      if Missing(entry) then Outcome(400, ErrorBody("No file uploaded"), None, None)
      else match entry
        case TextField(_) => Outcome(500, ErrorBody("Failed to process file"), None, None)
        case FileField(name, mimeType) =>
          var fileName := UniqueFileName(timestamp, name);
          var path := "invoices/" + fileName;
          match storage
          case UploadFailed => Outcome(500, ErrorBody("Failed to process file"), None, None)
          case UrlFailed => Outcome(500, ErrorBody("Failed to process file"), Some(path), None)
          case Stored(url) =>
            if !IsPrefix("image/", mimeType) then
              Outcome(200, UploadedBody("File uploaded successfully!", url), Some(path), None)
            else match ocr
              case OcrFailed => Outcome(500, ErrorBody("Failed to process file"), Some(path), None)
              case Recognized(text) =>
                var parsed := ParseInvoiceTextAsWritten(text);
                if writeOk then
                  Outcome(200, ParsedBody("Invoice uploaded and parsed!", parsed), Some(path),
                          Some(Record(parsed, url, fileName, uploadedAt)))
                else Outcome(500, ErrorBody("Failed to process file"), Some(path), None)
  }

  /** Without a file the answer is 400 and nothing is uploaded or written. */
  lemma NoFileNoEffects(entry: Entry, timestamp: nat, storage: StorageOutcome, ocr: OcrOutcome,
                        writeOk: bool, uploadedAt: string)
    requires entry.NoEntry? || entry == TextField("")
    ensures var o := Handle(Some(entry), timestamp, storage, ocr, writeOk, uploadedAt);
      o.status == 400 && o.uploadedPath.None? && o.record.None?
  {
  }

  /** A record is written exactly for an image file that was stored, read
      by OCR and written successfully, and it holds what `parseInvoiceText`
      as written makes of the OCR text (so a "$12.50" price is NaN), the
      file's URL and its stored name. */
  lemma OnlyImagesRecorded(form: Option<Entry>, timestamp: nat, storage: StorageOutcome, ocr: OcrOutcome,
                           writeOk: bool, uploadedAt: string)
    ensures var o := Handle(form, timestamp, storage, ocr, writeOk, uploadedAt);
      o.record.Some? <==>
        && form.Some? && form.value.FileField? && IsPrefix("image/", form.value.mimeType)
        && storage.Stored? && ocr.Recognized? && writeOk
    ensures var o := Handle(form, timestamp, storage, ocr, writeOk, uploadedAt);
      o.record.Some? ==>
        o.record.value == Record(ParseInvoiceTextAsWritten(ocr.text), storage.url,
                                 UniqueFileName(timestamp, form.value.name), uploadedAt)
        && o.body == ParsedBody("Invoice uploaded and parsed!", ParseInvoiceTextAsWritten(ocr.text))
  {
    var o := Handle(form, timestamp, storage, ocr, writeOk, uploadedAt);
    if form.Some? && form.value.FileField? && IsPrefix("image/", form.value.mimeType)
       && storage.Stored? && ocr.Recognized? && writeOk
    {
      var name, parsed := UniqueFileName(timestamp, form.value.name), ParseInvoiceTextAsWritten(ocr.text);
      assert o == Outcome(200, ParsedBody("Invoice uploaded and parsed!", parsed), Some("invoices/" + name),
                          Some(Record(parsed, storage.url, name, uploadedAt)));
    }
  }

  /** Anything uploaded goes to "invoices/" under the stored name of a file
      entry. */
  lemma UploadPath(form: Option<Entry>, timestamp: nat, storage: StorageOutcome, ocr: OcrOutcome,
                   writeOk: bool, uploadedAt: string)
    ensures var o := Handle(form, timestamp, storage, ocr, writeOk, uploadedAt);
      o.uploadedPath.Some? ==>
        form.Some? && form.value.FileField? && !storage.UploadFailed?
        && o.uploadedPath.value == "invoices/" + UniqueFileName(timestamp, form.value.name)
  {
  }

  /** The stored name starts with the timestamp's digits, ended by "-". */
  lemma UniqueFileNameDigits(timestamp: nat, name: string)
    ensures var u, s := UniqueFileName(timestamp, name), NatToString(timestamp);
      && u[..|s|] == s && u[|s| + 1..] == name
      && Span(u, 0, IsDigit) == |s|
  {
    var u, s := UniqueFileName(timestamp, name), NatToString(timestamp);
    assert u[..|s|] == s;
    assert u[|s| + 1..] == name;
    assert forall j :: 0 <= j < |s| ==> u[j] == s[j];
    assert u[|s|] == '-';
    SpanExact(u, 0, |s|, IsDigit);
  }

  /** The stored name determines the timestamp and the original name, so
      files stored at different timestamps get different names. */
  lemma UniqueFileNameInjective(t1: nat, n1: string, t2: nat, n2: string)
    ensures UniqueFileName(t1, n1) == UniqueFileName(t2, n2) ==> t1 == t2 && n1 == n2
  {
    UniqueFileNameDigits(t1, n1);
    UniqueFileNameDigits(t2, n2);
    if UniqueFileName(t1, n1) == UniqueFileName(t2, n2) {
      NatToStringInjective(t1, t2);
    }
  }
}
