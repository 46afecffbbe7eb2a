/** The `/api/parse-invoice` handler: request guards, then the vendor and
    total read from the text the vision model returns. The multipart parser,
    the file read and the vision call are given as their outcomes. */
module ParseRoute {
  import opened Collections
  import opened Text
  import opened Patterns

  /** The response body for a successful extraction: exactly two fields. */
  datatype ExtractedData = ExtractedData(vendor: string, total: JsNumber)

  datatype Body = ErrorBody(error: string) | DataBody(data: ExtractedData)

  datatype Response = Response(status: nat, body: Body)

  /** A file part as the multipart parser reports it. */
  datatype UploadedFile = UploadedFile(filepath: string)

  /** `files.file`: absent, a single file, or an array of files. */
  datatype FilePart = NoFilePart | OneFile(file: UploadedFile) | FileArray(files: seq<UploadedFile>)

  /** The outcome of `form.parse`. */
  datatype FormOutcome = FormError | FormParsed(part: FilePart)

  /** The outcome of reading the file and calling the vision model: a
      failure of either, or the reply's message content, which may be null. */
  datatype VisionOutcome = VisionFailed | VisionReply(content: Option<string>)

  /** `Array.isArray(files.file) ? files.file[0] : files.file`. */
  function UploadedOf(part: FilePart): (f: Option<UploadedFile>)
    ensures f.None? <==> part.NoFilePart? || (part.FileArray? && |part.files| == 0)
  {
    match part
    case NoFilePart => None
    case OneFile(file) => Some(file)
    case FileArray(files) => if |files| == 0 then None else Some(files[0])
  }

  /** `vendorMatch ? vendorMatch[1] : "Unknown"` for `/Company Name:\s*(.+)/i`. */
  function VendorOf(text: string): string
  {
    match FindLine(text, "Company Name:", true, 1)
    case Some(c) => c
    case None => "Unknown"
  }

  /** The fields read from the model's text. */
  function Extract(text: string): ExtractedData
  {
    ExtractedData(VendorOf(text), LabelledAmount(text, "Total Amount:", true))
  }

  /** The handler. The form and the vision outcome are consulted only when
      the handler reaches them. */
  function Handle(httpMethod: string, form: FormOutcome, vision: VisionOutcome): (r: Response)
    ensures r.status == 200 <==> r.body.DataBody?
  {
    if httpMethod != "POST" then Response(405, ErrorBody("Method Not Allowed"))
    else match form
      case FormError => Response(500, ErrorBody("File upload failed"))
      case FormParsed(part) =>
        if UploadedOf(part).None? then Response(400, ErrorBody("No file uploaded"))
        else match vision
          case VisionFailed => Response(500, ErrorBody("Failed to process invoice"))
          case VisionReply(None) => Response(500, ErrorBody("Failed to process invoice"))
          case VisionReply(Some(text)) => Response(200, DataBody(Extract(text)))
  }

  /** Any method other than POST is refused before the form is parsed: the
      answer is 405 whatever the form and the model would have produced. */
  lemma NonPostRefused(httpMethod: string, form: FormOutcome, vision: VisionOutcome,
                       form': FormOutcome, vision': VisionOutcome)
    requires httpMethod != "POST"
    ensures Handle(httpMethod, form, vision).status == 405
    ensures Handle(httpMethod, form, vision) == Handle(httpMethod, form', vision')
  {
  }

  /** Without a file (no part, or an empty array of them) the answer is 400
      and the model is never consulted. */
  lemma NoFileRejected(part: FilePart, vision: VisionOutcome, vision': VisionOutcome)
    requires part.NoFilePart? || (part.FileArray? && |part.files| == 0)
    ensures Handle("POST", FormParsed(part), vision).status == 400
    ensures Handle("POST", FormParsed(part), vision) == Handle("POST", FormParsed(part), vision')
  {
  }

  /** A 200 answer comes exactly from a POST with a parsed form holding a
      file and a model reply with text, and carries what that text yields. */
  lemma SuccessExactly(httpMethod: string, form: FormOutcome, vision: VisionOutcome)
    ensures Handle(httpMethod, form, vision).status == 200 <==>
      && httpMethod == "POST" && form.FormParsed? && UploadedOf(form.part).Some?
      && vision.VisionReply? && vision.content.Some?
    ensures Handle(httpMethod, form, vision).status == 200 ==>
      Handle(httpMethod, form, vision).body.data == Extract(vision.content.value)
  {
  }

  /** The vendor is the text after the leftmost "Company Name:" (any letter
      case) with the whitespace after it skipped, up to the end of its line;
      "Unknown" when there is none. It is never empty and never spans lines. */
  lemma VendorSpec(text: string)
    ensures FindLine(text, "Company Name:", true, 1).None? ==> VendorOf(text) == "Unknown"
    ensures FindLine(text, "Company Name:", true, 1).Some? ==>
      VendorOf(text) == FindLine(text, "Company Name:", true, 1).value
    ensures |VendorOf(text)| >= 1
    ensures forall j :: 0 <= j < |VendorOf(text)| ==> !IsLineTerminator(VendorOf(text)[j])
  {
    if FindLine(text, "Company Name:", true, 1).Some? {
      FindLineCapture(text, "Company Name:", true, 1);
    }
  }

  /** The total is 0 without a "Total Amount:" match and otherwise the
      value of the captured `digits.dd`; it is never NaN. */
  lemma TotalSpec(text: string)
    ensures FindAmount(text, "Total Amount:", true).None? ==> Extract(text).total == Finite(0.0)
    ensures FindAmount(text, "Total Amount:", true).Some? ==>
      var c := FindAmount(text, "Total Amount:", true).value;
      |c| >= 4 && Extract(text).total
        == Finite(DigitsValue(c[..|c| - 3]) as real + DigitsValue(c[|c| - 2..]) as real / 100.0)
    ensures Extract(text).total.Finite? && Extract(text).total.value >= 0.0
  {
    LabelledAmountValue(text, "Total Amount:", true);
  }

  /** A reply that names neither field still yields a record: vendor
      "Unknown" and total 0. */
  lemma EmptyReply()
    ensures Extract("") == ExtractedData("Unknown", Finite(0.0))
  {
    TotalSpec("");
    FindLineSpec("", "Company Name:", true, 1);
    FindAmountSpec("", "Total Amount:", true);
  }
}
