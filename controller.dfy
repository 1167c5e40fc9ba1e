/**
 * The two request handlers of server/controllers/invoice.js.  `createInvoice` is a single pass
 * of side-effecting steps with early returns; its state is the invoice counter, the temp
 * directory (whether it exists, and its files), the request's `invoiceData.details` and the
 * response.  The outcome of every call into code outside this model (the number allocator,
 * `mkdir`, the upload's `mv`, `writeFile`, `readFile`, the HTML-to-PDF converter) is an input.
 */
module Controller {
  import opened Wrappers
  import opened Strings
  import Paths
  import opened Template

  const AllowedExtensions: seq<string> := [".png", ".jpg", ".jpeg"]
  const LogoStem := "company_logo"
  const HtmlFile := "invoice.html"
  const PdfFile := "invoice.pdf"

  const EmptyPayloadMessage := "Invalid or empty payload"
  const UnsupportedFormatMessage := "Unsupported file format"
  const PdfErrorMessage := "Error generating PDF"
  const ServerErrorMessage := "Server error creating invoice"
  const CreatedMessage := "Invoice created successfully"
  const NotFoundMessage := "Invoice not found"

  /** The `companyLogo` file part: its client-side name and its bytes, as base64 text. */
  datatype Upload = Upload(name: string, base64: string)

  /**
   * What `JSON.parse` makes of the payload text: it throws, or yields a falsy value
   * (`null`, `false`, `0`, `""`), or a value with the given own keys.
   */
  datatype Parsed = SyntaxError | Falsy | Value(keys: set<string>, data: InvoiceData)

  /**
   * A create request: the raw `invoiceData` field, what `JSON.parse` yields for that text,
   * and the optional uploaded logo.
   */
  datatype Request = Request(invoiceData: Option<string>, parsed: Parsed, companyLogo: Option<Upload>)

  /** Which calls outside the model fail during one request. */
  datatype Outcomes = Outcomes(
    allocationFails: bool,
    mkdirFails: bool,
    moveFails: bool,
    writeFails: bool,
    readFails: bool,
    pdfFails: bool)

  /** The response sent: none yet, a JSON body with a status, or the PDF file. */
  datatype Response =
    | Pending
    | Json(status: nat, message: string, invoiceNumber: Option<nat>)
    | FileSent(name: string)

  /** Everything the handlers read or change. */
  datatype State = State(
    counter: nat,              // the last number the allocator handed out
    tempDir: bool,             // whether public/temp exists
    files: TempDir,            // the files in public/temp
    details: Option<Details>,  // the current request's invoiceData.details
    response: Response)

  const ServerError := Json(500, ServerErrorMessage, None)
  const EmptyPayload := Json(400, EmptyPayloadMessage, None)
  const UnsupportedFormat := Json(400, UnsupportedFormatMessage, None)
  const PdfError := Json(500, PdfErrorMessage, None)
  const NotFound := Json(404, NotFoundMessage, None)

  function Created(number: nat): Response {
    Json(200, CreatedMessage, Some(number))
  }

  /** A missing temp directory holds no files. */
  predicate Consistent(s: State) {
    !s.tempDir ==> s.files == map[]
  }

  predicate Succeeded(s: State) {
    s.response.Json? && s.response.status == 200
  }

  /** `JSON.parse(req.body.invoiceData || '{}')`: a missing or empty field parses as `{}`. */
  function PayloadOf(req: Request): (p: Parsed)
    ensures req.invoiceData.None? || req.invoiceData == Some([]) ==> p == Value({}, InvoiceData(None, None))
  {
    if req.invoiceData.None? || req.invoiceData == Some([]) then Value({}, InvoiceData(None, None))
    else req.parsed
  }

  /** `!invoiceData || Object.keys(invoiceData).length === 0`. */
  predicate IsEmptyPayload(p: Parsed) {
    p.Falsy? || (p.Value? && p.keys == {})
  }

  /** `path.extname(companyLogo.name).toLowerCase()`. */
  function LogoExtension(name: string): string {
    ToLower(Paths.ExtName(name))
  }

  /** `allowedExtensions.includes(ext)`. */
  predicate IsAllowedLogo(name: string) {
    LogoExtension(name) in AllowedExtensions
  }

  /** `'company_logo' + ext`. */
  function LogoFileName(name: string): string {
    LogoStem + LogoExtension(name)
  }

  /** The logo name the request leaves in `details.companyLogo`. */
  function ChosenLogo(upload: Option<Upload>): string {
    match upload
    case None => DefaultLogo
    case Some(u) => LogoFileName(u.name)
  }

  /** The number was handed out: the payload parsed, was not empty, and the allocator answered. */
  predicate Allocates(req: Request, env: Outcomes) {
    var p := PayloadOf(req);
    !p.SyntaxError? && !IsEmptyPayload(p) && !env.allocationFails
  }

  /** The request got as far as looking at the uploaded logo. */
  predicate ReachesLogo(s: State, req: Request, env: Outcomes) {
    Allocates(req, env) && PayloadOf(req).data.details.Some? && (s.tempDir || !env.mkdirFails)
  }

  /** `createInvoice`, from the state before the request to the state after its response. */
  function Create(s: State, req: Request, env: Outcomes): State {
    var p := PayloadOf(req);
    var s0 := s.(details := if p.Value? then p.data.details else None);
    if p.SyntaxError? then s0.(response := ServerError)
    else if IsEmptyPayload(p) then s0.(response := EmptyPayload)
    else if env.allocationFails then s0.(response := ServerError)
    else if p.data.details.None? then s0.(counter := s.counter + 1, response := ServerError)
    else if !s.tempDir && env.mkdirFails then Prepare(s, p).(tempDir := false, response := ServerError)
    else StoreLogo(Prepare(s, p), req.companyLogo, p.data.lineItems, env)
  }

  /**
   * The state once the number is allocated and written into `details.invoiceNumber` and the
   * temp directory exists.
   */
  function Prepare(s: State, p: Parsed): (t: State)
    requires p.Value? && p.data.details.Some?
    ensures t.details.Some? && t.tempDir
  {
    var number := s.counter + 1;
    s.(counter := number, tempDir := true,
       details := Some(p.data.details.value.(invoiceNumber := Some(number))))
  }

  /** The logo step of `createInvoice`: validate and move the upload, or fall back to the default name. */
  function StoreLogo(s: State, upload: Option<Upload>, lineItems: Option<seq<LineItem>>, env: Outcomes): State
    requires s.details.Some?
  {
    match upload
    case None =>
      Publish(s.(details := Some(s.details.value.(companyLogo := Some(DefaultLogo)))), lineItems, env)
    case Some(u) =>
      if !IsAllowedLogo(u.name) then s.(response := UnsupportedFormat)
      else if env.moveFails then s.(response := ServerError)
      else
        var name := LogoFileName(u.name);
        Publish(s.(files := s.files[name := Image(u.base64)],
                   details := Some(s.details.value.(companyLogo := Some(name)))), lineItems, env)
  }

  /** The rest of `createInvoice`: render, write and re-read the HTML, convert it to the PDF. */
  function Publish(s: State, lineItems: Option<seq<LineItem>>, env: Outcomes): State
    requires s.details.Some?
  {
    match Render(InvoiceData(s.details, lineItems), s.files)
    case None => s.(response := ServerError)
    case Some(page) =>
      if env.writeFails then s.(response := ServerError)
      else
        var written := s.(files := s.files[HtmlFile := Html(page)]);
        if env.readFails then written.(response := ServerError)
        else if env.pdfFails then written.(response := PdfError)
        else written.(files := written.files[PdfFile := Pdf(written.files[HtmlFile].page)],
                      response := Created(s.counter))
  }

  /** `sendInvoice`: the PDF when it exists, 404 otherwise; nothing else changes. */
  function Send(s: State): (t: State)
    ensures t.response == NotFound <==> PdfFile !in s.files
    ensures t.response != NotFound ==> t.response == FileSent(PdfFile)
    ensures t.(response := s.response) == s
  {
    if PdfFile !in s.files then s.(response := NotFound) else s.(response := FileSent(PdfFile))
  }

  /** The temp directory's files once the upload, if any, has been moved in. */
  function WithLogo(files: TempDir, upload: Option<Upload>): TempDir {
    match upload
    case None => files
    case Some(u) => files[LogoFileName(u.name) := Image(u.base64)]
  }

  /** Every step of the request after the number allocation went through. */
  predicate Completes(s: State, req: Request, env: Outcomes) {
    var p := PayloadOf(req);
    && ReachesLogo(s, req, env)
    && (req.companyLogo.Some? ==> IsAllowedLogo(req.companyLogo.value.name) && !env.moveFails)
    && p.data.lineItems.Some?
    && !env.writeFails && !env.readFails && !env.pdfFails
  }

  /** What the last steps can answer, and what they leave alone. */
  lemma PublishFacts(s: State, lineItems: Option<seq<LineItem>>, env: Outcomes)
    requires s.details.Some?
    ensures var t := Publish(s, lineItems, env);
      && t.counter == s.counter && t.tempDir == s.tempDir && t.details == s.details
      && (t.response == ServerError || t.response == PdfError || t.response == Created(s.counter))
      && (t.response == PdfError <==> lineItems.Some? && !env.writeFails && !env.readFails && env.pdfFails)
      && (t.response == Created(s.counter) <==>
            lineItems.Some? && !env.writeFails && !env.readFails && !env.pdfFails)
      && (t.response != Created(s.counter) ==>
            (PdfFile in t.files <==> PdfFile in s.files) &&
            (PdfFile in s.files ==> t.files[PdfFile] == s.files[PdfFile]))
  {
    var t := Publish(s, lineItems, env);
    RenderShows(InvoiceData(s.details, lineItems), s.files);
    if lineItems.Some? && !env.writeFails && !env.readFails && !env.pdfFails {
      assert t.response == Created(s.counter);
    }
  }

  /** What the logo step and the steps after it can answer, and what they leave alone. */
  lemma StoreLogoFacts(s: State, upload: Option<Upload>, lineItems: Option<seq<LineItem>>, env: Outcomes)
    requires s.details.Some?
    ensures var t := StoreLogo(s, upload, lineItems, env);
      && t.counter == s.counter && t.tempDir == s.tempDir
      && (t.response == UnsupportedFormat || t.response == ServerError || t.response == PdfError ||
          t.response == Created(s.counter))
      && (t.response == UnsupportedFormat <==> upload.Some? && !IsAllowedLogo(upload.value.name))
      && (t.response == UnsupportedFormat ==> t.files == s.files && t.details == s.details)
  {
    match upload
    case None =>
      PublishFacts(s.(details := Some(s.details.value.(companyLogo := Some(DefaultLogo)))), lineItems, env);
    case Some(u) =>
      if IsAllowedLogo(u.name) && !env.moveFails {
        var name := LogoFileName(u.name);
        PublishFacts(s.(files := s.files[name := Image(u.base64)],
                        details := Some(s.details.value.(companyLogo := Some(name)))), lineItems, env);
      }
  }

  /** Anything but success from the logo step on leaves `invoice.pdf` as it was. */
  lemma StoreLogoKeepsPdf(s: State, upload: Option<Upload>, lineItems: Option<seq<LineItem>>, env: Outcomes)
    requires s.details.Some?
    ensures var t := StoreLogo(s, upload, lineItems, env);
      t.response != Created(s.counter) ==>
        && (PdfFile in t.files <==> PdfFile in s.files)
        && (PdfFile in s.files ==> t.files[PdfFile] == s.files[PdfFile])
  {
    match upload
    case None =>
      PublishFacts(s.(details := Some(s.details.value.(companyLogo := Some(DefaultLogo)))), lineItems, env);
    case Some(u) =>
      if IsAllowedLogo(u.name) && !env.moveFails {
        var name := LogoFileName(u.name);
        assert name != PdfFile;
        PublishFacts(s.(files := s.files[name := Image(u.base64)],
                        details := Some(s.details.value.(companyLogo := Some(name)))), lineItems, env);
      }
  }

  /** From the logo step on, the PDF error comes exactly when only the converter stands in the way. */
  lemma StoreLogoPdfError(s: State, upload: Option<Upload>, lineItems: Option<seq<LineItem>>, env: Outcomes)
    requires s.details.Some?
    ensures StoreLogo(s, upload, lineItems, env).response == PdfError <==>
      env.pdfFails && StoreLogo(s, upload, lineItems, env.(pdfFails := false)).response == Created(s.counter)
  {
    var ok := env.(pdfFails := false);
    match upload
    case None =>
      var s1 := s.(details := Some(s.details.value.(companyLogo := Some(DefaultLogo))));
      PublishFacts(s1, lineItems, env);
      PublishFacts(s1, lineItems, ok);
    case Some(u) =>
      if IsAllowedLogo(u.name) && !env.moveFails {
        var name := LogoFileName(u.name);
        var s1 := s.(files := s.files[name := Image(u.base64)],
                     details := Some(s.details.value.(companyLogo := Some(name))));
        PublishFacts(s1, lineItems, env);
        PublishFacts(s1, lineItems, ok);
      }
  }

  /** A request never leaves files behind in a temp directory that does not exist. */
  lemma CreateKeepsConsistent(s: State, req: Request, env: Outcomes)
    requires Consistent(s)
    ensures Consistent(Create(s, req, env))
  {
    var p := PayloadOf(req);
    if ReachesLogo(s, req, env) {
      StoreLogoFacts(Prepare(s, p), req.companyLogo, p.data.lineItems, env);
    }
  }

  /**
   * One number is allocated exactly when the payload parsed, was not empty and the allocator
   * answered; it is never handed back, whatever fails later.
   */
  lemma CreateAllocation(s: State, req: Request, env: Outcomes)
    ensures Create(s, req, env).counter == if Allocates(req, env) then s.counter + 1 else s.counter
  {
    var p := PayloadOf(req);
    if ReachesLogo(s, req, env) {
      StoreLogoFacts(Prepare(s, p), req.companyLogo, p.data.lineItems, env);
    }
  }

  /** The empty-payload answer is given exactly for an empty payload, and before any allocation. */
  lemma EmptyPayloadRejected(s: State, req: Request, env: Outcomes)
    ensures Create(s, req, env).response == EmptyPayload <==> IsEmptyPayload(PayloadOf(req))
    ensures IsEmptyPayload(PayloadOf(req)) ==>
      var t := Create(s, req, env);
      t.counter == s.counter && t.tempDir == s.tempDir && t.files == s.files
  {
    var p := PayloadOf(req);
    if ReachesLogo(s, req, env) {
      StoreLogoFacts(Prepare(s, p), req.companyLogo, p.data.lineItems, env);
    }
  }

  /**
   * The unsupported-format answer is given exactly when an upload's lower-cased extension is not
   * allowed, once the request got that far; by then the number is allocated and the directory
   * exists, and the upload is not moved.
   */
  lemma UnsupportedFormatRejected(s: State, req: Request, env: Outcomes)
    ensures Create(s, req, env).response == UnsupportedFormat <==>
      ReachesLogo(s, req, env) && req.companyLogo.Some? && !IsAllowedLogo(req.companyLogo.value.name)
    ensures Create(s, req, env).response == UnsupportedFormat ==>
      var t := Create(s, req, env);
      && t.counter == s.counter + 1
      && t.tempDir
      && t.files == s.files
      && t.details == Some(PayloadOf(req).data.details.value.(invoiceNumber := Some(t.counter)))
  {
    var p := PayloadOf(req);
    if ReachesLogo(s, req, env) {
      StoreLogoFacts(Prepare(s, p), req.companyLogo, p.data.lineItems, env);
    }
  }

  /**
   * A request succeeds exactly when every step goes through; it then answers with the number it
   * allocated, which is also in `details.invoiceNumber`; the logo name is `company_logo` plus the
   * upload's extension, or `company_logo.jpg` without upload; and `invoice.html` and
   * `invoice.pdf` both hold the invoice rendered from those details and the directory's files.
   */
  lemma CreatedResponse(s: State, req: Request, env: Outcomes)
    ensures Succeeded(Create(s, req, env)) <==> Completes(s, req, env)
    ensures Succeeded(Create(s, req, env)) ==>
      var t, p := Create(s, req, env), PayloadOf(req);
      var details := p.data.details.value.(invoiceNumber := Some(t.counter),
                                           companyLogo := Some(ChosenLogo(req.companyLogo)));
      var files := WithLogo(s.files, req.companyLogo);
      var page := Render(InvoiceData(Some(details), p.data.lineItems), files);
      && t.response == Created(t.counter)
      && t.counter == s.counter + 1
      && t.details == Some(details)
      && page.Some?
      && t.files == files[HtmlFile := Html(page.value)][PdfFile := Pdf(page.value)]
  {
    var p := PayloadOf(req);
    CreateSplit(s, req, env);
    if ReachesLogo(s, req, env) {
      var s1 := Prepare(s, p);
      StoreLogoFacts(s1, req.companyLogo, p.data.lineItems, env);
      StoreLogoSuccess(s1, req.companyLogo, p.data.lineItems, env);
      assert s1.files == s.files;
    }
  }

  /** From the logo step on: when success comes, and what the directory and details then hold. */
  lemma StoreLogoSuccess(s: State, upload: Option<Upload>, lineItems: Option<seq<LineItem>>, env: Outcomes)
    requires s.details.Some?
    ensures var t := StoreLogo(s, upload, lineItems, env);
      t.response == Created(s.counter) <==>
        && (upload.Some? ==> IsAllowedLogo(upload.value.name) && !env.moveFails)
        && lineItems.Some? && !env.writeFails && !env.readFails && !env.pdfFails
    ensures var t := StoreLogo(s, upload, lineItems, env);
      t.response == Created(s.counter) ==>
        var details := s.details.value.(companyLogo := Some(ChosenLogo(upload)));
        var files := WithLogo(s.files, upload);
        var page := Render(InvoiceData(Some(details), lineItems), files);
        && t.details == Some(details)
        && page.Some?
        && t.files == files[HtmlFile := Html(page.value)][PdfFile := Pdf(page.value)]
  {
    match upload
    case None =>
      PublishFacts(s.(details := Some(s.details.value.(companyLogo := Some(DefaultLogo)))), lineItems, env);
    case Some(u) =>
      if IsAllowedLogo(u.name) && !env.moveFails {
        var name := LogoFileName(u.name);
        PublishFacts(s.(files := s.files[name := Image(u.base64)],
                        details := Some(s.details.value.(companyLogo := Some(name)))), lineItems, env);
      }
  }


  /**
   * The PDF-error answer is distinct from every other failure: it is given exactly when the
   * request would have succeeded but for the converter, and the previous `invoice.pdf` stays.
   */
  lemma PdfFailureIsDistinct(s: State, req: Request, env: Outcomes)
    ensures Create(s, req, env).response == PdfError <==>
      env.pdfFails && Succeeded(Create(s, req, env.(pdfFails := false)))
    ensures Create(s, req, env).response == PdfError ==>
      var t := Create(s, req, env);
      && t.counter == s.counter + 1
      && (PdfFile in t.files <==> PdfFile in s.files)
      && (PdfFile in s.files ==> t.files[PdfFile] == s.files[PdfFile])
  {
    var p := PayloadOf(req);
    var ok := env.(pdfFails := false);
    CreateSplit(s, req, env);
    CreateSplit(s, req, ok);
    if ReachesLogo(s, req, env) {
      var s1 := Prepare(s, p);
      StoreLogoFacts(s1, req.companyLogo, p.data.lineItems, ok);
      StoreLogoFacts(s1, req.companyLogo, p.data.lineItems, env);
      StoreLogoPdfError(s1, req.companyLogo, p.data.lineItems, env);
      StoreLogoKeepsPdf(s1, req.companyLogo, p.data.lineItems, env);
    }
  }


  /**
   * Every other failure is the generic server error: a payload that is not JSON (no number is
   * allocated), a payload without `details` (after the number is allocated), and a payload
   * without `lineItems`.
   */
  lemma ServerErrorCases(s: State, req: Request, env: Outcomes)
    ensures PayloadOf(req).SyntaxError? ==>
      Create(s, req, env).response == ServerError && Create(s, req, env).counter == s.counter
    ensures Allocates(req, env) && PayloadOf(req).data.details.None? ==>
      Create(s, req, env).response == ServerError && Create(s, req, env).counter == s.counter + 1
    ensures ReachesLogo(s, req, env) && PayloadOf(req).data.lineItems.None? &&
            (req.companyLogo.Some? ==> IsAllowedLogo(req.companyLogo.value.name)) ==>
      Create(s, req, env).response == ServerError
  {
    var p := PayloadOf(req);
    if ReachesLogo(s, req, env) && p.data.lineItems.None? {
      var s1 := Prepare(s, p);
      match req.companyLogo
      case None =>
        PublishFacts(s1.(details := Some(s1.details.value.(companyLogo := Some(DefaultLogo)))), p.data.lineItems, env);
      case Some(u) =>
        if IsAllowedLogo(u.name) && !env.moveFails {
          var name := LogoFileName(u.name);
          PublishFacts(s1.(files := s1.files[name := Image(u.base64)],
                           details := Some(s1.details.value.(companyLogo := Some(name)))), p.data.lineItems, env);
        }
    }
  }

  /** The handler answers with one of exactly five responses. */
  lemma CreateResponses(s: State, req: Request, env: Outcomes)
    ensures var r := Create(s, req, env).response;
      r == EmptyPayload || r == UnsupportedFormat || r == ServerError || r == PdfError ||
      r == Created(Create(s, req, env).counter)
  {
    var p := PayloadOf(req);
    if ReachesLogo(s, req, env) {
      StoreLogoFacts(Prepare(s, p), req.companyLogo, p.data.lineItems, env);
    }
  }

  /** Numbers of successful creations strictly increase, whatever happens in between. */
  lemma NumbersIncrease(s1: State, r1: Request, e1: Outcomes, s2: State, r2: Request, e2: Outcomes)
    requires Succeeded(Create(s1, r1, e1))
    requires s2.counter >= Create(s1, r1, e1).counter
    requires Succeeded(Create(s2, r2, e2))
    ensures var n1, n2 := Create(s1, r1, e1).response.invoiceNumber, Create(s2, r2, e2).response.invoiceNumber;
      n1.Some? && n2.Some? && n2.value > n1.value
  {
    SuccessNumber(s1, r1, e1);
    SuccessNumber(s2, r2, e2);
  }

  /** A successful answer carries the number this request allocated. */
  lemma SuccessNumber(s: State, req: Request, env: Outcomes)
    requires Succeeded(Create(s, req, env))
    ensures Create(s, req, env).response == Created(s.counter + 1)
    ensures Create(s, req, env).counter == s.counter + 1
  {
    var p := PayloadOf(req);
    StoreLogoFacts(Prepare(s, p), req.companyLogo, p.data.lineItems, env);
  }

  /** After a successful creation, retrieval sends the PDF converted from the HTML just written. */
  lemma SendAfterCreate(s: State, req: Request, env: Outcomes)
    requires Succeeded(Create(s, req, env))
    ensures var t := Create(s, req, env);
      && Send(t).response == FileSent(PdfFile)
      && HtmlFile in t.files && PdfFile in t.files
      && t.files[HtmlFile].Html?
      && t.files[PdfFile] == Pdf(t.files[HtmlFile].page)
  {
    CreatedResponse(s, req, env);
    var t := Create(s, req, env);
    assert HtmlFile != PdfFile;
  }

  /**
   * What the temp-directory invariant buys retrieval: while the directory does not exist, nothing
   * inside it does, so `existsSync` on `invoice.pdf` fails and the answer is 404.
   */
  lemma MissingDirectoryNotFound(s: State)
    requires Consistent(s) && !s.tempDir
    ensures Send(s).response == NotFound
  {
    assert PdfFile !in s.files;
  }

  /** Until a creation succeeds there is no `invoice.pdf`, so retrieval answers 404. */
  lemma NoPdfUntilSuccess(s: State, req: Request, env: Outcomes)
    requires PdfFile !in s.files
    requires !Succeeded(Create(s, req, env))
    ensures PdfFile !in Create(s, req, env).files
    ensures Send(Create(s, req, env)).response == NotFound
  {
    var p := PayloadOf(req);
    CreateSplit(s, req, env);
    if ReachesLogo(s, req, env) {
      var s1 := Prepare(s, p);
      StoreLogoFacts(s1, req.companyLogo, p.data.lineItems, env);
      StoreLogoKeepsPdf(s1, req.companyLogo, p.data.lineItems, env);
      assert Create(s, req, env).response != Created(s1.counter);
    }
  }

  /**
   * `createInvoice` either stops before the logo step, with an error and its files untouched, or
   * hands the prepared state to the logo step.
   */
  lemma CreateSplit(s: State, req: Request, env: Outcomes)
    ensures ReachesLogo(s, req, env) ==>
      var p := PayloadOf(req);
      Create(s, req, env) == StoreLogo(Prepare(s, p), req.companyLogo, p.data.lineItems, env)
    ensures !ReachesLogo(s, req, env) ==>
      var t := Create(s, req, env);
      && t.files == s.files
      && (t.response == ServerError || t.response == EmptyPayload)
  {
  }

  /** Each allowed extension is a dot followed by lower-case letters. */
  lemma AllowedShape(ext: string)
    requires ext in AllowedExtensions
    ensures |ext| >= 4 && ext[0] == '.'
    ensures forall i :: 1 <= i < |ext| ==> ext[i] != '.' && ext[i] != '/' && !IsUpper(ext[i])
  {
    assert ext == ".png" || ext == ".jpg" || ext == ".jpeg";
  }

  /** The lower-cased extension still has the shape of an extension. */
  lemma LogoExtensionShape(name: string)
    ensures var ext := LogoExtension(name);
      ext == [] || (ext[0] == '.' && '.' !in ext[1..] && '/' !in ext)
  {
    var e := Paths.ExtName(name);
    var ext := LogoExtension(name);
    ToLowerShape(e);
    if ext != [] {
      forall i | 0 <= i < |ext| - 1
        ensures ext[1..][i] != '.'
      {
        assert e[1..][i] == e[i + 1];
      }
    }
  }

  /**
   * An upload is accepted exactly when its last path component ends, after at least one other
   * character, in `.png`, `.jpg` or `.jpeg` in any mix of upper and lower case.
   */
  lemma AllowedLogoIff(name: string)
    ensures IsAllowedLogo(name) <==>
      var b := Paths.Basename(name);
      exists k :: 0 < k < |b| && ToLower(From(b, k)) in AllowedExtensions
  {
    var b := Paths.Basename(name);
    if IsAllowedLogo(name) {
      AllowedHasSuffix(name);
    }
    if k :| 0 < k < |b| && ToLower(From(b, k)) in AllowedExtensions {
      assert From(b, k) == b[k..];
      SuffixIsAllowed(name, k);
    }
  }

  /** `b` from index `k` on. */
  function From(b: string, k: nat): string
    requires k <= |b|
  {
    b[k..]
  }

  /** An accepted upload's extension is a proper suffix of its last component. */
  lemma AllowedHasSuffix(name: string)
    requires IsAllowedLogo(name)
    ensures var b := Paths.Basename(name);
      exists k :: 0 < k < |b| && ToLower(From(b, k)) in AllowedExtensions
  {
    var e := Paths.ExtName(name);
    var b := Paths.Basename(name);
    assert ToLower(e) == LogoExtension(name);
    AllowedShape(ToLower(e));
    assert e != [];
    assert |e| < |b| && b[|b| - |e|..] == e;
    SuffixWitness(b, e);
  }

  /** A proper non-empty suffix of `b` whose lower-case form is allowed is a witness. */
  lemma SuffixWitness(b: string, e: string)
    requires e != [] && |e| < |b| && b[|b| - |e|..] == e
    requires ToLower(e) in AllowedExtensions
    ensures exists k :: 0 < k < |b| && ToLower(From(b, k)) in AllowedExtensions
  {
    var k := |b| - |e|;
    assert From(b, k) == e;
    assert 0 < k < |b| && ToLower(From(b, k)) in AllowedExtensions;
  }

  /** A proper suffix whose lower-case form is allowed is the extension `extname` finds. */
  lemma SuffixIsAllowed(name: string, k: nat)
    requires var b := Paths.Basename(name);
      0 < k < |b| && ToLower(b[k..]) in AllowedExtensions
    ensures IsAllowedLogo(name)
  {
    var b := Paths.Basename(name);
    AllowedTail(b, k);
    Paths.ExtNameFromLastDot(name, k);
    assert Paths.ExtName(name) == b[k..];
  }

  /** A suffix whose lower-case form is allowed starts with the last dot of `b`. */
  lemma AllowedTail(b: string, k: nat)
    requires 0 < k < |b| && ToLower(b[k..]) in AllowedExtensions
    ensures b[k] == '.' && b != ".."
    ensures forall j :: k < j < |b| ==> b[j] != '.'
  {
    var e := b[k..];
    var ext := ToLower(e);
    ToLowerShape(e);
    AllowedShape(ext);
    assert b[k] == e[0];
    forall j | k < j < |b|
      ensures b[j] != '.'
    {
      assert e[j - k] == b[j];
    }
  }

  /**
   * The name an upload is saved under has an extension the template maps to a MIME type exactly
   * when the upload was accepted: every accepted logo can be embedded.
   */
  lemma SavedLogoHasMime(name: string)
    ensures LogoMime(LogoFileName(name)) != [] <==> IsAllowedLogo(name)
  {
    SavedLogoMime(name);
    MimeIffAllowed(LogoExtension(name));
  }

  /** The template reads the saved name's MIME type off the upload's lower-cased extension. */
  lemma SavedLogoMime(name: string)
    ensures LogoMime(LogoFileName(name)) == MimeType(LogoExtension(name))
  {
    var ext := LogoExtension(name);
    LogoExtensionShape(name);
    Paths.ExtNameOfExtension(LogoStem, ext);
    ToLowerIdempotent(Paths.ExtName(name));
  }

  /** The template maps exactly the allowed extensions to a MIME type. */
  lemma MimeIffAllowed(ext: string)
    ensures MimeType(ext) != [] <==> ext in AllowedExtensions
  {
    assert ext in AllowedExtensions <==> ext == ".png" || ext == ".jpg" || ext == ".jpeg";
  }

  /** The default logo name maps to JPEG. */
  lemma DefaultLogoIsJpeg()
    ensures LogoMime(DefaultLogo) == "image/jpeg"
  {
    ToLowerOfLower(".jpg");
    assert DefaultLogo == LogoStem + "." + "jpg";
    Paths.ExtNameOfStem(LogoStem, "jpg");
  }

  /** After a successful creation with an upload, the generated invoice shows the uploaded logo. */
  lemma UploadedLogoIsShown(s: State, req: Request, env: Outcomes)
    requires Succeeded(Create(s, req, env)) && req.companyLogo.Some?
    ensures var t, u := Create(s, req, env), req.companyLogo.value;
      && PdfFile in t.files && t.files[PdfFile].Pdf?
      && t.files[PdfFile].page.logo ==
           LogoCell("data:" + MimeType(LogoExtension(u.name)) + ";base64," + u.base64)
  {
    CreatedResponse(s, req, env);
    var t, p, u := Create(s, req, env), PayloadOf(req), req.companyLogo.value;
    var name := LogoFileName(u.name);
    var details := p.data.details.value.(invoiceNumber := Some(t.counter), companyLogo := Some(name));
    var files := WithLogo(s.files, req.companyLogo);
    assert files == s.files[name := Image(u.base64)];
    UploadedLogoUri(u.name, u.base64, s.files);
    RenderShows(InvoiceData(Some(details), p.data.lineItems), files);
    assert Resolve(details).companyLogo == name;
  }

  /** An accepted upload, once saved, is embedded as a data URI of its own content. */
  lemma UploadedLogoUri(name: string, base64: string, files: TempDir)
    requires IsAllowedLogo(name)
    ensures LogoBase64(LogoFileName(name), files[LogoFileName(name) := Image(base64)]) ==
      "data:" + MimeType(LogoExtension(name)) + ";base64," + base64
  {
    var saved := LogoFileName(name);
    SavedLogoHasMime(name);
    SavedLogoMime(name);
    assert files[saved := Image(base64)][saved] == Image(base64);
  }


  /**
   * Without an upload the invoice shows a logo exactly when the temp directory already holds an
   * image named `company_logo.jpg`.
   */
  lemma DefaultLogoShownIff(s: State, req: Request, env: Outcomes)
    requires Succeeded(Create(s, req, env)) && req.companyLogo.None?
    ensures var t := Create(s, req, env);
      && PdfFile in t.files && t.files[PdfFile].Pdf?
      && (t.files[PdfFile].page.logo != [] <==> DefaultLogo in s.files && s.files[DefaultLogo].Image?)
  {
    CreatedResponse(s, req, env);
    var t, p := Create(s, req, env), PayloadOf(req);
    var details := p.data.details.value.(invoiceNumber := Some(t.counter), companyLogo := Some(DefaultLogo));
    DefaultLogoIsJpeg();
    RenderShows(InvoiceData(Some(details), p.data.lineItems), s.files);
    assert Resolve(details).companyLogo == DefaultLogo;
  }

  class InvoiceController {
    var counter: nat
    var tempDir: bool
    var files: TempDir
    var details: Option<Details>
    var response: Response

    function Snapshot(): State
      reads this
    {
      State(counter, tempDir, files, details, response)
    }

    /** The temp-directory invariant (see `MissingDirectoryNotFound` for what it guarantees). */
    predicate Valid()
      reads this
    {
      Consistent(Snapshot())
    }

    constructor (counter: nat, tempDir: bool, files: TempDir)
      requires !tempDir ==> files == map[]
      ensures Valid()
      ensures Snapshot() == State(counter, tempDir, files, None, Pending)
    {
      this.counter := counter;
      this.tempDir := tempDir;
      this.files := files;
      this.details := None;
      this.response := Pending;
    }

    /** `createInvoice`, step by step. */
    method CreateInvoice(req: Request, env: Outcomes)
      requires Valid()
      modifies this
      ensures Valid()
      ensures Snapshot() == Create(old(Snapshot()), req, env)
    {
      ghost var before := Snapshot();
      var invoiceData := PayloadOf(req);
      details := if invoiceData.Value? then invoiceData.data.details else None;
      if invoiceData.SyntaxError? {
        response := ServerError;
        return;
      }
      if IsEmptyPayload(invoiceData) {
        response := EmptyPayload;
        return;
      }

      if env.allocationFails {
        response := ServerError;
        return;
      }
      counter := counter + 1;
      var newInvoiceNumber := counter;
      if details.None? {
        response := ServerError;
        return;
      }
      details := Some(details.value.(invoiceNumber := Some(newInvoiceNumber)));

      if !tempDir {
        if env.mkdirFails {
          response := ServerError;
          return;
        }
        tempDir := true;
      }

      assert Snapshot() == Prepare(before, invoiceData);
      StoreLogoStep(req.companyLogo, invoiceData.data.lineItems, env);
    }

    /** From the logo check on: `createInvoice` once the number is set and the directory exists. */
    method StoreLogoStep(upload: Option<Upload>, lineItems: Option<seq<LineItem>>, env: Outcomes)
      requires Valid() && tempDir && details.Some?
      modifies this
      ensures Valid()
      ensures Snapshot() == StoreLogo(old(Snapshot()), upload, lineItems, env)
    {
      ghost var before := Snapshot();
      if upload.Some? {
        var companyLogo := upload.value;
        var ext := LogoExtension(companyLogo.name);  // path.extname(name).toLowerCase()
        var logoFileName := LogoStem + ext;
        if ext !in AllowedExtensions {
          response := UnsupportedFormat;
          return;
        }
        if env.moveFails {
          response := ServerError;
          return;
        }
        SaveLogo(logoFileName, companyLogo.base64);
      } else {
        details := Some(details.value.(companyLogo := Some(DefaultLogo)));
        assert Snapshot() == before.(details := Some(before.details.value.(companyLogo := Some(DefaultLogo))));
      }
      PublishStep(lineItems, env);
    }

    /** `companyLogo.mv(savePath)` and `details.companyLogo = logoFileName`. */
    method SaveLogo(logoFileName: string, base64: string)
      requires Valid() && tempDir && details.Some?
      modifies this
      ensures Valid() && tempDir && details.Some?
      ensures Snapshot() == old(Snapshot()).(files := old(files)[logoFileName := Image(base64)],
                                             details := Some(old(details).value.(companyLogo := Some(logoFileName))))
    {
      files := files[logoFileName := Image(base64)];
      details := Some(details.value.(companyLogo := Some(logoFileName)));
    }

    /** Render the template, write and re-read `invoice.html`, convert it to `invoice.pdf`. */
    method PublishStep(lineItems: Option<seq<LineItem>>, env: Outcomes)
      requires Valid() && tempDir && details.Some?
      modifies this
      ensures Valid()
      ensures Snapshot() == Publish(old(Snapshot()), lineItems, env)
    {
      var htmlContent := DefaultTemplate(InvoiceData(details, lineItems), files);
      if htmlContent.None? {
        response := ServerError;
        return;
      }
      if env.writeFails {
        response := ServerError;
        return;
      }
      files := files[HtmlFile := Html(htmlContent.value)];
      if env.readFails {
        response := ServerError;
        return;
      }
      var invoiceHtml := files[HtmlFile].page;

      if env.pdfFails {
        response := PdfError;
        return;
      }
      files := files[PdfFile := Pdf(invoiceHtml)];
      response := Created(counter);
    }

    /** `sendInvoice`. */
    method SendInvoice()
      requires Valid()
      modifies this`response
      ensures Valid()
      ensures Snapshot() == Send(old(Snapshot()))
    {
      if PdfFile !in files {
        response := NotFound;
        return;
      }
      response := FileSent(PdfFile);
    }
  }
}
