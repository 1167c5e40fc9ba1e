# Invoice backend: verified model of the template and the create/send handlers

This project models the two pieces of the invoice backend that carry logic:

- the **invoice template** (`server/invoices/index.js`), a function from an invoice record and
  the files of the temp directory to the rendered invoice. It fills in default field values,
  picks the logo's MIME type from its lower-cased extension and embeds the logo only when it
  built a data URI, turns each line item into one table row in input order, and accumulates the
  total as the sum of `quantity × price` (a missing or zero field counts as 0). It also rewrites
  each `/` in an address as `<br/>`;
- the **create and send handlers** (`server/controllers/invoice.js`), modelled as a small state
  machine. The state holds the invoice counter, whether the temp directory exists, its files, the
  request's `invoiceData.details` and the response. `createInvoice` rejects an empty payload
  with 400 before a number is allocated. It then allocates the number and makes sure the temp
  directory exists, and only after that checks the uploaded logo's extension against
  `.png`/`.jpg`/`.jpeg`. It saves the logo as `company_logo<ext>` (or falls back to
  `company_logo.jpg`), renders, writes and re-reads `invoice.html`, and converts it to
  `invoice.pdf`. `sendInvoice` answers 404 exactly when `invoice.pdf` is absent.

Modules, one per concern:

- `wrappers.dfy` (`Wrappers`): `Option`, standing for a JavaScript value that may be `undefined`.
- `strings.dfy` (`Strings`): `toLowerCase`, `split` on one character, `join`, and the
  character-wise replacement that split-then-join amounts to.
- `paths.dfy` (`Paths`): Node's POSIX `path.extname`. Trailing slashes are dropped and the
  last component is taken. The extension runs from that component's last dot. It is "" when
  there is no dot, when the last dot is the component's first character, or when the component
  is `..`.
- `template.dfy` (`Template`): the template. The page is a structured `Document`. Each call
  `moneyFormat(currency, amount)` is kept as the pair of its arguments (`Money`).
  `BuildLineItems` is the `forEach` loop as a method, proved against `RowsOf` and `TotalOf`.
  `DefaultTemplate` is the template as a method, proved equal to the function `Render`.
- `controller.dfy` (`Controller`): the function `Create` gives the state after `createInvoice`
  and `Send` the state after `sendInvoice`. The class `InvoiceController` holds the state in
  fields. Its methods `CreateInvoice` and `SendInvoice` follow the handlers step by step and
  are proved equal to `Create` and `Send`. The outcome of each call into code outside the model
  is an input (`Outcomes`): the number allocator, `mkdir`, the upload's `mv`, `writeFile`,
  `readFile` and the HTML-to-PDF converter. So is what `JSON.parse` makes of the payload
  (`Parsed`).

An unsupported logo is rejected only after the invoice number has been allocated and the temp
directory created (`server/controllers/invoice.js:21-28` run before the extension check at line
38). `UnsupportedFormatRejected` states that order.

## Model

| member | source | states |
|---|---|---|
| `Strings.ToLower` | server/controllers/invoice.js:34 | the lower-cased name has the same length and each character is the lower-case form of the original one |
| `Strings.ToLowerShape` | server/controllers/invoice.js:34 | lower-casing leaves no upper-case letter, keeps every non-letter, and keeps dots and slashes exactly where they were |
| `Strings.ToLowerIdempotent` | server/invoices/index.js:30 | lower-casing an already lower-cased extension changes nothing |
| `Strings.Split` | server/invoices/index.js:150 | `split('/')` yields at least one piece and no piece contains the separator |
| `Strings.JoinSplit` | server/invoices/index.js:150 | `split('/')` followed by `join('<br/>')` is the same as replacing every `/` by `<br/>` |
| `Strings.SplitJoinRoundTrip` | server/invoices/index.js:150 | joining the pieces back with the separator restores the address |
| `Strings.ReplaceAllAppend` | server/invoices/index.js:155 | the replacement works piece by piece and never looks across a boundary |
| `Strings.ReplaceAllAbsent` | server/invoices/index.js:155 | an address without `/` is rendered unchanged |
| `Strings.ReplaceAllAt` | server/invoices/index.js:150 | around any one character, a `/` becomes `<br/>`, any other character stays as it is, and the two sides are rewritten independently |
| `Paths.LastIndexOf` | server/controllers/invoice.js:34 | the index found holds the character and no later index does; -1 means the character does not occur |
| `Paths.Basename` | server/controllers/invoice.js:34 | the component `extname` looks at has no slash and is the whole name when the name has none |
| `Paths.BasenameAfterLastSlash` | server/controllers/invoice.js:34 | the last component is the suffix of the path, trailing slashes removed, that follows its last slash, or the whole trimmed path when it has no slash |
| `Paths.ExtName` | server/controllers/invoice.js:34 | the extension is "" or a dot followed by no dot and no slash, and it is a proper suffix of the last path component |
| `Paths.ExtNameOfStem` | server/controllers/invoice.js:34 | `stem.tail` with a non-empty stem has extension `.tail`, except for the name `..` |
| `Paths.ExtNameOfExtension` | server/controllers/invoice.js:35 | appending an extension (or nothing) to a dotless stem and taking `extname` gives that extension back |
| `Paths.ExtNameFromLastDot` | server/controllers/invoice.js:34 | the suffix from the last dot of the component is the extension when that dot is not its first character and the component is not `..` |
| `Paths.LastIndexOfIs` | server/controllers/invoice.js:34 | a dot with no dot after it is the one `extname` splits at |
| `Paths.ExtNameEmpty` | server/controllers/invoice.js:34 | a name without a dot, or whose only dot is its first character, has extension "" |
| `Paths.ExtNameDotDot` | server/controllers/invoice.js:34 | a path whose last component is `..` (such as `x/..` or `../`) has extension "" |
| `Template.Resolve` | server/invoices/index.js:8-19 | each defaulted detail field keeps a supplied value unchanged and takes its fixed default (`company_logo.jpg`, `Customer`, ...) when missing; currency, number and date pass through |
| `Template.MimeType` | server/invoices/index.js:31-34 | `.jpg`/`.jpeg` map to `image/jpeg`, `.png` to `image/png`, every other extension to "" (each direction) |
| `Template.LogoBase64` | server/invoices/index.js:24-43 | a data URI is built exactly when the logo file exists, can be read and holds an image, and its extension has a MIME type, and it is `data:<mime>;base64,<content>`; an existing file that cannot be read leaves the logo out |
| `Template.AddressHtml` | server/invoices/index.js:150 | the rendered address is the address with every `/` replaced by `<br/>`, and an address without `/` is unchanged |
| `Template.RowsOf` | server/invoices/index.js:48-57 | exactly one row per line item, in input order, row i built from item i (description or "", quantity or 0, price, amount) |
| `Template.BuildLineItems` | server/invoices/index.js:46-58 | the loop produces exactly the rows `RowsOf` gives and the total `TotalOf` gives |
| `Template.DefaultTemplate` | server/invoices/index.js:7-189 | the template run step by step yields exactly the document `Render` describes |
| `Template.RenderShows` | server/invoices/index.js:7-189 | the invoice renders exactly when details and line items exist; the `<img>` appears exactly when a data URI was built; one row per item in order; Subtotal and Total both show `moneyFormat(currency, total)`; addresses have `/` replaced by `<br/>`; the number shown is the one in details |
| `Template.TotalAppend` | server/invoices/index.js:47-50 | the total over two lists of items is the sum of their totals |
| `Template.TotalIgnoresIncomplete` | server/invoices/index.js:49 | an item with a missing or zero quantity or price contributes nothing to the total |
| `Template.TotalIsSumOfRows` | server/invoices/index.js:48-58 | the total is the sum of the table's amount column |
| `Template.SoapExample` | server/invoices/index.js:46-58 | two soaps at 25.50 without a logo give one row with amount 51, a total of 51, no `<img>`, and the default company and customer names |
| `Controller.PayloadOf` | server/controllers/invoice.js:14 | a missing or empty-string `invoiceData` field parses as the empty object |
| `Controller.Send` | server/controllers/invoice.js:99-105 | 404 "Invoice not found" exactly when `invoice.pdf` is absent, otherwise the file is sent; nothing else changes |
| `Controller.InvoiceController.CreateInvoice` | server/controllers/invoice.js:12-97 | the handler run step by step leaves exactly the state `Create` gives, and keeps the temp directory consistent |
| `Controller.InvoiceController.StoreLogoStep` | server/controllers/invoice.js:30-54 | the logo step run step by step leaves exactly the state `StoreLogo` gives |
| `Controller.InvoiceController.SaveLogo` | server/controllers/invoice.js:42-50 | moving the upload stores it under the chosen name and records that name in `details.companyLogo`; nothing else changes |
| `Controller.InvoiceController.PublishStep` | server/controllers/invoice.js:56-91 | render, write, re-read and convert leave exactly the state `Publish` gives |
| `Controller.InvoiceController.SendInvoice` | server/controllers/invoice.js:99-105 | the handler leaves exactly the state `Send` gives |
| `Controller.Prepare` | server/controllers/invoice.js:21-28 | after allocation the details are present and the temp directory exists |
| `Controller.PublishFacts` | server/controllers/invoice.js:56-91 | the last steps answer 500 server error, 500 PDF error (exactly when only the converter fails) or success with the allocated number (exactly when nothing fails); anything but success leaves `invoice.pdf` as it was |
| `Controller.StoreLogoFacts` | server/controllers/invoice.js:30-54 | from the logo check on, the answer is one of four; "Unsupported file format" comes exactly for an upload whose extension is not allowed, and then neither files nor details change |
| `Controller.StoreLogoKeepsPdf` | server/controllers/invoice.js:30-91 | from the logo check on, every answer but success leaves `invoice.pdf` as it was |
| `Controller.StoreLogoPdfError` | server/controllers/invoice.js:30-85 | from the logo check on, the PDF error comes exactly when only the converter stands in the way of success |
| `Controller.StoreLogoSuccess` | server/controllers/invoice.js:30-91 | from the logo check on, success comes exactly when the logo is accepted and moved, items exist and every write succeeds; the details then name the chosen logo and the directory holds the rendered `invoice.html` and `invoice.pdf` |
| `Controller.CreateSplit` | server/controllers/invoice.js:12-28 | a request either stops before the logo step with a 400 or 500 and its files untouched, or hands the prepared state to the logo step |
| `Controller.CreateKeepsConsistent` | server/controllers/invoice.js:24-28 | a request never leaves files in a temp directory that does not exist |
| `Controller.CreateAllocation` | server/controllers/invoice.js:14-21 | exactly one number is allocated when the payload parsed, is not empty and the allocator answered, none otherwise, and it is never reclaimed |
| `Controller.EmptyPayloadRejected` | server/controllers/invoice.js:14-18 | 400 "Invalid or empty payload" comes exactly for a missing, null or key-less payload, with no number allocated and no file or directory touched |
| `Controller.UnsupportedFormatRejected` | server/controllers/invoice.js:21-47 | 400 "Unsupported file format" comes exactly for an upload whose lower-cased extension is not allowed; the number is already allocated and written into details, the directory exists, and the upload is not moved |
| `Controller.AllowedShape` | server/controllers/invoice.js:33 | every allowed extension is a dot followed by lower-case letters |
| `Controller.LogoExtensionShape` | server/controllers/invoice.js:34 | the lower-cased extension is "" or a dot followed by no dot and no slash |
| `Controller.AllowedLogoIff` | server/controllers/invoice.js:33-38 | an upload is accepted exactly when its last path component ends, after at least one other character, in `.png`, `.jpg` or `.jpeg` in any case |
| `Controller.AllowedTail` | server/controllers/invoice.js:34-38 | a suffix whose lower-case form is allowed starts at the component's last dot |
| `Controller.AllowedHasSuffix` | server/controllers/invoice.js:34-38 | an accepted upload's extension is a proper suffix of its last component |
| `Controller.SuffixIsAllowed` | server/controllers/invoice.js:34-38 | a proper suffix whose lower-case form is allowed makes the upload accepted |
| `Controller.MimeIffAllowed` | server/controllers/invoice.js:33 | the template maps exactly the controller's allowed extensions to a MIME type |
| `Controller.SavedLogoHasMime` | server/controllers/invoice.js:34-38 | the name an upload is saved under has a MIME type in the template exactly when the upload was accepted |
| `Controller.DefaultLogoIsJpeg` | server/controllers/invoice.js:53 | the fallback logo name maps to `image/jpeg` |
| `Controller.UploadedLogoIsShown` | server/controllers/invoice.js:42-57 | after a successful creation with an upload, the PDF's logo cell is the `<img>` of the data URI `data:<mime of the lower-cased extension>;base64,<uploaded content>` |
| `Controller.UploadedLogoUri` | server/controllers/invoice.js:35-50 | an accepted upload saved under its new name is embedded by the template as the data URI of its own content |
| `Controller.SavedLogoMime` | server/controllers/invoice.js:34-35 | the template's MIME type for the saved name is the one of the upload's lower-cased extension |
| `Controller.DefaultLogoShownIff` | server/controllers/invoice.js:51-57 | without an upload, the invoice shows a logo exactly when the temp directory already held an image `company_logo.jpg` |
| `Controller.CreatedResponse` | server/controllers/invoice.js:21-91 | success comes exactly when every step goes through; it answers "Invoice created successfully" with the allocated number, which is also in `details.invoiceNumber`; the logo name is `company_logo` plus the extension, or `company_logo.jpg`; `invoice.html` and `invoice.pdf` hold the invoice rendered from those details |
| `Controller.SuccessNumber` | server/controllers/invoice.js:87-90 | a successful answer carries the number this request allocated |
| `Controller.PdfFailureIsDistinct` | server/controllers/invoice.js:81-85 | 500 "Error generating PDF" comes exactly when the request would have succeeded but for the converter; the number stays allocated and the previous `invoice.pdf` stays |
| `Controller.ServerErrorCases` | server/controllers/invoice.js:93-96 | a payload that is not JSON, a non-empty payload without `details` (after allocation) and a payload without `lineItems` all give 500 "Server error creating invoice" |
| `Controller.CreateResponses` | server/controllers/invoice.js:12-97 | the handler answers with one of exactly five responses |
| `Controller.NumbersIncrease` | server/controllers/invoice.js:21 | numbers of successful creations strictly increase, whatever happens in between |
| `Controller.SendAfterCreate` | server/controllers/invoice.js:80-104 | after a successful creation, retrieval sends `invoice.pdf`, the conversion of the `invoice.html` just written |
| `Controller.MissingDirectoryNotFound` | server/controllers/invoice.js:99-104 | while the temp directory does not exist no file in it does, so retrieval answers 404 |
| `Controller.NoPdfUntilSuccess` | server/controllers/invoice.js:99-104 | while no creation has succeeded there is no `invoice.pdf`, so retrieval answers 404 |

## Left out

- The HTML-to-PDF library (`server/controllers/invoice.js:81`): only its outcome, success or
  failure, is modelled. On failure the model leaves any earlier `invoice.pdf` in place, and
  nothing is known about what the library writes when it fails.
- The file system: `mkdir`, `existsSync`, `readFileSync`, `writeFile`, `readFile` and the
  upload's `mv` become updates and lookups of a map from file names to contents. The failure of
  `mkdir`, the upload's `mv`, `writeFile` and `readFile` is an input flag. `readFileSync` on an
  existing logo fails exactly when that file is `Unreadable`, and then no logo is shown, as the
  catch at `server/invoices/index.js:41-43` leaves it out. Path joining with the project root is not modelled, so the template looks up
  `companyLogo` as a plain key.
- `moneyFormat` (`../utils/index.js`) is not part of this model. Its result is represented by
  its arguments.
- `getNextInvoiceNumber` (`../utils/invoiceUtils`) is not part of this model. It is an abstract
  counter that hands out its value plus one, or fails as a whole.
- `JSON.parse` is not modelled. Its outcome is an input: it throws, gives a falsy value, or gives
  a value with a set of own keys. A `details` that is present but not an object is not
  modelled. `None` stands for `undefined`; a field explicitly `null` is not distinguished from
  a missing one.
- A `lineItems` that is present but not an array, and a line item that is `null`: both throw
  in `server/invoices/index.js:48-49` and end in 500 "Server error creating invoice". The model
  types `lineItems` as a sequence of records, so neither case can be expressed.
- Template.LogoBase64: embeds the file only when it holds an image. The source embeds any
  existing, readable file whose name has a MIME type (`server/invoices/index.js:28-36`), even an
  HTML or PDF file. The controller never stores anything but an upload under a
  `company_logo.*` name, so no request reaches the difference.
- A `billingAddress` or `shippingAddress` that is present, truthy and not a string (a number,
  `true`, an object, an array): `.split` then throws at `server/invoices/index.js:150`/`155` and
  the request ends in 500 "Server error creating invoice", after the number was allocated and
  any upload moved. The model types detail fields as strings, so this cannot be expressed.
- JavaScript number semantics: quantities and prices are reals. `Number`/`parseFloat` parsing
  of strings (such as `"25.50"`), `NaN` and IEEE double rounding are not modelled. `x || 0` is
  0 exactly when `x` is missing or 0.
- Base64 encoding: the image's base64 text is kept as the file's content.
- The fixed HTML/CSS around the fields, the static phone numbers, `.trim()` of the page, the PDF
  layout options, and console logging. The page is a structured value, and no HTML escaping is
  done, as in the source.
- `server/invoices/DefaultTemplate.js`: the controller does not use it.
- Concurrent requests racing on the fixed paths `invoice.html`, `invoice.pdf` and
  `company_logo.*`: each request is one atomic step. The PDF callback is answered within the
  same step.
- An upload field holding several files (then `name` is undefined), and Express's `req`/`res`
  plumbing.
- Strings.ToLower: maps only the ASCII letters A-Z, not the full Unicode case mapping of
  `toLowerCase`.
