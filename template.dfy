/**
 * The invoice template of server/invoices/index.js: from an invoice record and the files of the
 * temp directory to the rendered invoice.  The page is a structured value; the fixed HTML/CSS
 * around the fields is left out, and `moneyFormat(currency, amount)` is kept as the pair of its
 * arguments (type Money) because the formatter itself is not part of this model.
 */
module Template {
  import opened Wrappers
  import opened Strings
  import Paths

  // Destructuring defaults of the template's parameter.
  const DefaultLogo := "company_logo.jpg"
  const DefaultCompanyName := "Ashok Disposal Store"
  const DefaultCompanyAddress := "Vitoba Chowk Mainline, Hinganghat, 442301"
  const DefaultBillingName := "Customer"
  const DefaultBillingPhone := ""
  const DefaultBillingAddress := ""
  const DefaultShippingName := "Rahul Gujar"
  const DefaultShippingAddress := "Vitoba Chowk, Hinganghat"

  /** What the address rendering puts in place of each `/`. */
  const LineBreak := "<br/>"

  /** `invoiceData.details`; `None` is a field that is `undefined` in the payload. */
  datatype Details = Details(
    currency: Option<string>,
    companyLogo: Option<string>,
    companyName: Option<string>,
    companyAddress: Option<string>,
    invoiceNumber: Option<nat>,
    invoiceDate: Option<string>,
    billingName: Option<string>,
    billingPhone: Option<string>,
    billingAddress: Option<string>,
    shippingName: Option<string>,
    shippingAddress: Option<string>)

  /** One entry of `invoiceData.lineItems`; quantities and prices are already numbers. */
  datatype LineItem = LineItem(description: Option<string>, quantity: Option<real>, price: Option<real>)

  /** The template's argument: `details` and `lineItems` may each be missing from the payload. */
  datatype InvoiceData = InvoiceData(details: Option<Details>, lineItems: Option<seq<LineItem>>)

  /** The header and party fields once the defaults are filled in. */
  datatype Resolved = Resolved(
    currency: Option<string>,
    companyLogo: string,
    companyName: string,
    companyAddress: string,
    invoiceNumber: Option<nat>,
    invoiceDate: Option<string>,
    billingName: string,
    billingPhone: string,
    billingAddress: string,
    shippingName: string,
    shippingAddress: string)

  /** `moneyFormat(currency, amount)`, represented by its arguments. */
  datatype Money = Money(currency: Option<string>, amount: real)

  /** One `<tr>` of the item table: description, quantity, price, amount. */
  datatype Row = Row(description: string, quantity: real, price: Money, amount: Money)

  /** The rendered invoice, field by field, in page order. */
  datatype Document = Document(
    logo: string,               // content of the logo cell: an <img> tag, or ""
    companyName: string,
    companyAddress: string,
    invoiceNumber: Option<nat>,
    invoiceDate: Option<string>,
    billingName: string,
    billingAddress: string,
    billingPhone: string,
    shippingName: string,
    shippingAddress: string,
    rows: seq<Row>,
    subtotal: Money,
    total: Money,
    signature: string)

  /**
   * A file of the temp directory: an image (kept as its base64 text), a generated artifact, or a
   * file that exists but cannot be read (no permission, or a directory of that name).
   */
  datatype Content = Image(base64: string) | Html(page: Document) | Pdf(page: Document) | Unreadable

  /** The temp directory, by file name. */
  type TempDir = map<string, Content>

  /** True when the supplied field is used as is and a missing one takes `default`. */
  predicate Defaulted(field: Option<string>, resolved: string, default: string) {
    (field.Some? ==> resolved == field.value) && (field.None? ==> resolved == default)
  }

  /** The destructuring of the template's parameter, defaults included. */
  function Resolve(d: Details): (r: Resolved)
    ensures Defaulted(d.companyLogo, r.companyLogo, DefaultLogo)
    ensures Defaulted(d.companyName, r.companyName, DefaultCompanyName)
    ensures Defaulted(d.companyAddress, r.companyAddress, DefaultCompanyAddress)
    ensures Defaulted(d.billingName, r.billingName, DefaultBillingName)
    ensures Defaulted(d.billingPhone, r.billingPhone, DefaultBillingPhone)
    ensures Defaulted(d.billingAddress, r.billingAddress, DefaultBillingAddress)
    ensures Defaulted(d.shippingName, r.shippingName, DefaultShippingName)
    ensures Defaulted(d.shippingAddress, r.shippingAddress, DefaultShippingAddress)
    ensures r.currency == d.currency && r.invoiceNumber == d.invoiceNumber && r.invoiceDate == d.invoiceDate
  {
    Resolved(
      d.currency,
      d.companyLogo.GetOr(DefaultLogo),
      d.companyName.GetOr(DefaultCompanyName),
      d.companyAddress.GetOr(DefaultCompanyAddress),
      d.invoiceNumber,
      d.invoiceDate,
      d.billingName.GetOr(DefaultBillingName),
      d.billingPhone.GetOr(DefaultBillingPhone),
      d.billingAddress.GetOr(DefaultBillingAddress),
      d.shippingName.GetOr(DefaultShippingName),
      d.shippingAddress.GetOr(DefaultShippingAddress))
  }

  /** The MIME type chosen for an already lower-cased extension; "" when it is not an image type. */
  function MimeType(ext: string): (mime: string)
    ensures mime == "image/jpeg" <==> ext == ".jpg" || ext == ".jpeg"
    ensures mime == "image/png" <==> ext == ".png"
    ensures mime == "" <==> ext != ".jpg" && ext != ".jpeg" && ext != ".png"
  {
    if ext == ".jpg" || ext == ".jpeg" then "image/jpeg"
    else if ext == ".png" then "image/png"
    else ""
  }

  /** The MIME type of a logo file name, decided on its lower-cased extension. */
  function LogoMime(companyLogo: string): string {
    MimeType(ToLower(Paths.ExtName(companyLogo)))
  }

  /**
   * `logoBase64`: the data URI of the logo, or "" when the file is missing, cannot be read (the
   * caught `readFileSync` error) or does not hold an image, or when its extension has no MIME type.
   */
  function LogoBase64(companyLogo: string, files: TempDir): (uri: string)
    ensures uri != [] <==> companyLogo in files && files[companyLogo].Image? && LogoMime(companyLogo) != []
    ensures companyLogo in files && files[companyLogo].Unreadable? ==> uri == []
    ensures uri != [] ==> uri == "data:" + LogoMime(companyLogo) + ";base64," + files[companyLogo].base64
  {
    if companyLogo in files && files[companyLogo].Image? then
      var mime := LogoMime(companyLogo);
      if mime != [] then "data:" + mime + ";base64," + files[companyLogo].base64 else []
    else []
  }

  /** The logo cell: an `<img>` when a data URI was built, nothing otherwise. */
  function LogoCell(logoBase64: string): string {
    if logoBase64 != [] then "<img src=\"" + logoBase64 + "\" class=\"logo\" alt=\"Logo\" />" else []
  }

  /** An address with each `/` turned into a line break; an empty address renders as "". */
  function AddressHtml(address: string): (html: string)
    ensures html == ReplaceAll(address, '/', LineBreak)
    ensures '/' !in address ==> html == address
  {
    if address == [] then []
    else
      JoinSplit(address, '/', LineBreak);
      ReplaceAllAbsent(address, '/', LineBreak);
      Join(Split(address, '/'), LineBreak)
  }

  /** `v || 0` on a number: a missing or zero value counts as 0. */
  function OrZero(v: Option<real>): real {
    if v.Some? && v.value != 0.0 then v.value else 0.0
  }

  /** `Number(item.quantity || 0) * parseFloat(item.price || 0)`. */
  function Amount(item: LineItem): real {
    OrZero(item.quantity) * OrZero(item.price)
  }

  /** The row the template emits for one line item. */
  function RowOf(currency: Option<string>, item: LineItem): Row {
    Row(item.description.GetOr(""), OrZero(item.quantity), Money(currency, OrZero(item.price)),
        Money(currency, Amount(item)))
  }

  /** The rows for `items`: one per item, in the same order. */
  function RowsOf(currency: Option<string>, items: seq<LineItem>): (rows: seq<Row>)
    ensures |rows| == |items|
    ensures forall i :: 0 <= i < |items| ==> rows[i] == RowOf(currency, items[i])
  {
    if items == [] then []
    else RowsOf(currency, items[..|items| - 1]) + [RowOf(currency, items[|items| - 1])]
  }

  /** The running total after `items`, added up from the first item on. */
  function TotalOf(items: seq<LineItem>): real {
    if items == [] then 0.0 else TotalOf(items[..|items| - 1]) + Amount(items[|items| - 1])
  }

  /** The sum of the amount column of `rows`. */
  function SumAmounts(rows: seq<Row>): real {
    if rows == [] then 0.0 else SumAmounts(rows[..|rows| - 1]) + rows[|rows| - 1].amount.amount
  }

  /**
   * The `lineItems.forEach` loop: appends one row per item and adds each item's amount to
   * `total`.
   */
  method BuildLineItems(currency: Option<string>, items: seq<LineItem>) returns (rows: seq<Row>, total: real)
    ensures rows == RowsOf(currency, items)
    ensures total == TotalOf(items)
  {
    rows, total := [], 0.0;
    for i := 0 to |items|
      invariant rows == RowsOf(currency, items[..i])
      invariant total == TotalOf(items[..i])
    {
      var item := items[i];
      var amount := OrZero(item.quantity) * OrZero(item.price);
      total := total + amount;
      rows := rows + [Row(item.description.GetOr(""), OrZero(item.quantity),
                          Money(currency, OrZero(item.price)), Money(currency, amount))];
      assert items[..i + 1][..i] == items[..i];
    }
    assert items[..|items|] == items;
  }

  /** The page around the computed pieces. */
  function Page(r: Resolved, logoBase64: string, rows: seq<Row>, total: real): Document {
    Document(
      LogoCell(logoBase64),
      r.companyName,
      r.companyAddress,
      r.invoiceNumber,
      r.invoiceDate,
      r.billingName,
      AddressHtml(r.billingAddress),
      r.billingPhone,
      r.shippingName,
      AddressHtml(r.shippingAddress),
      rows,
      Money(r.currency, total),
      Money(r.currency, total),
      r.companyName)
  }

  /**
   * `DefaultTemplate(invoiceData)`; `None` is the TypeError it throws when `details` or
   * `lineItems` is missing.
   */
  function Render(data: InvoiceData, files: TempDir): Option<Document>
  {
    match data.details
    case None => None
    case Some(details) =>
      match data.lineItems
      case None => None
      case Some(items) =>
        var d := Resolve(details);
        Some(Page(d, LogoBase64(d.companyLogo, files), RowsOf(d.currency, items), TotalOf(items)))
  }

  /**
   * What the rendered invoice shows: it exists exactly when `details` and `lineItems` do; the
   * logo cell is filled exactly when a data URI was built; there is one row per item in order;
   * Subtotal and Total both show the sum of the amounts; addresses have `/` turned into breaks;
   * the invoice number is the one in `details`.
   */
  lemma RenderShows(data: InvoiceData, files: TempDir)
    ensures Render(data, files).Some? <==> data.details.Some? && data.lineItems.Some?
    ensures Render(data, files).Some? ==>
      var doc, d, items := Render(data, files).value, Resolve(data.details.value), data.lineItems.value;
      && (doc.logo != [] <==> LogoBase64(d.companyLogo, files) != [])
      && doc.logo == LogoCell(LogoBase64(d.companyLogo, files))
      && |doc.rows| == |items|
      && (forall i :: 0 <= i < |items| ==> doc.rows[i] == RowOf(d.currency, items[i]))
      && doc.subtotal == doc.total == Money(d.currency, TotalOf(items))
      && doc.billingAddress == ReplaceAll(d.billingAddress, '/', LineBreak)
      && doc.shippingAddress == ReplaceAll(d.shippingAddress, '/', LineBreak)
      && doc.invoiceNumber == data.details.value.invoiceNumber
  {
  }

  /** The template as the source runs it: the line items are built by the loop. */
  method DefaultTemplate(data: InvoiceData, files: TempDir) returns (r: Option<Document>)
    ensures r == Render(data, files)
  {
    if data.details.None? || data.lineItems.None? {
      return None;
    }
    var d := Resolve(data.details.value);
    var logoBase64 := LogoBase64(d.companyLogo, files);
    var rows, total := BuildLineItems(d.currency, data.lineItems.value);
    r := Some(Page(d, logoBase64, rows, total));
  }

  /** The total over two lists of items is the sum of their totals. */
  lemma {:induction false} TotalAppend(a: seq<LineItem>, b: seq<LineItem>)
    ensures TotalOf(a + b) == TotalOf(a) + TotalOf(b)
  {
    if b == [] {
      assert a + b == a;
    } else {
      TotalAppend(a, b[..|b| - 1]);
      assert (a + b)[..|a + b| - 1] == a + b[..|b| - 1];
    }
  }

  /** An item whose quantity or price is missing or zero leaves the total as it would be without it. */
  lemma TotalIgnoresIncomplete(items: seq<LineItem>, k: nat)
    requires k < |items|
    requires OrZero(items[k].quantity) == 0.0 || OrZero(items[k].price) == 0.0
    ensures TotalOf(items) == TotalOf(items[..k] + items[k + 1..])
  {
    assert items == items[..k] + [items[k]] + items[k + 1..];
    TotalAppend(items[..k] + [items[k]], items[k + 1..]);
    TotalAppend(items[..k], [items[k]]);
    TotalAppend(items[..k], items[k + 1..]);
    assert TotalOf([items[k]]) == TotalOf([]) + Amount(items[k]);
  }

  /** The total printed under the table is the sum of the table's amount column. */
  lemma {:induction false} TotalIsSumOfRows(currency: Option<string>, items: seq<LineItem>)
    ensures TotalOf(items) == SumAmounts(RowsOf(currency, items))
  {
    if items != [] {
      var rows := RowsOf(currency, items);
      TotalIsSumOfRows(currency, items[..|items| - 1]);
      assert rows[..|rows| - 1] == RowsOf(currency, items[..|items| - 1]);
    }
  }

  /** The worked example: two soaps at 25.50 with no logo file give one row and a total of 51. */
  lemma SoapExample()
    ensures
      var details := Details(Some("INR"), None, None, None, None, Some("2024-01-01"), None, None, None, None, None);
      var soap := LineItem(Some("Soap"), Some(2.0), Some(25.5));
      var doc := Render(InvoiceData(Some(details), Some([soap])), map[]);
      && doc.Some?
      && doc.value.rows == [Row("Soap", 2.0, Money(Some("INR"), 25.5), Money(Some("INR"), 51.0))]
      && doc.value.total == Money(Some("INR"), 51.0)
      && doc.value.logo == []
      && doc.value.companyName == DefaultCompanyName
      && doc.value.billingName == DefaultBillingName
  {
    var soap := LineItem(Some("Soap"), Some(2.0), Some(25.5));
    assert [soap][..0] == [];
  }
}
