/** The data the analysis core reads: the fixed GETS v0.1 schema, invoice documents
    with their fields already coerced, and the stored upload (its first 200 rows). */
module Sample {
  import opened Wrappers
  import opened JsText

  /** Largest number of rows kept from an upload. */
  const MaxRows: nat := 200

  /** The required field paths of the mock GETS v0.1 schema, in declared order. */
  const GetsRequired: seq<string> := [
    "invoice.id", "invoice.issue_date", "invoice.currency",
    "invoice.total_excl_vat", "invoice.vat_amount", "invoice.total_incl_vat",
    "seller.name", "seller.trn", "seller.country",
    "buyer.name", "buyer.trn", "buyer.country",
    "lines[].sku", "lines[].qty", "lines[].unit_price", "lines[].line_total"
  ]

  /** The currency codes CURRENCY_ALLOWED accepts. */
  const AllowedCurrencies: seq<string> := ["AED", "SAR", "MYR", "USD"]

  /** One line item: its own keys, in `Object.keys` order, and its three numbers
      after `Number(x) || 0`. */
  datatype LineItem = LineItem(keys: seq<string>, qty: real, unitPrice: real, lineTotal: real)

  /** The `lines` field of a document: falsy or absent, an array, or some other
      truthy value whose `length` property may or may not be a number. */
  datatype Lines =
    | NoLines
    | LineArray(items: seq<LineItem>)
    | NotArray(length: Option<nat>)

  /** One invoice record.  `keys` lists its top-level field names (including `lines`
      when present).  The totals are `Number(x || 0)`.  A date field is `None` when
      the field is absent or falsy and `Some(String(x))` when it is truthy, so a truthy
      `[]` is `Some("")`.  The TRN fields hold `String(x)`, and `currency` holds the
      field itself, which must be a string; "" stands for an absent or falsy one. */
  datatype Document = Document(
    keys: seq<string>,
    lines: Lines,
    totalExclVat: real,
    vatAmount: real,
    totalInclVat: real,
    date: Option<string>,
    invoiceIssueDate: Option<string>,
    currency: string,
    buyerTrn: string,
    sellerTrn: string)

  /** A stored upload: the kept rows and how many there are; "" for a missing
      country or ERP. */
  datatype Upload = Upload(data: seq<Document>, rowsParsed: nat, country: string, erp: string)

  /** What every upload written by SaveUpload satisfies. */
  predicate ValidUpload(u: Upload)
  {
    |u.data| == u.rowsParsed && 1 <= u.rowsParsed <= MaxRows
  }

  const NoDataError: string := "The input file or text contained no parsable data."

  /** `saveUpload` without the database write: keep the first MaxRows rows, refuse an
      empty sample, and record how many rows were kept.  The stored country and ERP are
      trimmed, as the upload schema declares them with `trim: true`
      (models/Upload.js, lines 12-13), so a blank one is stored empty. */
  function SaveUpload(data: seq<Document>, country: string, erp: string): (r: Result<Upload, string>)
    ensures r.Ok? <==> |data| > 0
    ensures r.Err? ==> r.error == NoDataError
    ensures r.Ok? ==> ValidUpload(r.value)
    ensures r.Ok? ==> r.value.data <= data
    ensures r.Ok? ==> r.value.rowsParsed == if |data| < MaxRows then |data| else MaxRows
    ensures r.Ok? ==> r.value.country == Trim(country) && r.value.erp == Trim(erp)
    ensures r.Ok? ==> (r.value.country == "" <==> forall i :: 0 <= i < |country| ==> IsJsWhitespace(country[i]))
  {
    var limited := if |data| < MaxRows then data else data[..MaxRows];
    TrimEmptyIff(country);
    if |limited| == 0 then Err(NoDataError)
    else Ok(Upload(limited, |limited|, Trim(country), Trim(erp)))
  }
}
