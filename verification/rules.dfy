/** `runRuleChecks`: five fixed integrity rules evaluated over the whole sample; a rule
    fails when any document (or line item) violates it, and only the first offence's
    detail is kept.
    Line numbers in comments refer to controllers/analyzerController.js. */
module RuleEngine {
  import opened Wrappers
  import opened Sample
  import opened JsMath
  import opened JsText

  datatype RuleId = TotalsBalance | LineMath | DateIso | CurrencyAllowed | TrnPresent

  function RuleName(r: RuleId): string
  {
    match r
    case TotalsBalance => "TOTALS_BALANCE"
    case LineMath => "LINE_MATH"
    case DateIso => "DATE_ISO"
    case CurrencyAllowed => "CURRENCY_ALLOWED"
    case TrnPresent => "TRN_PRESENT"
  }

  /** The order in which the findings are reported. */
  const RuleOrder: seq<RuleId> := [TotalsBalance, LineMath, DateIso, CurrencyAllowed, TrnPresent]

  /** Detail kept for the first failing line: the 1-based document index, the
      expected amount qty * unit_price and the line_total found. */
  datatype LineFailure = LineFailure(exampleLine: nat, expected: real, got: real)

  /** One finding.  `example` is set only for LINE_MATH and `value` only for
      CURRENCY_ALLOWED. */
  datatype Finding = Finding(rule: RuleId, ok: bool, example: Option<LineFailure>, value: Option<string>)

  /** Absolute tolerance of the numeric rules. */
  const Tolerance: real := 0.01

  function Abs(x: real): real
  {
    if x < 0.0 then -x else x
  }

  // ---------------------------------------------------------------------------
  // What each rule rejects

  /** TOTALS_BALANCE: excl + vat differs from incl by more than the tolerance. */
  predicate TotalsUnbalanced(d: Document)
  {
    Abs((d.totalExclVat + d.vatAmount) - d.totalInclVat) > Tolerance
  }

  /** LINE_MATH: qty * unit_price differs from line_total by more than the tolerance. */
  predicate LineMathBroken(l: LineItem)
  {
    Abs(l.qty * l.unitPrice - l.lineTotal) > Tolerance
  }

  /** The line items LINE_MATH visits: none unless `lines` is an array. */
  function DocLines(d: Document): seq<LineItem>
  {
    if d.lines.LineArray? then d.lines.items else []
  }

  predicate HasBrokenLine(d: Document)
  {
    exists i :: 0 <= i < |DocLines(d)| && LineMathBroken(DocLines(d)[i])
  }

  /** Line `i` of document `di` is the first broken line of the first document with one. */
  predicate FirstBrokenLineAt(sample: seq<Document>, di: nat, i: nat)
  {
    && di < |sample|
    && i < |DocLines(sample[di])|
    && LineMathBroken(DocLines(sample[di])[i])
    && (forall e :: 0 <= e < di ==> !HasBrokenLine(sample[e]))
    && (forall j :: 0 <= j < i ==> !LineMathBroken(DocLines(sample[di])[j]))
  }

  /** The detail reported for line `l` of the document at 0-based index `di`: the
      1-based document number and both amounts written to two decimals. */
  function Describe(di: nat, l: LineItem): LineFailure
  {
    LineFailure(di + 1, ToFixed2(l.qty * l.unitPrice), ToFixed2(l.lineTotal))
  }

  /** `detail` describes the first broken line of the first document that has one. */
  predicate IsFirstLineFailure(sample: seq<Document>, detail: LineFailure)
  {
    exists di: nat, i: nat :: di < |sample| && i < |DocLines(sample[di])|
                              && FirstBrokenLineAt(sample, di, i) && detail == Describe(di, DocLines(sample[di])[i])
  }

  /** `doc.date || doc.invoice_issue_date || null`: the first truthy field, written out
      by `String`, or none when both are falsy. */
  function DateValue(d: Document): (r: Option<string>)
    ensures d.date.Some? ==> r == d.date
    ensures d.date.None? ==> r == d.invoiceIssueDate
    ensures r.None? <==> d.date.None? && d.invoiceIssueDate.None?
  {
    if d.date.Some? then d.date else d.invoiceIssueDate
  }

  predicate IsDigit(c: char)
  {
    '0' <= c <= '9'
  }

  /** `/^\d{4}-\d{2}-\d{2}$/`: the shape of an ISO 8601 calendar date in extended
      format (ISO 8601:2004 section 4.1.2.2); month and day values are not checked. */
  predicate IsIsoDateShape(s: string)
  {
    && |s| == 10
    && IsDigit(s[0]) && IsDigit(s[1]) && IsDigit(s[2]) && IsDigit(s[3])
    && s[4] == '-'
    && IsDigit(s[5]) && IsDigit(s[6])
    && s[7] == '-'
    && IsDigit(s[8]) && IsDigit(s[9])
  }

  /** DATE_ISO: a date is present (truthy) and its text does not have the YYYY-MM-DD
      shape. */
  predicate DateMalformed(d: Document)
  {
    DateValue(d).Some? && !IsIsoDateShape(DateValue(d).value)
  }

  /** DATE_ISO reads `date` whenever it is truthy and `invoice_issue_date` only when it
      is not, and a document with neither never fails. */
  lemma DatePrecedence(d: Document)
    ensures d.date.Some? ==> (DateMalformed(d) <==> !IsIsoDateShape(d.date.value))
    ensures d.date.None? ==> (DateMalformed(d) <==> d.invoiceIssueDate.Some? && !IsIsoDateShape(d.invoiceIssueDate.value))
  {
  }

  /** A truthy date whose text is empty (such as `[]`) fails DATE_ISO, whatever the
      issue date says. */
  lemma EmptyTruthyDateFails(d: Document)
    requires d.date == Some("")
    ensures DateMalformed(d)
  {
  }

  /** Only the shape is checked: month 13, day 40 passes. */
  lemma ShapeOnlyDate()
    ensures IsIsoDateShape("2024-13-40")
  {
  }

  /** `(doc.currency || '').toUpperCase()`. */
  function CurrencyValue(d: Document): string
  {
    ToUpper(d.currency)
  }

  /** CURRENCY_ALLOWED: a currency is present and is not on the whitelist. */
  predicate CurrencyDisallowed(d: Document)
  {
    CurrencyValue(d) != "" && CurrencyValue(d) !in AllowedCurrencies
  }

  /** `value` is the upper-cased currency of the first document whose currency is refused. */
  predicate IsFirstBadCurrency(sample: seq<Document>, value: string)
  {
    exists d :: 0 <= d < |sample| && CurrencyDisallowed(sample[d])
                && (forall e :: 0 <= e < d ==> !CurrencyDisallowed(sample[e]))
                && value == CurrencyValue(sample[d])
  }

  /** The whitelist is case-insensitive: a lower-case allowed code passes. */
  lemma LowerCaseCodeAllowed(d: Document)
    requires d.currency == "usd"
    ensures !CurrencyDisallowed(d)
  {
    assert CurrencyValue(d) == "USD";
  }

  /** TRN_PRESENT: the buyer or the seller TRN is all whitespace, which is exactly when
      it trims to nothing (`TrnMissingTrim`). */
  predicate TrnMissing(d: Document)
  {
    AllWhitespace(d.buyerTrn) || AllWhitespace(d.sellerTrn)
  }

  /** TRN_PRESENT as line 266 writes it: a TRN is missing when it trims to nothing. */
  lemma TrnMissingTrim(d: Document)
    ensures TrnMissing(d) <==> Trim(d.buyerTrn) == "" || Trim(d.sellerTrn) == ""
  {
    TrimEmptyIff(d.buyerTrn);
    TrimEmptyIff(d.sellerTrn);
  }

  /** `!String(x).trim()`: the text trims to nothing, that is, it is all whitespace. */
  method IsBlank(s: string) returns (b: bool)
    ensures b <==> AllWhitespace(s)
  {
    TrimEmptyIff(s);
    b := Trim(s) == "";
  }

  /** Rule `r` passes on `sample`: no document (or line item) violates it. */
  predicate RuleHolds(r: RuleId, sample: seq<Document>)
  {
    match r
    case TotalsBalance => forall d :: 0 <= d < |sample| ==> !TotalsUnbalanced(sample[d])
    case LineMath => forall d :: 0 <= d < |sample| ==> !HasBrokenLine(sample[d])
    case DateIso => forall d :: 0 <= d < |sample| ==> !DateMalformed(sample[d])
    case CurrencyAllowed => forall d :: 0 <= d < |sample| ==> !CurrencyDisallowed(sample[d])
    case TrnPresent => forall d :: 0 <= d < |sample| ==> !TrnMissing(sample[d])
  }

  // ---------------------------------------------------------------------------
  // The five rules, each an early-exit `some` over the sample

  /** `f` is the finding for rule `r`: it passes exactly when the rule holds, carries the
      first broken line only when LINE_MATH fails, and the first refused currency only
      when CURRENCY_ALLOWED fails. */
  predicate Reports(sample: seq<Document>, r: RuleId, f: Finding)
  {
    && f.rule == r
    && (f.ok <==> RuleHolds(r, sample))
    && (f.example.Some? <==> r == LineMath && !f.ok)
    && (f.example.Some? ==> IsFirstLineFailure(sample, f.example.value))
    && (f.value.Some? <==> r == CurrencyAllowed && !f.ok)
    && (f.value.Some? ==> IsFirstBadCurrency(sample, f.value.value))
  }

  /** The specification leaves no freedom: two findings that both report rule `r` on the
      same sample are equal, so the first-offence details are well defined. */
  lemma ReportsUnique(sample: seq<Document>, r: RuleId, f: Finding, g: Finding)
    requires Reports(sample, r, f) && Reports(sample, r, g)
    ensures f == g
  {
    if f.example.Some? {
      FirstLineFailureUnique(sample, f.example.value, g.example.value);
    }
    if f.value.Some? {
      FirstBadCurrencyUnique(sample, f.value.value, g.value.value);
    }
  }

  /** There is only one first broken line. */
  lemma FirstBrokenLineUnique(sample: seq<Document>, di: nat, i: nat, dj: nat, j: nat)
    requires FirstBrokenLineAt(sample, di, i) && FirstBrokenLineAt(sample, dj, j)
    ensures di == dj && i == j
  {
    if di < dj {
      assert HasBrokenLine(sample[di]);
    } else if dj < di {
      assert HasBrokenLine(sample[dj]);
    }
  }

  /** So the LINE_MATH detail is determined by the sample. */
  lemma FirstLineFailureUnique(sample: seq<Document>, a: LineFailure, b: LineFailure)
    requires IsFirstLineFailure(sample, a) && IsFirstLineFailure(sample, b)
    ensures a == b
  {
    var di: nat, i: nat :| di < |sample| && i < |DocLines(sample[di])|
                          && FirstBrokenLineAt(sample, di, i) && a == Describe(di, DocLines(sample[di])[i]);
    var dj: nat, j: nat :| dj < |sample| && j < |DocLines(sample[dj])|
                          && FirstBrokenLineAt(sample, dj, j) && b == Describe(dj, DocLines(sample[dj])[j]);
    FirstBrokenLineUnique(sample, di, i, dj, j);
  }

  /** So the captured CURRENCY_ALLOWED value is determined by the sample. */
  lemma FirstBadCurrencyUnique(sample: seq<Document>, a: string, b: string)
    requires IsFirstBadCurrency(sample, a) && IsFirstBadCurrency(sample, b)
    ensures a == b
  {
    var d :| 0 <= d < |sample| && CurrencyDisallowed(sample[d])
             && (forall e :: 0 <= e < d ==> !CurrencyDisallowed(sample[e]))
             && a == CurrencyValue(sample[d]);
    var d' :| 0 <= d' < |sample| && CurrencyDisallowed(sample[d'])
              && (forall e :: 0 <= e < d' ==> !CurrencyDisallowed(sample[e]))
              && b == CurrencyValue(sample[d']);
  }

  /** Lines 198-206. */
  method CheckTotalsBalance(sample: seq<Document>) returns (finding: Finding)
    ensures Reports(sample, TotalsBalance, finding)
  {
    var failed := false;
    var d := 0;
    while d < |sample|
      invariant 0 <= d <= |sample|
      invariant forall e :: 0 <= e < d ==> !TotalsUnbalanced(sample[e])
    {
      var doc := sample[d];
      if Abs((doc.totalExclVat + doc.vatAmount) - doc.totalInclVat) > Tolerance {
        failed := true;
        break;
      }
      d := d + 1;
    }
    finding := Finding(TotalsBalance, !failed, None, None);
  }

  /** Lines 214-229, `doc.lines.some(...)`: the index of the first broken line. */
  method FindBrokenLine(lines: seq<LineItem>) returns (found: Option<nat>)
    ensures found.None? ==> forall j :: 0 <= j < |lines| ==> !LineMathBroken(lines[j])
    ensures found.Some? ==> found.value < |lines| && LineMathBroken(lines[found.value])
    ensures found.Some? ==> forall j :: 0 <= j < found.value ==> !LineMathBroken(lines[j])
  {
    found := None;
    var i := 0;
    while i < |lines|
      invariant 0 <= i <= |lines|
      invariant forall j :: 0 <= j < i ==> !LineMathBroken(lines[j])
    {
      var expected := lines[i].qty * lines[i].unitPrice;
      if Abs(expected - lines[i].lineTotal) > Tolerance {
        found := Some(i);
        return;
      }
      assert !LineMathBroken(lines[i]);
      i := i + 1;
    }
  }

  lemma FirstFailureReported(sample: seq<Document>, di: nat, i: nat)
    requires FirstBrokenLineAt(sample, di, i)
    ensures IsFirstLineFailure(sample, Describe(di, DocLines(sample[di])[i]))
  {
  }

  /** Lines 210-233: find the first document with a broken line and report that line. */
  method CheckLineMath(sample: seq<Document>) returns (finding: Finding)
    ensures Reports(sample, LineMath, finding)
  {
    var detail: Option<LineFailure> := None;
    var d := 0;
    while d < |sample|
      invariant 0 <= d <= |sample|
      invariant forall e :: 0 <= e < d ==> !HasBrokenLine(sample[e])
    {
      var doc := sample[d];
      if doc.lines.LineArray? {
        var lines := doc.lines.items;
        var found := FindBrokenLine(lines);
        if found.Some? {
          assert DocLines(doc) == lines;
          FirstFailureReported(sample, d, found.value);
          detail := Some(Describe(d, lines[found.value]));
          finding := Finding(LineMath, false, detail, None);
          return;
        }
      }
      d := d + 1;
    }
    finding := Finding(LineMath, true, detail, None);
  }

  /** Lines 237-244. */
  method CheckDateIso(sample: seq<Document>) returns (finding: Finding)
    ensures Reports(sample, DateIso, finding)
  {
    var failed := false;
    var d := 0;
    while d < |sample|
      invariant 0 <= d <= |sample|
      invariant forall e :: 0 <= e < d ==> !DateMalformed(sample[e])
    {
      var dateStr := if sample[d].date.Some? then sample[d].date else sample[d].invoiceIssueDate;
      if dateStr.Some? && !IsIsoDateShape(dateStr.value) {
        failed := true;
        break;
      }
      d := d + 1;
    }
    finding := Finding(DateIso, !failed, None, None);
  }

  /** Lines 248-259: find the first document whose currency is not allowed and keep
      its upper-cased value. */
  method CheckCurrencyAllowed(sample: seq<Document>) returns (finding: Finding)
    ensures Reports(sample, CurrencyAllowed, finding)
  {
    var value: Option<string> := None;
    var d := 0;
    while d < |sample|
      invariant 0 <= d <= |sample|
      invariant forall e :: 0 <= e < d ==> !CurrencyDisallowed(sample[e])
    {
      var currency := ToUpper(sample[d].currency);
      if currency != "" && currency !in AllowedCurrencies {
        value := Some(currency);
        assert IsFirstBadCurrency(sample, value.value);
        finding := Finding(CurrencyAllowed, false, None, value);
        return;
      }
      d := d + 1;
    }
    finding := Finding(CurrencyAllowed, true, None, value);
  }

  /** Lines 263-270. */
  method CheckTrnPresent(sample: seq<Document>) returns (finding: Finding)
    ensures Reports(sample, TrnPresent, finding)
  {
    var failed := false;
    var d := 0;
    while d < |sample|
      invariant 0 <= d <= |sample|
      invariant forall e :: 0 <= e < d ==> !TrnMissing(sample[e])
    {
      var buyerBlank := IsBlank(sample[d].buyerTrn);
      var sellerBlank := IsBlank(sample[d].sellerTrn);
      if buyerBlank || sellerBlank {
        failed := true;
        break;
      }
      d := d + 1;
    }
    finding := Finding(TrnPresent, !failed, None, None);
  }

  /** Number of passing findings. */
  function CountOk(fs: seq<Finding>): (n: nat)
    ensures n <= |fs|
    decreases |fs|
  {
    if fs == [] then 0 else CountOk(fs[..|fs| - 1]) + (if fs[|fs| - 1].ok then 1 else 0)
  }

  lemma CountOkSnoc(fs: seq<Finding>, f: Finding)
    ensures CountOk(fs + [f]) == CountOk(fs) + (if f.ok then 1 else 0)
  {
    assert (fs + [f])[..|fs|] == fs;
  }

  /** `Math.round((passed / 5) * 100)` is exactly 20 per passing rule. */
  function RuleScore(passed: int): (s: int)
    ensures s == 20 * passed
  {
    assert passed as real / 5.0 * 100.0 == (100 * passed) as real / 5 as real;
    RoundQuotient(100 * passed, 5);
    Round(passed as real / 5.0 * 100.0)
  }

  /** Five findings for the five rules, pushed one by one, report the rules in order. */
  lemma InRuleOrder(sample: seq<Document>, f0: Finding, f1: Finding, f2: Finding, f3: Finding, f4: Finding)
    requires Reports(sample, TotalsBalance, f0) && Reports(sample, LineMath, f1)
    requires Reports(sample, DateIso, f2) && Reports(sample, CurrencyAllowed, f3)
    requires Reports(sample, TrnPresent, f4)
    ensures forall i :: 0 <= i < 5 ==> Reports(sample, RuleOrder[i], [f0, f1, f2, f3, f4][i])
  {
  }

  /** `runRuleChecks`: five findings in fixed order, each passing exactly when no
      document violates its rule, with the first offence's detail, and a rule score of
      20 per passing rule. */
  method RunRuleChecks(sample: seq<Document>) returns (findings: seq<Finding>, ruleScore: int)
    ensures |findings| == 5
    ensures forall i :: 0 <= i < 5 ==> Reports(sample, RuleOrder[i], findings[i])
    ensures ruleScore == 20 * CountOk(findings)
    ensures 0 <= ruleScore <= 100
  {
    findings := [];
    var passedCount := 0;

    var f0 := CheckTotalsBalance(sample);
    CountOkSnoc(findings, f0);
    findings := findings + [f0];
    if f0.ok { passedCount := passedCount + 1; }

    var f1 := CheckLineMath(sample);
    CountOkSnoc(findings, f1);
    findings := findings + [f1];
    if f1.ok { passedCount := passedCount + 1; }

    var f2 := CheckDateIso(sample);
    CountOkSnoc(findings, f2);
    findings := findings + [f2];
    if f2.ok { passedCount := passedCount + 1; }

    var f3 := CheckCurrencyAllowed(sample);
    CountOkSnoc(findings, f3);
    findings := findings + [f3];
    if f3.ok { passedCount := passedCount + 1; }

    var f4 := CheckTrnPresent(sample);
    CountOkSnoc(findings, f4);
    findings := findings + [f4];
    if f4.ok { passedCount := passedCount + 1; }

    assert findings == [f0, f1, f2, f3, f4];
    InRuleOrder(sample, f0, f1, f2, f3, f4);
    assert passedCount == CountOk(findings) <= 5;
    ruleScore := RuleScore(passedCount);
  }
}
