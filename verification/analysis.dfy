/** `analyze`: look up a stored upload, run the coverage matcher and the rule engine
    over its rows, score the result and assemble the report's gaps and metadata. */
module Analysis {
  import opened Wrappers
  import opened Seqs
  import opened KeyNormalizer
  import opened Sample
  import opened CoverageMatcher
  import opened RuleEngine
  import opened ScoreAggregator
  import opened JsText

  // ---------------------------------------------------------------------------
  // Decimal numerals, as template literals write a positive integer

  function DigitChar(d: nat): (c: char)
    requires d < 10
    ensures '0' <= c <= '9'
  {
    ['0', '1', '2', '3', '4', '5', '6', '7', '8', '9'][d]
  }

  function DigitValue(c: char): nat
  {
    if '0' <= c <= '9' then c as int - '0' as int else 0
  }

  /** The decimal numeral of `n`: digits only, and no leading zero. */
  function NatToString(n: nat): (s: string)
    ensures |s| >= 1
    ensures forall i :: 0 <= i < |s| ==> '0' <= s[i] <= '9'
    ensures |s| > 1 ==> s[0] != '0'
  {
    if n < 10 then [DigitChar(n)] else NatToString(n / 10) + [DigitChar(n % 10)]
  }

  /** The value a string of decimal digits denotes. */
  function DecimalValue(s: string): nat
    decreases |s|
  {
    if s == [] then 0 else 10 * DecimalValue(s[..|s| - 1]) + DigitValue(s[|s| - 1])
  }

  /** Reading the numeral back gives the number. */
  lemma {:induction false} NatToStringRoundTrip(n: nat)
    ensures DecimalValue(NatToString(n)) == n
  {
    if n < 10 {
      assert NatToString(n) == [DigitChar(n)];
      assert DigitValue(DigitChar(n)) == n;
    } else {
      var q, r := n / 10, n % 10;
      var s := NatToString(q);
      var t := s + [DigitChar(r)];
      assert NatToString(n) == t;
      NatToStringRoundTrip(q);
      assert t[..|t| - 1] == s;
      assert DigitValue(DigitChar(r)) == r;
      assert DecimalValue(t) == 10 * DecimalValue(s) + r;
      assert n == 10 * q + r;
    }
  }

  // ---------------------------------------------------------------------------
  // Gaps

  const GapPrefix: string := "Rule Failed: "

  /** `f.value || (f.exampleLine ? ` (Line ${f.exampleLine})` : '')`. */
  function GapDetail(f: Finding): string
  {
    if f.value.Some? && f.value.value != "" then f.value.value
    else if f.example.Some? && f.example.value.exampleLine != 0
    then " (Line " + NatToString(f.example.value.exampleLine) + ")"
    else ""
  }

  /** The gap line of a failed finding: the prefix, the rule's name, then its detail. */
  function GapLine(f: Finding): string
  {
    GapPrefix + RuleName(f.rule) + GapDetail(f)
  }

  /** The rule a gap line names, read back from its text. */
  function GapRule(g: string): Option<RuleId>
  {
    if GapPrefix + RuleName(TotalsBalance) <= g then Some(TotalsBalance)
    else if GapPrefix + RuleName(LineMath) <= g then Some(LineMath)
    else if GapPrefix + RuleName(DateIso) <= g then Some(DateIso)
    else if GapPrefix + RuleName(CurrencyAllowed) <= g then Some(CurrencyAllowed)
    else if GapPrefix + RuleName(TrnPresent) <= g then Some(TrnPresent)
    else None
  }

  /** Every gap line names its rule unambiguously, whatever detail follows. */
  lemma GapRuleInverse(f: Finding)
    ensures GapRule(GapLine(f)) == Some(f.rule)
  {
    var g := GapLine(f);
    assert GapPrefix + RuleName(f.rule) <= g;
    assert g[13] == RuleName(f.rule)[0] && g[14] == RuleName(f.rule)[1];
  }

  /** `findings.filter(f => !f.ok).map(...)`. */
  function Gaps(findings: seq<Finding>): (gaps: seq<string>)
    decreases |findings|
  {
    if findings == [] then []
    else
      var last := findings[|findings| - 1];
      Gaps(findings[..|findings| - 1]) + (if last.ok then [] else [GapLine(last)])
  }

  lemma GapsSnoc(findings: seq<Finding>, f: Finding)
    ensures Gaps(findings + [f]) == Gaps(findings) + (if f.ok then [] else [GapLine(f)])
  {
    assert (findings + [f])[..|findings|] == findings;
  }

  /** One gap per failed finding, each the gap line of a failed finding, and every
      failed finding represented. */
  lemma {:induction false} GapsSpec(findings: seq<Finding>)
    ensures |Gaps(findings)| + CountOk(findings) == |findings|
    ensures forall g :: g in Gaps(findings) ==> exists f :: f in findings && !f.ok && g == GapLine(f)
    ensures forall f :: f in findings && !f.ok ==> GapLine(f) in Gaps(findings)
    decreases |findings|
  {
    if findings != [] {
      var init := findings[..|findings| - 1];
      var last := findings[|findings| - 1];
      assert findings == init + [last];
      GapsSpec(init);
      GapsSnoc(init, last);
      CountOkSnoc(init, last);
    }
  }

  /** Gaps keep the order of the findings: those of a prefix are a prefix. */
  lemma {:induction false} GapsPrefix(findings: seq<Finding>, k: nat)
    requires k <= |findings|
    ensures Gaps(findings[..k]) <= Gaps(findings)
    decreases |findings| - k
  {
    if k < |findings| {
      GapsPrefix(findings, k + 1);
      assert findings[..k + 1][..k] == findings[..k];
    } else {
      assert findings[..k] == findings;
    }
  }

  /** The gap of a failed LINE_MATH finding names the 1-based document of the first
      broken line. */
  lemma LineMathGap(f: Finding, n: nat)
    requires f.rule == LineMath && f.value.None?
    requires f.example.Some? && f.example.value.exampleLine == n && n >= 1
    ensures GapLine(f) == "Rule Failed: LINE_MATH (Line " + NatToString(n) + ")"
  {
  }

  /** The gap of a failed CURRENCY_ALLOWED finding ends in the offending code with no
      separator. */
  lemma CurrencyGap(f: Finding, code: string)
    requires f.rule == CurrencyAllowed && f.value == Some(code) && code != ""
    ensures GapLine(f) == "Rule Failed: CURRENCY_ALLOWED" + code
  {
  }

  // ---------------------------------------------------------------------------
  // Metadata

  /** `doc.lines ? doc.lines.length : 0`; `None` stands for NaN (a truthy `lines`
      without a numeric length). */
  function LineCount(d: Document): Option<nat>
  {
    match d.lines
    case NoLines => Some(0)
    case LineArray(items) => Some(|items|)
    case NotArray(length) => length
  }

  /** NaN-propagating addition. */
  function AddCounts(a: Option<nat>, b: Option<nat>): Option<nat>
  {
    if a.Some? && b.Some? then Some(a.value + b.value) else None
  }

  /** `sampleData.reduce((acc, doc) => acc + ..., 0)`. */
  function LinesTotal(sample: seq<Document>): Option<nat>
    decreases |sample|
  {
    if sample == [] then Some(0)
    else AddCounts(LinesTotal(sample[..|sample| - 1]), LineCount(sample[|sample| - 1]))
  }

  /** The total is a number exactly when every document's count is. */
  lemma {:induction false} LinesTotalDefined(sample: seq<Document>)
    ensures LinesTotal(sample).Some? <==> forall i :: 0 <= i < |sample| ==> LineCount(sample[i]).Some?
    decreases |sample|
  {
    if sample != [] {
      var init := sample[..|sample| - 1];
      LinesTotalDefined(init);
      assert forall i :: 0 <= i < |init| ==> init[i] == sample[i];
    }
  }

  /** Totals add up over a split of the sample. */
  lemma {:induction false} LinesTotalAppend(a: seq<Document>, b: seq<Document>)
    ensures LinesTotal(a + b) == AddCounts(LinesTotal(a), LinesTotal(b))
    decreases |b|
  {
    if b == [] {
      assert a + b == a;
    } else {
      var init := b[..|b| - 1];
      LinesTotalAppend(a, init);
      assert (a + b)[..|a + b| - 1] == a + init;
    }
  }

  /** `upload.country || 'N/A'`. */
  function OrNotAvailable(s: string): (r: string)
    ensures r != ""
    ensures s == "" ==> r == "N/A"
    ensures s != "" ==> r == s
  {
    if s == "" then "N/A" else s
  }

  /** A blank country given at upload time is shown as `N/A`, because the stored value
      is trimmed first; any other country is shown trimmed. */
  lemma CountryNotAvailable(data: seq<Document>, country: string, erp: string)
    requires |data| > 0
    ensures SaveUpload(data, country, erp).Ok?
    ensures (forall i :: 0 <= i < |country| ==> IsJsWhitespace(country[i]))
            ==> OrNotAvailable(SaveUpload(data, country, erp).value.country) == "N/A"
    ensures !(forall i :: 0 <= i < |country| ==> IsJsWhitespace(country[i]))
            ==> OrNotAvailable(SaveUpload(data, country, erp).value.country) == Trim(country) != ""
  {
    TrimEmptyIff(country);
  }

  datatype Meta = Meta(rowsParsed: nat, linesTotal: Option<nat>, country: string, erp: string, db: string)

  datatype Report = Report(
    reportId: string,
    scores: Scores,
    coverage: Coverage,
    ruleFindings: seq<Finding>,
    gaps: seq<string>,
    meta: Meta)

  /** Why `analyze` refuses a request: 400 for a missing id or questionnaire, 404 for an
      unknown upload. */
  datatype AnalyzeError = MissingInput | UploadNotFound(uploadId: string)

  /** `report` is what `analyze` assembles for `upload`: the coverage of its rows, the
      five rule findings, the scores, one gap per failed rule and the metadata. */
  predicate IsReportOf(upload: Upload, q: Questionnaire, reportId: string, report: Report)
  {
    && report.reportId == reportId
    && report.coverage == MatchAll(GetsRequired, SourceKeys(upload.data)).cov
    && |report.ruleFindings| == 5
    && (forall i :: 0 <= i < 5 ==> Reports(upload.data, RuleOrder[i], report.ruleFindings[i]))
    && report.gaps == Gaps(report.ruleFindings)
    && report.scores == CalculateAllScores(upload, report.coverage, 20 * CountOk(report.ruleFindings), q)
    && report.meta == Meta(upload.rowsParsed, LinesTotal(upload.data), OrNotAvailable(upload.country),
                           OrNotAvailable(upload.erp), "mongodb")
  }

  /** The rule score and the gaps account for the five rules between them, the coverage
      score needs no clamp, and a stored upload's overall score is in [0, 100]. */
  lemma {:induction false} ReportScores(upload: Upload, q: Questionnaire, report: Report)
    requires |report.ruleFindings| == 5
    requires report.gaps == Gaps(report.ruleFindings)
    requires report.scores == CalculateAllScores(upload, report.coverage, 20 * CountOk(report.ruleFindings), q)
    requires |report.coverage.matched| + |report.coverage.close| <= |GetsRequired|
    ensures 20 * |report.gaps| + report.scores.rules == 100
    ensures 0 <= report.scores.rules <= 100
    ensures report.scores.coverage == (25 * |report.coverage.matched| + 20 * |report.coverage.close| + 2) / 4
    ensures ValidUpload(upload) ==> 0 <= report.scores.overall <= 100
  {
    GapsSpec(report.ruleFindings);
    CoverageClampIdle(report.coverage);
  }

  /** `analyze` without the database write: `store` stands for the uploads collection,
      `reportId` for the generated id, and "" for a missing upload id. */
  method Analyze(store: map<string, Upload>, uploadId: string, questionnaire: Option<Questionnaire>,
                 reportId: string)
    returns (result: Result<Report, AnalyzeError>)
    ensures uploadId == "" || questionnaire.None? <==> result == Err(MissingInput)
    ensures uploadId != "" && questionnaire.Some? && uploadId !in store
            <==> result == Err(UploadNotFound(uploadId))
    ensures result.Ok? ==> uploadId in store && questionnaire.Some?
                           && IsReportOf(store[uploadId], questionnaire.value, reportId, result.value)
    ensures result.Ok? ==> 20 * |result.value.gaps| + result.value.scores.rules == 100
    ensures result.Ok? && ValidUpload(store[uploadId]) ==> 0 <= result.value.scores.overall <= 100
  {
    if uploadId == "" || questionnaire.None? {
      return Err(MissingInput);
    }
    if uploadId !in store {
      return Err(UploadNotFound(uploadId));
    }
    var upload := store[uploadId];
    var sampleData := upload.data;

    var coverage := CalculateCoverage(sampleData);
    var ruleFindings, ruleScore := RunRuleChecks(sampleData);
    var scores := CalculateAllScores(upload, coverage, ruleScore, questionnaire.value);

    var gaps := Gaps(ruleFindings);
    var meta := Meta(upload.rowsParsed, LinesTotal(sampleData), OrNotAvailable(upload.country),
                     OrNotAvailable(upload.erp), "mongodb");
    var report := Report(reportId, scores, coverage, ruleFindings, gaps, meta);
    ReportScores(upload, questionnaire.value, report);
    result := Ok(report);
  }
}
