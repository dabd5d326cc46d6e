/** `calculateAllScores`: the four component scores and their weighted overall score,
    computed on exact reals with `Math.round` and then stated as integer closed forms. */
module ScoreAggregator {
  import opened Sample
  import opened JsMath
  import opened CoverageMatcher

  /** The integration-posture answers; a missing answer is `false`. */
  datatype Questionnaire = Questionnaire(webhooks: bool, sandboxEnv: bool, retries: bool)

  /** The five scores of a report. */
  datatype Scores = Scores(data: int, coverage: int, rules: int, posture: int, overall: int)

  /** Weights of the overall score: data, coverage, rules, posture (they sum to one). */
  const WeightData: real := 0.25
  const WeightCoverage: real := 0.35
  const WeightRules: real := 0.30
  const WeightPosture: real := 0.10

  /** One point per positive answer. */
  function PosturePoints(q: Questionnaire): (n: nat)
    ensures n <= 3
    ensures n == 0 <==> !q.webhooks && !q.sandboxEnv && !q.retries
    ensures n == 3 <==> q.webhooks && q.sandboxEnv && q.retries
  {
    (if q.webhooks then 1 else 0) + (if q.sandboxEnv then 1 else 0) + (if q.retries then 1 else 0)
  }

  function Min(a: int, b: int): int
  {
    if a < b then a else b
  }

  /** `Math.round((points / 3) * 100)` is 0, 33, 67 or 100. */
  function PostureScore(q: Questionnaire): (s: int)
    ensures s == (200 * PosturePoints(q) + 3) / 6
    ensures s == [0, 33, 67, 100][PosturePoints(q)]
  {
    var p := PosturePoints(q);
    assert p as real / 3.0 * 100.0 == (100 * p) as real / 3 as real;
    RoundQuotient(100 * p, 3);
    Round(p as real / 3.0 * 100.0)
  }

  /** `Math.round((rowsParsed / MAX_ROWS) * 100)`: half the row count, halves rounded up;
      at most 100 for a stored upload. */
  function DataScore(rowsParsed: nat): (s: int)
    ensures s == (rowsParsed + 1) / 2
    ensures 0 <= s
    ensures rowsParsed <= MaxRows ==> s <= 100
    ensures rowsParsed == MaxRows ==> s == 100
  {
    assert rowsParsed as real / MaxRows as real * 100.0 == rowsParsed as real / 2 as real;
    RoundQuotient(rowsParsed, 2);
    Round(rowsParsed as real / MaxRows as real * 100.0)
  }

  /** `Math.round(((matched + close * 0.8) / 16) * 100)`, clamped at 100: an exact match
      is worth 25/4 points and a close one 5 points. */
  function CoverageScore(coverage: Coverage): (s: int)
    ensures s == Min(100, (25 * |coverage.matched| + 20 * |coverage.close| + 2) / 4)
    ensures 0 <= s <= 100
  {
    var m := |coverage.matched|;
    var c := |coverage.close|;
    assert |GetsRequired| == 16;
    assert (m as real + c as real * CloseConfidence) / |GetsRequired| as real * 100.0
           == (100 * m + 80 * c) as real / 16 as real;
    RoundQuotient(100 * m + 80 * c, 16);
    var raw := Round((m as real + c as real * CloseConfidence) / |GetsRequired| as real * 100.0);
    if raw > 100 then 100 else raw
  }

  /** The weighted sum, rounded: (25 data + 35 coverage + 30 rules + 10 posture) / 100. */
  function OverallScore(data: int, coverage: int, rules: int, posture: int): (s: int)
    ensures s == (25 * data + 35 * coverage + 30 * rules + 10 * posture + 50) / 100
    ensures 0 <= data <= 100 && 0 <= coverage <= 100 && 0 <= rules <= 100 && 0 <= posture <= 100
            ==> 0 <= s <= 100
  {
    var n := 25 * data + 35 * coverage + 30 * rules + 10 * posture;
    assert data as real * WeightData + coverage as real * WeightCoverage
           + rules as real * WeightRules + posture as real * WeightPosture
           == n as real / 100 as real;
    RoundQuotient(n, 100);
    Round(data as real * WeightData + coverage as real * WeightCoverage
          + rules as real * WeightRules + posture as real * WeightPosture)
  }

  /** `calculateAllScores`: every score of a stored upload whose rule score comes from
      the rule engine lies in [0, 100]. */
  function CalculateAllScores(upload: Upload, coverage: Coverage, ruleScore: int, q: Questionnaire): (s: Scores)
    ensures s.rules == ruleScore
    ensures s.data == (upload.rowsParsed + 1) / 2
    ensures s.posture == (200 * PosturePoints(q) + 3) / 6
    ensures s.coverage == Min(100, (25 * |coverage.matched| + 20 * |coverage.close| + 2) / 4)
    ensures s.overall == (25 * s.data + 35 * s.coverage + 30 * ruleScore + 10 * s.posture + 50) / 100
    ensures 0 <= s.coverage <= 100 && 0 <= s.posture <= 100
    ensures ValidUpload(upload) && 0 <= ruleScore <= 100
            ==> 0 <= s.data <= 100 && 0 <= s.overall <= 100
  {
    var data := DataScore(upload.rowsParsed);
    var cov := CoverageScore(coverage);
    var posture := PostureScore(q);
    Scores(data, cov, ruleScore, posture, OverallScore(data, cov, ruleScore, posture))
  }

  /** The clamp never fires when no more paths are matched or close than the schema has,
      as the coverage partition guarantees. */
  lemma {:induction false} CoverageClampIdle(coverage: Coverage)
    requires |coverage.matched| + |coverage.close| <= |GetsRequired|
    ensures CoverageScore(coverage) == (25 * |coverage.matched| + 20 * |coverage.close| + 2) / 4
  {
    var m := |coverage.matched|;
    var c := |coverage.close|;
    assert 25 * m + 20 * c + 2 <= 402;
  }

  /** More exact matches, and no fewer paths matched or close in total, never lower the
      coverage score (so turning a close match into an exact one never does). */
  lemma {:induction false} CoverageMonotone(a: Coverage, b: Coverage)
    requires |a.matched| <= |b.matched|
    requires |a.matched| + |a.close| <= |b.matched| + |b.close|
    ensures CoverageScore(a) <= CoverageScore(b)
  {
    var n1 := 25 * |a.matched| + 20 * |a.close| + 2;
    var n2 := 25 * |b.matched| + 20 * |b.close| + 2;
    assert n1 <= n2;
    assert n1 / 4 <= n2 / 4;
  }

  /** A full upload with every path matched, every rule passing and every answer yes
      scores 100 throughout. */
  lemma PerfectReport(upload: Upload, coverage: Coverage)
    requires upload.rowsParsed == MaxRows
    requires |coverage.matched| == |GetsRequired| && |coverage.close| == 0
    ensures CalculateAllScores(upload, coverage, 100, Questionnaire(true, true, true))
            == Scores(100, 100, 100, 100, 100)
  {
  }
}
