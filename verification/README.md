# E-invoicing readiness analyzer — analysis core

This project models the analysis core of a readiness analyzer for the GETS v0.1 e-invoicing
schema (`controllers/analyzerController.js`). A client uploads a sample of up to 200
invoice records. The analyzer then:

- matches the sample's field names against the 16 required schema paths (matched, close,
  missing);
- runs five integrity rules over the rows (TOTALS_BALANCE, LINE_MATH, DATE_ISO,
  CURRENCY_ALLOWED, TRN_PRESENT);
- computes four component scores and their weighted overall score;
- assembles a report with one "gap" line per failed rule and some metadata.

Modules:

- `Seqs` — sequence helpers: `includes`, `Set` insertion order, order-preserving
  sub-sequences.
- `KeyNormalizer` — `normalizeKey` and the `'[]'` removal applied to schema paths.
- `JsText` — the JavaScript string operations the rules use: `trim` and `toUpperCase`.
- `Sample` — the schema constants, the record and upload data model, and the row
  truncation of `saveUpload`.
- `JsMath` — `Math.round` and `parseFloat(x.toFixed(2))` on exact reals.
- `CoverageMatcher` — `calculateCoverage`: a specification function `MatchAll` plus the
  loop methods proved equal to it, and the partition, close-match and missing properties.
- `RuleEngine` — `runRuleChecks`: one method per rule, each proved against a predicate
  stating when the rule holds and what detail it keeps.
- `ScoreAggregator` — `calculateAllScores`, with integer closed forms of every score.
- `Analysis` — `analyze`: upload lookup, the error paths, the gaps and the metadata.

The source's coercions are applied when a record enters the model. Document totals are
`Number(x || 0)` and line amounts `Number(x) || 0`, both as exact reals. The date and TRN
fields are `String(x)` of the field. A date field is optional: absent for a falsy field,
and `String(x)` for a truthy one, so a truthy `[]` is present with empty text. The currency
is the field itself, taken as a string. An absent or falsy TRN or currency is `""`.

Three facts of the code shape the model:

- `GETS_SCHEMA.required` lists 16 paths, six of them `invoice.*`
  (`controllers/analyzerController.js` lines 18-24).
- DATE_ISO checks only the `dddd-dd-dd` shape (line 237), so `2024-13-40` passes
  (`RuleEngine.ShapeOnlyDate`).
- The data score (line 291) does not clamp the row count at 200. It needs no clamp,
  because the slice at line 44 never keeps more than 200 rows.

## Model

| member | source | states |
|---|---|---|
| KeyNormalizer.NormChar | controllers/analyzerController.js:28 | lower-casing then dropping `[\W_]` keeps exactly ASCII letters, digits and the two non-ASCII letters that lower-case into ASCII; a capital A–Z becomes its lower-case letter, a kept character is in [a-z0-9], and a character already in [a-z0-9] is kept unchanged |
| KeyNormalizer.NormalizeKey | controllers/analyzerController.js:28 | the normalised key holds only [a-z0-9], is no longer than the key, and a key already in that alphabet is returned unchanged |
| KeyNormalizer.NormalizeSingle | controllers/analyzerController.js:28 | a one-character key normalises to what `NormChar` makes of its character; with `NormalizeConcat` this fixes the normal form of every key character by character |
| KeyNormalizer.LowerAscii | controllers/analyzerController.js:28 | ASCII lower-casing keeps the length and leaves no capital A–Z |
| KeyNormalizer.NormalizeCaseInsensitive | controllers/analyzerController.js:28 | a key and its ASCII lower-cased form normalise alike, so `Invoice_ID` and `invoice.id` compare equal in the matcher |
| KeyNormalizer.NormalizeIdempotent | controllers/analyzerController.js:28 | normalising twice is normalising once |
| KeyNormalizer.NormalizeConcat | controllers/analyzerController.js:28 | normalisation distributes over concatenation, since the regex works character by character |
| KeyNormalizer.RemoveFirstBrackets | controllers/analyzerController.js:155 | `replace('[]', '')` cuts out the first `[]` (the one at the least index), and leaves a path without `[]` unchanged |
| KeyNormalizer.RemoveFirstBracketsCons | controllers/analyzerController.js:155 | the first-occurrence cut commutes with a leading character that does not start `[]` |
| KeyNormalizer.BracketRemovalInvisible | controllers/analyzerController.js:155 | removing the first `[]` before normalising changes nothing, because normalisation drops brackets anyway |
| KeyNormalizer.NormalizePath | controllers/analyzerController.js:153-156 | a schema path's normal form equals the plain normal form of the path |
| KeyNormalizer.LinesPrefixNormalForm | controllers/analyzerController.js:143 | the line-item key prefix `lines[].` normalises to `lines` |
| Sample.SaveUpload | controllers/analyzerController.js:44-56 | the upload is refused with the no-data message exactly when the sample is empty; otherwise the stored rows are a prefix of the sample, rowsParsed is min(rows, 200) and equals the number of stored rows, and country and ERP are stored trimmed, as the upload schema's `trim: true` (models/Upload.js lines 12-13) does, the country empty exactly when it was all white space |
| Seqs.DedupSpec | controllers/analyzerController.js:138-140 | the source key `Set` holds no duplicate and holds exactly the keys added to it |
| Seqs.SubseqNoDup | controllers/analyzerController.js:161-188 | a sub-sequence of a duplicate-free list is duplicate-free and draws only on that list |
| Seqs.IsInfix | controllers/analyzerController.js:165 | `b.includes(a)`: `a` occurs as a contiguous block of `b` |
| Seqs.AddLast | controllers/analyzerController.js:140-143 | `Set.prototype.add`: append unless already present |
| Seqs.Dedup | controllers/analyzerController.js:138-148 | the Set's contents in insertion order, as `Array.from` lists them |
| CoverageMatcher.AddAll | controllers/analyzerController.js:140-143 | adding keys one by one to the insertion-ordered set gives the set of the old keys followed by the new ones |
| CoverageMatcher.AddDocKeys | controllers/analyzerController.js:139-145 | one document contributes its own keys, then each line item's keys prefixed with `lines[].`, and the latter only when `lines` is an array |
| CoverageMatcher.CollectSourceKeys | controllers/analyzerController.js:138-146 | the source keys are those of the specification, hold no duplicate, and are exactly the raw keys of all documents |
| CoverageMatcher.FirstExact | controllers/analyzerController.js:164-173 | the index of the first source key whose normal form equals the path's and that no earlier path has used, or none when there is no such key |
| CoverageMatcher.FirstRelated | controllers/analyzerController.js:164-178 | the index of the first source key whose normal form contains the path's, or is contained in it, or none when there is no such key |
| CoverageMatcher.FirstExactAt | controllers/analyzerController.js:168-172 | a free exact key with no free exact key before it is the one the scan takes |
| CoverageMatcher.FirstRelatedAt | controllers/analyzerController.js:175-177 | a related key with no related key before it is the one recorded as best match |
| CoverageMatcher.ScanKeys | controllers/analyzerController.js:164-179 | the inner scan stops at the first free exact key; when there is none, the best match is the first related key; an exact hit leaves no best match |
| CoverageMatcher.Step | controllers/analyzerController.js:161-188 | one pass of the outer loop: an unused exact key matches and is credited; otherwise a path already matched is skipped, a related key makes a close match at 0.8, and no related key makes it missing |
| CoverageMatcher.MatchAll | controllers/analyzerController.js:161-188 | the paths handled in schema order, starting from empty buckets and no credited keys |
| CoverageMatcher.MatchPaths | controllers/analyzerController.js:158-188 | the outer loop over the schema paths computes exactly the coverage of the specification `MatchAll` |
| CoverageMatcher.CalculateCoverage | controllers/analyzerController.js:137-191 | matched, close and missing partition the 16 schema paths: each path lands in exactly one bucket, and the matched paths keep schema order; every close entry names the first related source key with confidence 0.8; a missing path has no related source key; a matched path has a source key with exactly its normal form |
| CoverageMatcher.MatchCredits | controllers/analyzerController.js:159-171 | each matched path consumes one distinct source key, and that key has the path's normal form, so no key is credited twice |
| CoverageMatcher.CreditsGrow | controllers/analyzerController.js:159-170 | the set of used keys only grows from one path to the next |
| CoverageMatcher.CloseIsFirstRelated | controllers/analyzerController.js:175-184 | every close entry names, as candidate, the first source key related to its target, with confidence 0.8 |
| CoverageMatcher.CloseExactKeysConsumed | controllers/analyzerController.js:168-177 | every close target is a schema path at some position i such that every source key with its exact normal form is among the keys credited to the paths before i |
| CoverageMatcher.ConsumedBeforeSnoc | controllers/analyzerController.js:161-187 | a close entry explained by the keys credited before its path stays explained when a path is added |
| CoverageMatcher.ConsumedBeforeLast | controllers/analyzerController.js:168-177 | a path that the last step makes close had every exact key already credited to the earlier paths |
| CoverageMatcher.MissingHasNoRelatedKey | controllers/analyzerController.js:185-186 | a path ends up missing only when no source key is related to it |
| CoverageMatcher.StepAddsOnce | controllers/analyzerController.js:168-187 | handling one path that is not yet matched appends it to exactly one of the three buckets and leaves the other two unchanged |
| CoverageMatcher.PartitionSnoc | controllers/analyzerController.js:161-187 | adding one path to one bucket keeps the buckets a partition of the paths seen so far |
| CoverageMatcher.MatchPartition | controllers/analyzerController.js:161-188 | for distinct paths, the three buckets together hold each path exactly once (multiset equality), and each bucket keeps the paths' order |
| CoverageMatcher.BucketsPartition | controllers/analyzerController.js:161-188 | for distinct paths, the bucket sizes add up to the path count; no bucket repeats a path; every path is in some bucket; no path is in two |
| CoverageMatcher.MatchedHaveExactKey | controllers/analyzerController.js:168-169 | every matched path has a source key with its exact normal form |
| CoverageMatcher.GetsPathsDistinct | controllers/analyzerController.js:18-24 | the 16 required schema paths are distinct |
| CoverageMatcher.LineKeyNormalForm | controllers/analyzerController.js:143-155 | a line-item key `lines[].k` normalises to `lines` followed by the normal form of `k`, the same with or without the `'[]'` removal, so it meets the `lines[].*` schema paths |
| CoverageMatcher.MatchOnePath | controllers/analyzerController.js:168-172 | a single path whose normal form equals a single key's is matched and uses that key |
| CoverageMatcher.ConsumedKeyBecomesClose | controllers/analyzerController.js:159-177 | when two paths share the normal form of the only key, the first is matched and the second becomes a close match on the used key |
| JsMath.Round | controllers/analyzerController.js:288 | `Math.round` gives the integer r with r <= x + 1/2 < r + 1, so halves round up |
| JsMath.RoundUnique | controllers/analyzerController.js:288 | that bracket determines the rounded value |
| JsMath.RoundQuotient | controllers/analyzerController.js:299 | rounding n/d gives the integer (2n + d) / (2d) |
| JsMath.ToFixed2Close | controllers/analyzerController.js:223-224 | rounding to two decimals moves a value by at most 0.005 and keeps its sign |
| JsMath.ToFixed2Idempotent | controllers/analyzerController.js:223-224 | rounding an already rounded value to two decimals changes nothing |
| JsMath.ToFixed2 | controllers/analyzerController.js:223-224 | `parseFloat(x.toFixed(2))`: the magnitude rounded half up to two decimals with the sign kept, and `x` itself from 10^21 on |
| JsText.ToUpper | controllers/analyzerController.js:250 | upper-casing keeps the length, leaves no lower-case ASCII letter, turns each of `a`–`z` into its capital, and leaves every other ASCII character unchanged |
| JsText.ToUpperIdempotent | controllers/analyzerController.js:250 | upper-casing twice is upper-casing once |
| JsText.TrimStart | controllers/analyzerController.js:266 | trimming the front leaves a suffix of the text, and what it cuts off is white space only; the result is empty exactly when the text is all white space, and otherwise starts with a character that is not white space |
| JsText.TrimEnd | controllers/analyzerController.js:266 | trimming the end leaves a prefix of the text, and what it cuts off is white space only; the result is empty or ends with a character that is not white space, and a first character that is not white space is kept |
| JsText.Trim | controllers/analyzerController.js:266 | `trim()` leaves a contiguous block of the text with only white space before and after it, and the block neither starts nor ends with white space |
| JsText.UpperChar | controllers/analyzerController.js:250 | `toUpperCase` of one character: a–z to A–Z, `ſ` to `S`, `ı` to `I`, every other character kept |
| JsText.TrimEmptyIff | controllers/analyzerController.js:266 | a text trims to nothing exactly when it consists of white space only |
| RuleEngine.DateValue | controllers/analyzerController.js:239 | the first truthy of `doc.date` and `doc.invoice_issue_date`: the date when it is truthy, else the issue date when that is truthy, else none |
| RuleEngine.DatePrecedence | controllers/analyzerController.js:239-240 | a truthy `date` decides DATE_ISO by the shape of its text, and `invoice_issue_date` is consulted only when `date` is falsy or absent |
| RuleEngine.EmptyTruthyDateFails | controllers/analyzerController.js:239-240 | a truthy date whose text is empty, such as `[]`, fails DATE_ISO whatever the issue date is |
| RuleEngine.IsIsoDateShape | controllers/analyzerController.js:237 | the regex `^\d{4}-\d{2}-\d{2}$`: ten characters, digits with dashes at positions 4 and 7 |
| RuleEngine.ShapeOnlyDate | controllers/analyzerController.js:237 | the date check is shape-only, so `2024-13-40` passes |
| RuleEngine.LowerCaseCodeAllowed | controllers/analyzerController.js:250-251 | currency codes are compared after upper-casing, so `usd` is allowed |
| RuleEngine.CurrencyValue | controllers/analyzerController.js:250 | the upper-cased currency field, `""` when it is absent or falsy |
| RuleEngine.RuleHolds | controllers/analyzerController.js:197-267 | a rule passes when no document (for LINE_MATH, no array line item) violates it, as each `sampleData.some` computes |
| RuleEngine.Reports | controllers/analyzerController.js:204-269 | a pushed finding names its rule, passes exactly when the rule holds, and carries the first LINE_MATH failure or the first refused currency exactly when that rule fails |
| RuleEngine.Describe | controllers/analyzerController.js:221-225 | the LINE_MATH detail: 1-based document number, qty × unit_price and line_total written to two decimals |
| RuleEngine.ReportsUnique | controllers/analyzerController.js:193-275 | the rule semantics leave no choice: two findings that both report the same rule on the same sample are equal, first-offence details included |
| RuleEngine.FirstBrokenLineUnique | controllers/analyzerController.js:211-229 | the nested early-exit scans single out one line: the first broken line of the first document that has one is unique |
| RuleEngine.FirstLineFailureUnique | controllers/analyzerController.js:220-226 | the LINE_MATH detail is determined by the sample |
| RuleEngine.FirstBadCurrencyUnique | controllers/analyzerController.js:249-256 | the captured CURRENCY_ALLOWED value is determined by the sample: it is the code of the first refused document |
| RuleEngine.CheckTotalsBalance | controllers/analyzerController.js:198-206 | TOTALS_BALANCE passes exactly when every document's excl + vat is within 0.01 of incl |
| RuleEngine.FindBrokenLine | controllers/analyzerController.js:214-229 | returns the first line item whose qty × unit_price is more than 0.01 from line_total, or none when every line is balanced |
| RuleEngine.FirstFailureReported | controllers/analyzerController.js:221-225 | the first broken line, found document by document and line by line, yields the reported detail: 1-based document index, and expected and got rounded to two decimals |
| RuleEngine.CheckLineMath | controllers/analyzerController.js:210-233 | LINE_MATH passes exactly when no array line item is broken; on failure it carries the detail of the first broken line, and on success no detail |
| RuleEngine.CheckDateIso | controllers/analyzerController.js:237-244 | DATE_ISO passes exactly when no document has a truthy date (`date`, else `invoice_issue_date`) whose text is not of the `dddd-dd-dd` shape |
| RuleEngine.CheckCurrencyAllowed | controllers/analyzerController.js:248-259 | CURRENCY_ALLOWED passes exactly when every non-empty upper-cased currency is one of AED, SAR, MYR, USD; on failure it carries the first offending upper-cased code |
| RuleEngine.TrnMissingTrim | controllers/analyzerController.js:266 | a document misses a TRN exactly when its buyer or seller TRN trims to nothing |
| RuleEngine.IsBlank | controllers/analyzerController.js:266 | `!String(x).trim()` holds exactly when the text is all white space |
| RuleEngine.CheckTrnPresent | controllers/analyzerController.js:263-270 | TRN_PRESENT passes exactly when every document has a buyer TRN and a seller TRN that are not all white space, that is, do not trim to nothing |
| RuleEngine.CountOk | controllers/analyzerController.js:195-270 | the number of passed findings is at most the number of findings |
| RuleEngine.CountOkSnoc | controllers/analyzerController.js:206 | each pushed finding adds one to the passed count exactly when it passed |
| RuleEngine.RuleScore | controllers/analyzerController.js:272 | rounding passed / 5 × 100 gives exactly 20 × passed |
| RuleEngine.RunRuleChecks | controllers/analyzerController.js:193-275 | five findings in the fixed order TOTALS_BALANCE, LINE_MATH, DATE_ISO, CURRENCY_ALLOWED, TRN_PRESENT, each reporting its rule correctly; the rule score is 20 × the number of passed findings, and lies in [0, 100] |
| ScoreAggregator.PosturePoints | controllers/analyzerController.js:285-287 | at most 3 points; 0 exactly when every answer is no and 3 exactly when every answer is yes |
| ScoreAggregator.PostureScore | controllers/analyzerController.js:288 | the posture score is (200p + 3) / 6 for p points, that is 0, 33, 67 or 100 |
| ScoreAggregator.DataScore | controllers/analyzerController.js:291 | the data score is (rows + 1) / 2: non-negative, at most 100 for at most 200 rows, and exactly 100 at 200 rows |
| ScoreAggregator.CoverageScore | controllers/analyzerController.js:294-301 | the coverage score is min(100, (25m + 20c + 2) / 4) for m matched and c close paths, so it lies in [0, 100] |
| ScoreAggregator.OverallScore | controllers/analyzerController.js:304-309 | the overall score is (25d + 35c + 30r + 10p + 50) / 100, and lies in [0, 100] when every component does |
| ScoreAggregator.CalculateAllScores | controllers/analyzerController.js:280-318 | every score in its closed form; the coverage and posture scores lie in [0, 100]; for a stored upload and a rule score in [0, 100], the data and overall scores do too |
| ScoreAggregator.CoverageClampIdle | controllers/analyzerController.js:301 | the clamp at 100 never fires when at most 16 paths are matched or close |
| ScoreAggregator.CoverageMonotone | controllers/analyzerController.js:298-301 | more exact matches, with no fewer paths matched or close in total, never lower the coverage score |
| ScoreAggregator.PerfectReport | controllers/analyzerController.js:280-318 | a full 200-row upload with every path matched, every rule passed and every answer yes scores 100 on all five scores |
| Analysis.DigitChar | controllers/analyzerController.js:373 | a digit value becomes one of the characters `0`–`9` |
| Analysis.NatToString | controllers/analyzerController.js:373 | the line number is written in decimal digits only, with no leading zero |
| Analysis.NatToStringRoundTrip | controllers/analyzerController.js:373 | reading the written numeral back gives the number |
| Analysis.GapRuleInverse | controllers/analyzerController.js:374 | each gap line names its finding's rule, and the rule can be read back from the line |
| Analysis.GapDetail | controllers/analyzerController.js:373 | the captured value when it is non-empty, else ` (Line n)` for a LINE_MATH example line n, else nothing |
| Analysis.GapLine | controllers/analyzerController.js:374 | `Rule Failed: ` followed by the rule name and its detail |
| Analysis.Gaps | controllers/analyzerController.js:372-375 | `filter(f => !f.ok).map(...)`: the gap lines of the failed findings, in order |
| Analysis.GapsSnoc | controllers/analyzerController.js:372 | a passed finding adds no gap, and a failed finding appends its gap line |
| Analysis.GapsSpec | controllers/analyzerController.js:372-375 | there is one gap per failed finding: the gap count plus the passed count is the finding count, each gap is the line of a failed finding, and each failed finding has its line among the gaps |
| Analysis.GapsPrefix | controllers/analyzerController.js:372 | the gaps keep finding order: the gaps of a prefix of the findings are a prefix of the gaps |
| Analysis.LineMathGap | controllers/analyzerController.js:373-374 | a failed LINE_MATH finding for document n reads `Rule Failed: LINE_MATH (Line n)` |
| Analysis.CurrencyGap | controllers/analyzerController.js:373-374 | a failed CURRENCY_ALLOWED finding reads `Rule Failed: CURRENCY_ALLOWED` followed directly by the offending code |
| Analysis.LinesTotalDefined | controllers/analyzerController.js:378 | the line total is a number exactly when every document's line count is |
| Analysis.LinesTotalAppend | controllers/analyzerController.js:378 | line totals add up over a split of the sample |
| Analysis.LineCount | controllers/analyzerController.js:378 | `doc.lines ? doc.lines.length : 0`, with none standing for NaN |
| Analysis.LinesTotal | controllers/analyzerController.js:378 | the `reduce` sum of the line counts, NaN-propagating |
| Analysis.OrNotAvailable | controllers/analyzerController.js:379-380 | `""` becomes `N/A`, any other value is kept, so the result is never empty |
| Analysis.CountryNotAvailable | controllers/analyzerController.js:379 | with the stored country trimmed, a country of white space only is reported as `N/A`, and any other country as its trimmed text |
| Analysis.ReportScores | controllers/analyzerController.js:363-375 | in a report, 20 × the gap count + the rule score is 100; the coverage score needs no clamp; a stored upload's overall score lies in [0, 100] |
| Analysis.Analyze | controllers/analyzerController.js:343-383 | a missing upload id or questionnaire gives the missing-input error; an unknown upload id gives not-found; otherwise the report is assembled from the stored upload as specified, with 20 × gaps + rule score = 100 and, for a stored upload, an overall score in [0, 100] |

## Left out

- HTTP handling is not modelled: `upload`, `handleFileUpload`, `handleRawBody`, the status
  codes and the wording of the error bodies. `Analysis.Analyze` returns an error value
  instead.
- File and CSV parsing (`parseFile`, formidable, csvtojson) is not modelled. A sample is
  given as a sequence of already parsed records.
- Random upload and report ids are not modelled. The report id is a parameter of
  `Analysis.Analyze`.
- MongoDB persistence is not modelled. Stored uploads are a map from id to upload, and
  saving the report is not modelled. `Sample.SaveUpload` returns the upload instead of
  writing it.
- `getReport` and the user interface are outside this core.
- All arithmetic is exact: IEEE-754 doubles are replaced by exact reals. This drops the
  binary rounding error of the divisions, of the weights and of 0.8 and `toFixed`, and the
  NaN that `Number` gives for non-numeric totals. Such a NaN makes the TOTALS_BALANCE
  comparison false in the source.
- ScoreAggregator.DataScore: the closed form (rows + 1) / 2 holds for exact reals. In doubles,
  `29 / 200 * 100` is 14.499999999999998, so `Math.round` at line 291 gives 14 where the
  model gives 15; the same happens at 57, 113 and 115 rows.
- ScoreAggregator.CoverageScore: the division by 16 and the factor 0.8 (lines 298-299) are
  exact. In doubles, 2 matched and 9 close paths give 57 where the model gives 58, and so do
  6 matched and 4 close.
- ScoreAggregator.OverallScore: the weights 0.25, 0.35, 0.30 and 0.10 (lines 282, 304-309)
  are exact. In doubles, the weighted sum can fall just below a half and round one lower
  than the model's closed form. The posture division by 3 (line 288) gives the same four
  values either way.
- RuleEngine.CheckTotalsBalance: the 0.01 tolerance is compared exactly. In doubles,
  `1.01 - 1` is 0.010000000000000009, so excl 1.01, vat 0 and incl 1 fails TOTALS_BALANCE
  in the source and passes in the model. RuleEngine.CheckLineMath has the same 0.01 boundary.
- JsText.UpperChar: upper-cases a–z, `ſ` and `ı` only. Characters whose upper case is
  longer or non-ASCII (`ß`, `é`, ligatures) are kept as they are. Whether a rule passes is
  unaffected, but the captured currency value can differ.
- KeyNormalizer.NormChar: models `toLowerCase` only for A–Z and the two non-ASCII letters
  whose lower case is ASCII (KELVIN SIGN, dotted capital I). Every other non-ASCII
  character is removed by `[\W_]` either way.
- `Object.keys` order and field values are taken as given in each record. The coercions
  `Number(x || 0)` (document totals), `Number(x) || 0` (line amounts) and `String(x)`
  (dates and TRNs) are assumed already applied. A falsy TRN or currency is `""`, and a
  falsy date is absent.
- A truthy currency that is not a string is not modelled. `toUpperCase` at line 250 throws
  a TypeError on it, and `analyze` then never answers.
- A `null` document or line item is not modelled. `Object.keys` throws on it at lines 140
  and 143, and so does `line.qty` at line 215.
- A truthy non-array `lines` whose `length` is a string is modelled as giving no line total.
  In the source, the `+` at line 378 then concatenates strings instead.
- The questionnaire answers are taken as booleans. JavaScript truthiness of other values
  is not modelled.
- `exampleLine` is the 1-based index of the document, not of the line item, as in the
  source.
