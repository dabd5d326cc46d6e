/** `calculateCoverage`: which required schema paths the sample provides exactly,
    which only approximately, and which not at all.
    Line numbers in comments refer to controllers/analyzerController.js. */
module CoverageMatcher {
  import opened Wrappers
  import opened Seqs
  import opened KeyNormalizer
  import opened Sample

  /** Fixed confidence reported for every close match. */
  const CloseConfidence: real := 0.8

  /** Prefix given to the keys of line items. */
  const LinePrefix: string := "lines[]."

  datatype CloseMatch = CloseMatch(target: string, candidate: string, confidence: real)

  datatype Coverage = Coverage(matched: seq<string>, close: seq<CloseMatch>, missing: seq<string>)

  /** The targets of the close matches, in order. */
  function CloseTargets(cs: seq<CloseMatch>): seq<string>
  {
    seq(|cs|, i requires 0 <= i < |cs| => cs[i].target)
  }

  // ---------------------------------------------------------------------------
  // Source keys

  function PrefixAll(ks: seq<string>): seq<string>
  {
    seq(|ks|, i requires 0 <= i < |ks| => LinePrefix + ks[i])
  }

  /** Keys contributed by a list of line items, each prefixed, in visiting order. */
  function LineKeys(items: seq<LineItem>): seq<string>
    decreases |items|
  {
    if items == [] then []
    else LineKeys(items[..|items| - 1]) + PrefixAll(items[|items| - 1].keys)
  }

  /** Keys contributed by one document: its own keys, then those of its line items
      when `lines` is an array. */
  function DocKeys(d: Document): seq<string>
  {
    d.keys + (if d.lines.LineArray? then LineKeys(d.lines.items) else [])
  }

  /** Every key visited, with repetitions, in the order the scan adds them. */
  function RawKeys(sample: seq<Document>): seq<string>
    decreases |sample|
  {
    if sample == [] then []
    else RawKeys(sample[..|sample| - 1]) + DocKeys(sample[|sample| - 1])
  }

  /** The `sourceKeys` set: distinct keys in order of first appearance. */
  function SourceKeys(sample: seq<Document>): seq<string>
  {
    Dedup(RawKeys(sample))
  }

  /** `ks.forEach(key => sourceKeys.add(key))`: add keys one by one to the
      insertion-ordered set. */
  method AddAll(keys: seq<string>, ghost raw: seq<string>, ks: seq<string>) returns (keys': seq<string>)
    requires keys == Dedup(raw)
    ensures keys' == Dedup(raw + ks)
  {
    keys' := keys;
    var n := 0;
    assert raw + ks[..0] == raw;
    while n < |ks|
      invariant 0 <= n <= |ks|
      invariant keys' == Dedup(raw + ks[..n])
    {
      DedupSnoc(raw + ks[..n], ks[n]);
      assert raw + ks[..n + 1] == (raw + ks[..n]) + [ks[n]];
      keys' := AddLast(keys', ks[n]);
      n := n + 1;
    }
    assert ks[..n] == ks;
  }

  lemma RawKeysSnoc(sample: seq<Document>, d: nat)
    requires d < |sample|
    ensures RawKeys(sample[..d + 1]) == RawKeys(sample[..d]) + DocKeys(sample[d])
  {
    assert sample[..d + 1][..d] == sample[..d];
  }

  lemma LineKeysSnoc(prefix: seq<string>, items: seq<LineItem>, m: nat)
    requires m < |items|
    ensures prefix + LineKeys(items[..m + 1]) == (prefix + LineKeys(items[..m])) + PrefixAll(items[m].keys)
  {
    assert items[..m + 1][..m] == items[..m];
  }

  lemma DocKeysArray(before: seq<string>, doc: Document)
    requires doc.lines.LineArray?
    ensures before + DocKeys(doc) == (before + doc.keys) + LineKeys(doc.lines.items)
  {
    assert DocKeys(doc) == doc.keys + LineKeys(doc.lines.items);
  }

  lemma DocKeysPlain(before: seq<string>, doc: Document)
    requires !doc.lines.LineArray?
    ensures before + DocKeys(doc) == before + doc.keys
  {
    assert DocKeys(doc) == doc.keys;
  }

  /** Lines 140-145, one document: its own keys, then the prefixed keys of each of
      its line items when `lines` is an array. */
  method AddDocKeys(keys: seq<string>, ghost before: seq<string>, doc: Document) returns (keys': seq<string>)
    requires keys == Dedup(before)
    ensures keys' == Dedup(before + DocKeys(doc))
  {
    keys' := AddAll(keys, before, doc.keys);
    if doc.lines.LineArray? {
      var items := doc.lines.items;
      var m := 0;
      assert items[..0] == [];
      assert before + doc.keys == before + doc.keys + LineKeys(items[..0]);
      while m < |items|
        invariant 0 <= m <= |items|
        invariant keys' == Dedup(before + doc.keys + LineKeys(items[..m]))
      {
        LineKeysSnoc(before + doc.keys, items, m);
        keys' := AddAll(keys', before + doc.keys + LineKeys(items[..m]), PrefixAll(items[m].keys));
        m := m + 1;
      }
      assert items[..m] == items;
      DocKeysArray(before, doc);
    } else {
      DocKeysPlain(before, doc);
    }
  }

  /** Lines 138-146: fill the insertion-ordered key set document by document. */
  method CollectSourceKeys(sample: seq<Document>) returns (keys: seq<string>)
    ensures keys == SourceKeys(sample)
    ensures NoDup(keys)
    ensures forall k :: k in keys <==> k in RawKeys(sample)
  {
    keys := [];
    var d := 0;
    while d < |sample|
      invariant 0 <= d <= |sample|
      invariant keys == Dedup(RawKeys(sample[..d]))
    {
      keys := AddDocKeys(keys, RawKeys(sample[..d]), sample[d]);
      RawKeysSnoc(sample, d);
      d := d + 1;
    }
    assert sample[..d] == sample;
    DedupSpec(RawKeys(sample));
  }

  // ---------------------------------------------------------------------------
  // Matching specification

  /** JavaScript `a.includes(b) || b.includes(a)`. */
  predicate Related(a: string, b: string)
  {
    IsInfix(a, b) || IsInfix(b, a)
  }

  /** `key` normalises to exactly `target` and has not been credited yet. */
  predicate IsFreeExact(key: string, target: string, credited: seq<string>)
  {
    NormalizeKey(key) == target && key !in credited
  }

  predicate IsRelatedKey(key: string, target: string)
  {
    Related(NormalizeKey(key), target)
  }

  /** Index of the first uncredited key that normalises to `target`. */
  function FirstExact(keys: seq<string>, target: string, credited: seq<string>): (r: Option<nat>)
    ensures r.Some? ==> r.value < |keys| && IsFreeExact(keys[r.value], target, credited)
    ensures r.Some? ==> forall j :: 0 <= j < r.value ==> !IsFreeExact(keys[j], target, credited)
    ensures r.None? ==> forall j :: 0 <= j < |keys| ==> !IsFreeExact(keys[j], target, credited)
    decreases |keys|
  {
    if keys == [] then None
    else if IsFreeExact(keys[0], target, credited) then Some(0)
    else match FirstExact(keys[1..], target, credited)
      case None => None
      case Some(i) => Some(i + 1)
  }

  /** Index of the first key related to `target` by containment. */
  function FirstRelated(keys: seq<string>, target: string): (r: Option<nat>)
    ensures r.Some? ==> r.value < |keys| && IsRelatedKey(keys[r.value], target)
    ensures r.Some? ==> forall j :: 0 <= j < r.value ==> !IsRelatedKey(keys[j], target)
    ensures r.None? ==> forall j :: 0 <= j < |keys| ==> !IsRelatedKey(keys[j], target)
    decreases |keys|
  {
    if keys == [] then None
    else if IsRelatedKey(keys[0], target) then Some(0)
    else match FirstRelated(keys[1..], target)
      case None => None
      case Some(i) => Some(i + 1)
  }

  /** The first-index characterisation determines FirstExact. */
  lemma FirstExactAt(keys: seq<string>, target: string, credited: seq<string>, i: nat)
    requires i < |keys| && IsFreeExact(keys[i], target, credited)
    requires forall j :: 0 <= j < i ==> !IsFreeExact(keys[j], target, credited)
    ensures FirstExact(keys, target, credited) == Some(i)
  {
  }

  /** The first-index characterisation determines FirstRelated. */
  lemma FirstRelatedAt(keys: seq<string>, target: string, i: nat)
    requires i < |keys| && IsRelatedKey(keys[i], target)
    requires forall j :: 0 <= j < i ==> !IsRelatedKey(keys[j], target)
    ensures FirstRelated(keys, target) == Some(i)
  {
  }

  /** The output buckets so far and the keys credited to matched paths, in order. */
  datatype Progress = Progress(cov: Coverage, credited: seq<string>)

  /** Handle one required path (lines 161-188). */
  function Step(p: Progress, keys: seq<string>, path: string): Progress
  {
    var target := NormalizePath(path);
    match FirstExact(keys, target, p.credited)
    case Some(i) =>
      Progress(p.cov.(matched := p.cov.matched + [path]), p.credited + [keys[i]])
    case None =>
      if path in p.cov.matched then p
      else match FirstRelated(keys, target)
        case Some(i) =>
          Progress(p.cov.(close := p.cov.close + [CloseMatch(path, keys[i], CloseConfidence)]), p.credited)
        case None =>
          Progress(p.cov.(missing := p.cov.missing + [path]), p.credited)
  }

  /** The required paths handled in declared order against the source keys. */
  function MatchAll(paths: seq<string>, keys: seq<string>): Progress
    decreases |paths|
  {
    if paths == [] then Progress(Coverage([], [], []), [])
    else Step(MatchAll(paths[..|paths| - 1], keys), keys, paths[|paths| - 1])
  }

  // ---------------------------------------------------------------------------
  // Properties of the matching

  /** Each matched path is credited one source key that normalises exactly like it,
      and no source key is credited twice. */
  lemma {:induction false} MatchCredits(paths: seq<string>, keys: seq<string>)
    ensures var p := MatchAll(paths, keys);
      && |p.credited| == |p.cov.matched|
      && NoDup(p.credited)
      && (forall i :: 0 <= i < |p.credited| ==> p.credited[i] in keys)
      && (forall i :: 0 <= i < |p.credited| ==> NormalizeKey(p.credited[i]) == NormalizePath(p.cov.matched[i]))
    decreases |paths|
  {
    if paths != [] {
      var init := paths[..|paths| - 1];
      var x := paths[|paths| - 1];
      MatchCredits(init, keys);
      var p0 := MatchAll(init, keys);
      assert MatchAll(paths, keys) == Step(p0, keys, x);
      match FirstExact(keys, NormalizePath(x), p0.credited)
      case Some(i) =>
        var p := Progress(p0.cov.(matched := p0.cov.matched + [x]), p0.credited + [keys[i]]);
        assert MatchAll(paths, keys) == p;
        assert keys[i] !in p0.credited;
        assert NoDup(p.credited);
      case None =>
        assert MatchAll(paths, keys).credited == p0.credited;
        assert MatchAll(paths, keys).cov.matched == p0.cov.matched;
    }
  }

  /** The credited keys only grow. */
  lemma {:induction false} CreditsGrow(paths: seq<string>, keys: seq<string>, j: nat)
    requires j <= |paths|
    ensures MatchAll(paths[..j], keys).credited <= MatchAll(paths, keys).credited
    decreases |paths|
  {
    if j < |paths| {
      var init := paths[..|paths| - 1];
      assert init[..j] == paths[..j];
      CreditsGrow(init, keys, j);
    } else {
      assert paths[..j] == paths;
    }
  }

  /** A close entry carries confidence 0.8 and, as candidate, the first source key
      (in first-seen order) related to its target by containment. */
  predicate IsFirstRelatedCandidate(keys: seq<string>, c: CloseMatch)
  {
    && c.confidence == CloseConfidence
    && FirstRelated(keys, NormalizePath(c.target)).Some?
    && keys[FirstRelated(keys, NormalizePath(c.target)).value] == c.candidate
  }

  lemma {:induction false} CloseIsFirstRelated(paths: seq<string>, keys: seq<string>)
    ensures forall c :: c in MatchAll(paths, keys).cov.close ==> IsFirstRelatedCandidate(keys, c)
    decreases |paths|
  {
    if paths != [] {
      var init := paths[..|paths| - 1];
      var x := paths[|paths| - 1];
      CloseIsFirstRelated(init, keys);
      var p0 := MatchAll(init, keys);
      assert MatchAll(paths, keys) == Step(p0, keys, x);
      var c := MatchAll(paths, keys).cov.close;
      if FirstExact(keys, NormalizePath(x), p0.credited).None? && x !in p0.cov.matched {
        match FirstRelated(keys, NormalizePath(x))
        case Some(r) =>
          assert c == p0.cov.close + [CloseMatch(x, keys[r], CloseConfidence)];
        case None =>
          assert c == p0.cov.close;
      } else {
        assert c == p0.cov.close;
      }
    }
  }

  /** Every source key that normalises exactly to `target` is among `credited`. */
  predicate ExactKeysCredited(keys: seq<string>, target: string, credited: seq<string>)
  {
    forall k :: 0 <= k < |keys| && NormalizeKey(keys[k]) == target ==> keys[k] in credited
  }

  /** Close entry `c` comes from some path `paths[i]` all of whose exact keys had
      already been credited to the matched paths before it. */
  predicate ConsumedBefore(paths: seq<string>, keys: seq<string>, c: CloseMatch)
  {
    exists i :: 0 <= i < |paths| && paths[i] == c.target
                && ExactKeysCredited(keys, NormalizePath(c.target), MatchAll(paths[..i], keys).credited)
  }

  /** A path lands in close only when every source key that normalises exactly like
      it was already credited to a path matched earlier in the schema order. */
  lemma {:induction false} CloseExactKeysConsumed(paths: seq<string>, keys: seq<string>)
    ensures forall c :: c in MatchAll(paths, keys).cov.close ==> ConsumedBefore(paths, keys, c)
    decreases |paths|
  {
    if paths != [] {
      var n := |paths| - 1;
      var init := paths[..n];
      var x := paths[n];
      assert paths == init + [x];
      CloseExactKeysConsumed(init, keys);
      var p0 := MatchAll(init, keys);
      var p := MatchAll(paths, keys);
      assert p == Step(p0, keys, x);
      forall c | c in p0.cov.close
        ensures ConsumedBefore(paths, keys, c)
      {
        ConsumedBeforeSnoc(init, x, keys, c);
      }
      if FirstExact(keys, NormalizePath(x), p0.credited).None? && x !in p0.cov.matched {
        match FirstRelated(keys, NormalizePath(x))
        case Some(r) =>
          var c := CloseMatch(x, keys[r], CloseConfidence);
          assert p.cov.close == p0.cov.close + [c];
          assert ExactKeysCredited(keys, NormalizePath(x), p0.credited);
          ConsumedBeforeLast(init, x, keys, c);
        case None =>
          assert p.cov.close == p0.cov.close;
      } else {
        assert p.cov.close == p0.cov.close;
      }
    }
  }

  lemma ConsumedBeforeSnoc(init: seq<string>, x: string, keys: seq<string>, c: CloseMatch)
    requires ConsumedBefore(init, keys, c)
    ensures ConsumedBefore(init + [x], keys, c)
  {
    var i :| 0 <= i < |init| && init[i] == c.target
             && ExactKeysCredited(keys, NormalizePath(c.target), MatchAll(init[..i], keys).credited);
    assert (init + [x])[..i] == init[..i];
    assert (init + [x])[i] == c.target;
  }

  lemma ConsumedBeforeLast(init: seq<string>, x: string, keys: seq<string>, c: CloseMatch)
    requires c.target == x
    requires ExactKeysCredited(keys, NormalizePath(x), MatchAll(init, keys).credited)
    ensures ConsumedBefore(init + [x], keys, c)
  {
    var n := |init|;
    assert (init + [x])[..n] == init;
    assert (init + [x])[n] == c.target;
  }

  /** No source key is related to `target` by containment. */
  predicate NoRelatedKey(keys: seq<string>, target: string)
  {
    forall k :: 0 <= k < |keys| ==> !Related(NormalizeKey(keys[k]), target)
  }

  /** A path lands in missing only when no source key is related to it. */
  lemma {:induction false} MissingHasNoRelatedKey(paths: seq<string>, keys: seq<string>)
    ensures forall m :: m in MatchAll(paths, keys).cov.missing ==> NoRelatedKey(keys, NormalizePath(m))
    decreases |paths|
  {
    if paths != [] {
      var init := paths[..|paths| - 1];
      var x := paths[|paths| - 1];
      MissingHasNoRelatedKey(init, keys);
      var p0 := MatchAll(init, keys);
      assert MatchAll(paths, keys) == Step(p0, keys, x);
      var m := MatchAll(paths, keys).cov.missing;
      if FirstExact(keys, NormalizePath(x), p0.credited).None? && x !in p0.cov.matched
         && FirstRelated(keys, NormalizePath(x)).None? {
        assert m == p0.cov.missing + [x];
        assert NoRelatedKey(keys, NormalizePath(x));
      } else {
        assert m == p0.cov.missing;
      }
    }
  }

  /** `c` puts each of `paths` in one bucket, each bucket in declared order. */
  predicate PartitionOf(c: Coverage, paths: seq<string>)
  {
    && multiset(c.matched) + multiset(CloseTargets(c.close)) + multiset(c.missing) == multiset(paths)
    && IsSubseq(c.matched, paths)
    && IsSubseq(CloseTargets(c.close), paths)
    && IsSubseq(c.missing, paths)
  }

  /** `c` is `c0` with `x` appended to exactly one bucket. */
  predicate AddsToOneBucket(c0: Coverage, c: Coverage, x: string)
  {
    || (c.matched == c0.matched + [x] && c.close == c0.close && c.missing == c0.missing)
    || (c.matched == c0.matched && CloseTargets(c.close) == CloseTargets(c0.close) + [x] && c.missing == c0.missing)
    || (c.matched == c0.matched && c.close == c0.close && c.missing == c0.missing + [x])
  }

  /** A path not matched yet is added to exactly one bucket. */
  lemma StepAddsOnce(p0: Progress, keys: seq<string>, x: string)
    requires x !in p0.cov.matched
    ensures AddsToOneBucket(p0.cov, Step(p0, keys, x).cov, x)
  {
    var c0 := p0.cov;
    var c := Step(p0, keys, x).cov;
    if FirstExact(keys, NormalizePath(x), p0.credited).None? {
      match FirstRelated(keys, NormalizePath(x))
      case Some(r) =>
        var cm := CloseMatch(x, keys[r], CloseConfidence);
        assert c.close == c0.close + [cm];
        assert CloseTargets(c0.close + [cm]) == CloseTargets(c0.close) + [x];
      case None =>
    }
  }

  /** The multiset half of the partition, for three buckets of which one grows by `x`. */
  lemma MultisetSnoc(a0: seq<string>, b: seq<string>, d: seq<string>, init: seq<string>, x: string)
    requires multiset(a0) + multiset(b) + multiset(d) == multiset(init)
    ensures multiset(a0 + [x]) + multiset(b) + multiset(d) == multiset(init + [x])
  {
    assert multiset(a0 + [x]) == multiset(a0) + multiset{x};
    assert multiset(init + [x]) == multiset(init) + multiset{x};
  }

  /** Appending a new path to one bucket keeps the partition. */
  lemma PartitionSnoc(c0: Coverage, c: Coverage, init: seq<string>, x: string)
    requires PartitionOf(c0, init)
    requires AddsToOneBucket(c0, c, x)
    ensures PartitionOf(c, init + [x])
  {
    var m0, t0, s0 := c0.matched, CloseTargets(c0.close), c0.missing;
    if c.matched == m0 + [x] && c.close == c0.close && c.missing == s0 {
      MultisetSnoc(m0, t0, s0, init, x);
      SubseqSnocBoth(m0, init, x);
      SubseqSnocRight(t0, init, x);
      SubseqSnocRight(s0, init, x);
    } else if c.matched == m0 && CloseTargets(c.close) == t0 + [x] && c.missing == s0 {
      MultisetSnoc(t0, m0, s0, init, x);
      SubseqSnocRight(m0, init, x);
      SubseqSnocBoth(t0, init, x);
      SubseqSnocRight(s0, init, x);
    } else {
      MultisetSnoc(s0, m0, t0, init, x);
      SubseqSnocRight(m0, init, x);
      SubseqSnocRight(t0, init, x);
      SubseqSnocBoth(s0, init, x);
    }
  }

  /** Every path is put in one bucket (multiset union), and each bucket keeps the
      declared order of the paths. */
  lemma {:induction false} MatchPartition(paths: seq<string>, keys: seq<string>)
    requires NoDup(paths)
    ensures PartitionOf(MatchAll(paths, keys).cov, paths)
    decreases |paths|
  {
    if paths != [] {
      var init := paths[..|paths| - 1];
      var x := paths[|paths| - 1];
      assert paths == init + [x];
      assert NoDup(init);
      MatchPartition(init, keys);
      var p0 := MatchAll(init, keys);
      assert multiset(init)[x] == 0;
      assert x !in p0.cov.matched;
      StepAddsOnce(p0, keys, x);
      PartitionSnoc(p0.cov, MatchAll(paths, keys).cov, init, x);
    } else {
      assert CloseTargets([]) == [];
    }
  }

  /** With distinct paths: each path is in exactly one of matched, close and missing,
      no bucket repeats a path, nothing else is in a bucket, and the bucket sizes add
      up to the number of paths. */
  lemma BucketsPartition(paths: seq<string>, keys: seq<string>)
    requires NoDup(paths)
    ensures var c := MatchAll(paths, keys).cov;
      && |c.matched| + |c.close| + |c.missing| == |paths|
      && NoDup(c.matched) && NoDup(CloseTargets(c.close)) && NoDup(c.missing)
      && (forall p :: p in paths <==> p in c.matched || p in CloseTargets(c.close) || p in c.missing)
      && (forall p :: p in c.matched ==> p !in CloseTargets(c.close) && p !in c.missing)
      && (forall p :: p in CloseTargets(c.close) ==> p !in c.missing)
  {
    MatchPartition(paths, keys);
    var c := MatchAll(paths, keys).cov;
    var ct := CloseTargets(c.close);
    SubseqNoDup(c.matched, paths);
    SubseqNoDup(ct, paths);
    SubseqNoDup(c.missing, paths);
    assert |multiset(c.matched) + multiset(ct) + multiset(c.missing)| == |multiset(paths)|;
    forall p | p in paths
      ensures multiset(c.matched)[p] + multiset(ct)[p] + multiset(c.missing)[p] == 1
    {
      NoDupCount(paths, p);
    }
  }

  /** Lines 164-179, the inner scan for one path: walk the source keys in order; stop
      at the first key that normalises to `target` and is not yet used, returning its
      index in `exact`; otherwise `bestMatch` is the first key related to `target`. */
  method ScanKeys(keys: seq<string>, normalizedKeys: seq<string>, target: string,
                  used: set<string>, ghost credited: seq<string>)
    returns (exact: Option<nat>, bestMatch: Option<nat>)
    requires |normalizedKeys| == |keys|
    requires forall i :: 0 <= i < |keys| ==> normalizedKeys[i] == NormalizeKey(keys[i])
    requires forall k :: k in used <==> k in credited
    ensures exact == FirstExact(keys, target, credited)
    ensures exact.None? ==> bestMatch == FirstRelated(keys, target)
    ensures exact.Some? ==> bestMatch.None?
  {
    bestMatch := None;
    exact := None;
    var i := 0;
    while i < |keys|
      invariant 0 <= i <= |keys|
      invariant exact.None?
      invariant forall t :: 0 <= t < i ==> !IsFreeExact(keys[t], target, credited)
      invariant bestMatch.None? ==> forall t :: 0 <= t < i ==> !IsRelatedKey(keys[t], target)
      invariant bestMatch.Some? ==> bestMatch.value < i && IsRelatedKey(keys[bestMatch.value], target)
      invariant bestMatch.Some? ==> forall t :: 0 <= t < bestMatch.value ==> !IsRelatedKey(keys[t], target)
    {
      if Related(normalizedKeys[i], target) {
        if normalizedKeys[i] == target && keys[i] !in used {
          exact := Some(i);
          bestMatch := None;
          FirstExactAt(keys, target, credited, i);
          return;
        }
        if bestMatch.None? {
          bestMatch := Some(i);
        }
      } else {
        assert !IsFreeExact(keys[i], target, credited) by {
          InfixOfSelf(target);
        }
      }
      i := i + 1;
    }
    if bestMatch.Some? {
      FirstRelatedAt(keys, target, bestMatch.value);
    }
  }

  /** Lines 148-188: scan the required paths in declared order, crediting exact
      matches and filing every other path as close or missing. */
  method MatchPaths(paths: seq<string>, keys: seq<string>) returns (coverage: Coverage)
    ensures coverage == MatchAll(paths, keys).cov
  {
    var normalizedKeys := seq(|keys|, i requires 0 <= i < |keys| => NormalizeKey(keys[i]));
    coverage := Coverage([], [], []);
    var used: set<string> := {};
    ghost var credited: seq<string> := [];
    var j := 0;
    while j < |paths|
      invariant 0 <= j <= |paths|
      invariant MatchAll(paths[..j], keys) == Progress(coverage, credited)
      invariant forall k :: k in used <==> k in credited
    {
      var path := paths[j];
      var target := NormalizePath(path);
      ghost var before := Progress(coverage, credited);
      var exact, bestMatch := ScanKeys(keys, normalizedKeys, target, used, credited);
      if exact.Some? {
        coverage := coverage.(matched := coverage.matched + [path]);
        used := used + {keys[exact.value]};
        credited := credited + [keys[exact.value]];
      } else if path !in coverage.matched {
        if bestMatch.Some? {
          coverage := coverage.(close := coverage.close + [CloseMatch(path, keys[bestMatch.value], CloseConfidence)]);
        } else {
          coverage := coverage.(missing := coverage.missing + [path]);
        }
      }
      assert paths[..j + 1][..j] == paths[..j];
      assert MatchAll(paths[..j + 1], keys) == Step(before, keys, path);
      j := j + 1;
    }
    assert paths[..j] == paths;
  }

  /** Some source key normalises exactly to `target`. */
  predicate HasExactKey(keys: seq<string>, target: string)
  {
    exists k :: k in keys && NormalizeKey(k) == target
  }

  /** Every matched path has a source key that normalises exactly like it. */
  lemma MatchedHaveExactKey(paths: seq<string>, keys: seq<string>)
    ensures forall p :: p in MatchAll(paths, keys).cov.matched ==> HasExactKey(keys, NormalizePath(p))
  {
    MatchCredits(paths, keys);
    var pr := MatchAll(paths, keys);
    forall p | p in pr.cov.matched
      ensures HasExactKey(keys, NormalizePath(p))
    {
      var i :| 0 <= i < |pr.cov.matched| && pr.cov.matched[i] == p;
      assert pr.credited[i] in keys && NormalizeKey(pr.credited[i]) == NormalizePath(p);
    }
  }

  lemma GetsPathsDistinct()
    ensures NoDup(GetsRequired)
  {
  }

  /** `calculateCoverage` on the GETS schema: the sixteen required paths are split
      into matched, close and missing, each exactly once and in schema order; close
      entries carry confidence 0.8 and the first related source key; missing paths
      have no related source key; matched paths have a source key normalising exactly
      like them, and no source key is credited twice. */
  method CalculateCoverage(sample: seq<Document>) returns (coverage: Coverage)
    ensures coverage == MatchAll(GetsRequired, SourceKeys(sample)).cov
    ensures |coverage.matched| + |coverage.close| + |coverage.missing| == |GetsRequired| == 16
    ensures forall p :: p in GetsRequired <==>
      p in coverage.matched || p in CloseTargets(coverage.close) || p in coverage.missing
    ensures forall p :: p in coverage.matched ==> p !in CloseTargets(coverage.close) && p !in coverage.missing
    ensures forall p :: p in CloseTargets(coverage.close) ==> p !in coverage.missing
    ensures IsSubseq(coverage.matched, GetsRequired)
    ensures forall c :: c in coverage.close ==> IsFirstRelatedCandidate(SourceKeys(sample), c)
    ensures forall m :: m in coverage.missing ==> NoRelatedKey(SourceKeys(sample), NormalizePath(m))
    ensures forall p :: p in coverage.matched ==> HasExactKey(SourceKeys(sample), NormalizePath(p))
  {
    var keys := CollectSourceKeys(sample);
    coverage := MatchPaths(GetsRequired, keys);
    GetsPathsDistinct();
    BucketsPartition(GetsRequired, keys);
    MatchPartition(GetsRequired, keys);
    CloseIsFirstRelated(GetsRequired, keys);
    MissingHasNoRelatedKey(GetsRequired, keys);
    MatchedHaveExactKey(GetsRequired, keys);
  }

  /** A line-item key `k`, collected as `lines[].k`, normalises to `lines` followed by the
      normal form of `k`, and so does the schema path `lines[].k`: the source key
      `lines[].sku` compares as `linessku`, like the schema path. */
  lemma LineKeyNormalForm(k: string)
    ensures NormalizeKey(LinePrefix + k) == "lines" + NormalizeKey(k)
    ensures NormalizePath(LinePrefix + k) == NormalizeKey(LinePrefix + k)
  {
    NormalizeConcat(LinePrefix, k);
    LinesPrefixNormalForm();
  }

  /** A single path with a key that normalises like it is matched and credits it. */
  lemma MatchOnePath(x: string, k: string)
    requires NormalizePath(x) == NormalizeKey(k)
    ensures MatchAll([x], [k]) == Progress(Coverage([x], [], []), [k])
  {
    var keys := [k];
    FirstExactAt(keys, NormalizeKey(k), [], 0);
    assert [x][..0] == [];
    assert MatchAll([x], keys) == Step(MatchAll([], keys), keys, x);
  }

  /** A key consumed by an exact match can still be the close candidate of a later
      path that normalises to the same string: with the single source key `k`, the
      first of two such paths is matched and the second is close, not missing. */
  lemma ConsumedKeyBecomesClose(x: string, y: string, k: string)
    requires NormalizePath(x) == NormalizeKey(k) && NormalizePath(y) == NormalizeKey(k)
    requires x != y
    ensures MatchAll([x, y], [k]).cov == Coverage([x], [CloseMatch(y, k, CloseConfidence)], [])
  {
    var keys := [k];
    var t := NormalizeKey(k);
    var p1 := Progress(Coverage([x], [], []), [k]);
    MatchOnePath(x, k);
    assert !IsFreeExact(keys[0], t, p1.credited);
    var none := FirstExact(keys, t, p1.credited);
    assert none == None;
    InfixOfSelf(t);
    FirstRelatedAt(keys, t, 0);
    assert y !in p1.cov.matched;
    var p2 := Progress(Coverage([x], [CloseMatch(y, k, CloseConfidence)], []), [k]);
    assert Step(p1, keys, y) == p2;
    assert [x, y][..1] == [x];
    assert MatchAll([x, y], keys) == Step(p1, keys, y);
  }
}
