/** Sequence facts shared by the matcher: substring containment, order-preserving
    deduplication (the insertion order of a JavaScript Set) and subsequences. */
module Seqs {

  /** `a` occurs as a contiguous block of `b` (JavaScript `b.includes(a)`). */
  predicate IsInfix<T(==)>(a: seq<T>, b: seq<T>)
    decreases |b|
  {
    a <= b || (b != [] && IsInfix(a, b[1..]))
  }

  lemma InfixOfSelf<T>(a: seq<T>)
    ensures IsInfix(a, a)
  {
  }

  predicate NoDup<T(==)>(s: seq<T>)
  {
    forall i, j :: 0 <= i < j < |s| ==> s[i] != s[j]
  }

  /** Adds `x` at the end unless it is already present: `Set.prototype.add`. */
  function AddLast<T(==)>(s: seq<T>, x: T): (r: seq<T>)
  {
    if x in s then s else s + [x]
  }

  /** The distinct elements of `s` in order of first appearance. */
  function Dedup<T(==)>(s: seq<T>): (r: seq<T>)
    decreases |s|
  {
    if s == [] then [] else AddLast(Dedup(s[..|s| - 1]), s[|s| - 1])
  }

  lemma {:induction false} DedupSpec<T>(s: seq<T>)
    ensures NoDup(Dedup(s))
    ensures forall x :: x in Dedup(s) <==> x in s
  {
    if s != [] {
      DedupSpec(s[..|s| - 1]);
      var x := s[|s| - 1];
      assert s == s[..|s| - 1] + [x];
    }
  }

  /** Appending keeps the result a dedup of the longer sequence. */
  lemma DedupSnoc<T>(s: seq<T>, x: T)
    ensures Dedup(s + [x]) == AddLast(Dedup(s), x)
  {
    assert (s + [x])[..|s + [x]| - 1] == s;
  }

  /** `xs` is a subsequence of `ys`: obtained by deleting elements, keeping order. */
  predicate IsSubseq<T(==)>(xs: seq<T>, ys: seq<T>)
    decreases |ys|
  {
    if ys == [] then xs == []
    else
      (xs != [] && xs[|xs| - 1] == ys[|ys| - 1] && IsSubseq(xs[..|xs| - 1], ys[..|ys| - 1]))
      || IsSubseq(xs, ys[..|ys| - 1])
  }

  lemma SubseqSnocBoth<T>(xs: seq<T>, ys: seq<T>, x: T)
    requires IsSubseq(xs, ys)
    ensures IsSubseq(xs + [x], ys + [x])
  {
    assert (xs + [x])[..|xs|] == xs;
    assert (ys + [x])[..|ys|] == ys;
  }

  lemma SubseqSnocRight<T>(xs: seq<T>, ys: seq<T>, x: T)
    requires IsSubseq(xs, ys)
    ensures IsSubseq(xs, ys + [x])
  {
    assert (ys + [x])[..|ys|] == ys;
  }

  /** Elements of a sequence without duplicates occur once in its multiset. */
  lemma {:induction false} NoDupCount<T>(s: seq<T>, x: T)
    requires NoDup(s)
    ensures multiset(s)[x] <= 1
  {
    if s != [] {
      var t := s[..|s| - 1];
      assert s == t + [s[|s| - 1]];
      assert NoDup(t);
      NoDupCount(t, x);
      if x == s[|s| - 1] {
        assert x !in t;
      }
    }
  }

  /** A subsequence of a duplicate-free sequence is duplicate-free and draws its
      elements from it. */
  lemma {:induction false} SubseqNoDup<T>(xs: seq<T>, ys: seq<T>)
    requires IsSubseq(xs, ys) && NoDup(ys)
    ensures NoDup(xs)
    ensures forall x :: x in xs ==> x in ys
    decreases |ys|
  {
    if ys != [] {
      var ys' := ys[..|ys| - 1];
      assert NoDup(ys');
      if xs != [] && xs[|xs| - 1] == ys[|ys| - 1] && IsSubseq(xs[..|xs| - 1], ys') {
        var xs' := xs[..|xs| - 1];
        SubseqNoDup(xs', ys');
        assert ys[|ys| - 1] !in ys';
        assert xs == xs' + [xs[|xs| - 1]];
      } else {
        SubseqNoDup(xs, ys');
      }
    }
  }
}
