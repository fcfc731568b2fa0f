/**
 * Sequence facts shared by the contact normaliser, and the order-preserving
 * deduplication it takes from lodash (`uniq`): keep the first occurrence of
 * every value, drop the later ones.
 */
module Seqs {

  /** No value occurs twice in `s`. */
  predicate NoDup<T(==)>(s: seq<T>)
  {
    forall i, j :: 0 <= i < j < |s| ==> s[i] != s[j]
  }

  /** `a` is `b` with some elements deleted, the rest kept in their order. */
  predicate IsSubsequence<T(==)>(a: seq<T>, b: seq<T>)
    decreases |b|
  {
    if a == [] then true
    else if b == [] then false
    else
      (a[|a| - 1] == b[|b| - 1] && IsSubsequence(a[..|a| - 1], b[..|b| - 1]))
      || IsSubsequence(a, b[..|b| - 1])
  }

  /** Position of the first occurrence of `x` in `s`. */
  function FirstIndex<T(==)>(s: seq<T>, x: T): (k: nat)
    requires x in s
    ensures k < |s| && s[k] == x
    ensures forall j :: 0 <= j < k ==> s[j] != x
  {
    if s[0] == x then 0 else 1 + FirstIndex(s[1..], x)
  }

  /**
   * lodash `uniq`: the values of `s` without repetitions, in the order of
   * their first occurrence.
   */
  function Uniq<T(==)>(s: seq<T>): (u: seq<T>)
    ensures NoDup(u)
    ensures forall i :: 0 <= i < |u| ==> u[i] in s
    ensures forall i :: 0 <= i < |s| ==> s[i] in u
    decreases |s|
  {
    if s == [] then []
    else
      var seen := Uniq(s[..|s| - 1]);
      assert s == s[..|s| - 1] + [s[|s| - 1]];
      if s[|s| - 1] in seen then seen else seen + [s[|s| - 1]]
  }

  /** The lists `f` gives for the elements of `xs`, concatenated in the order of `xs`. */
  function FlatMap<A, B>(xs: seq<A>, f: A -> seq<B>): seq<B>
    decreases |xs|
  {
    if xs == [] then [] else FlatMap(xs[..|xs| - 1], f) + f(xs[|xs| - 1])
  }

  /** Flat-mapping a concatenation is concatenating the flat maps. */
  lemma {:induction false} FlatMapConcat<A, B>(xs: seq<A>, ys: seq<A>, f: A -> seq<B>)
    ensures FlatMap(xs + ys, f) == FlatMap(xs, f) + FlatMap(ys, f)
    decreases |ys|
  {
    if ys == [] {
      assert xs + ys == xs;
    } else {
      var init := ys[..|ys| - 1];
      FlatMapConcat(xs, init, f);
      assert (xs + ys)[..|xs + ys| - 1] == xs + init;
      assert (xs + ys)[|xs + ys| - 1] == ys[|ys| - 1];
    }
  }

  lemma {:induction false} SubsequenceExtend<T>(a: seq<T>, b: seq<T>, x: T)
    requires IsSubsequence(a, b)
    ensures IsSubsequence(a, b + [x])
  {
    assert (b + [x])[..|b|] == b;
  }

  lemma {:induction false} SubsequenceAppendBoth<T>(a: seq<T>, b: seq<T>, x: T)
    requires IsSubsequence(a, b)
    ensures IsSubsequence(a + [x], b + [x])
  {
    assert (a + [x])[..|a|] == a;
    assert (b + [x])[..|b|] == b;
  }

  /** `uniq` only deletes: its result is a subsequence of its input. */
  lemma {:induction false} UniqSubsequence<T>(s: seq<T>)
    ensures IsSubsequence(Uniq(s), s)
    decreases |s|
  {
    if s != [] {
      var init := s[..|s| - 1];
      UniqSubsequence(init);
      assert s == init + [s[|s| - 1]];
      if s[|s| - 1] in Uniq(init) {
        SubsequenceExtend(Uniq(init), init, s[|s| - 1]);
      } else {
        SubsequenceAppendBoth(Uniq(init), init, s[|s| - 1]);
      }
    }
  }

  lemma FirstIndexOfPrefix<T>(s: seq<T>, n: nat, x: T)
    requires n <= |s| && x in s[..n]
    ensures FirstIndex(s, x) == FirstIndex(s[..n], x)
  {
    var k := FirstIndex(s[..n], x);
    var r := FirstIndex(s, x);
    assert s[k] == x;
    assert forall j :: 0 <= j < k ==> s[j] == s[..n][j];
  }

  /**
   * `uniq` keeps the first-occurrence order: of two kept values, the one that
   * comes first in the result occurs first in the input.
   */
  lemma {:induction false} UniqFirstOccurrenceOrder<T>(s: seq<T>)
    ensures forall i, j :: 0 <= i < j < |Uniq(s)| ==>
              FirstIndex(s, Uniq(s)[i]) < FirstIndex(s, Uniq(s)[j])
    decreases |s|
  {
    if s != [] {
      var init := s[..|s| - 1];
      var last := s[|s| - 1];
      var seen := Uniq(init);
      UniqFirstOccurrenceOrder(init);
      assert s == init + [last];
      forall i, j | 0 <= i < j < |Uniq(s)|
        ensures FirstIndex(s, Uniq(s)[i]) < FirstIndex(s, Uniq(s)[j])
      {
        assert seen[i] in init;
        FirstIndexOfPrefix(s, |init|, seen[i]);
        if j < |seen| {
          assert seen[j] in init;
          FirstIndexOfPrefix(s, |init|, seen[j]);
        } else {
          assert Uniq(s)[j] == last && last !in init;
          assert FirstIndex(s, last) == |init|;
        }
      }
    }
  }

  /** A list that is already free of duplicates is left unchanged by `uniq`. */
  lemma {:induction false} UniqOfNoDup<T>(s: seq<T>)
    requires NoDup(s)
    ensures Uniq(s) == s
    decreases |s|
  {
    if s != [] {
      var init := s[..|s| - 1];
      assert NoDup(init);
      UniqOfNoDup(init);
      assert s[|s| - 1] !in init;
      assert s == init + [s[|s| - 1]];
    }
  }

  /** `uniq` is idempotent. */
  lemma UniqIdempotent<T>(s: seq<T>)
    ensures Uniq(Uniq(s)) == Uniq(s)
  {
    UniqOfNoDup(Uniq(s));
  }
}
