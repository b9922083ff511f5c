/** What a sort keeps: any list with the same elements, in whatever order. */
module Permutations {
  predicate DistinctBy<T>(xs: seq<T>, key: T -> string) {
    forall i, j :: 0 <= i < j < |xs| ==> key(xs[i]) != key(xs[j])
  }

  lemma TwiceMeansTwo<T>(xs: seq<T>, i: nat, j: nat)
    requires i < j < |xs| && xs[i] == xs[j]
    ensures multiset(xs)[xs[i]] >= 2
  {
    assert xs == xs[..j] + xs[j..];
    assert xs[..j][i] == xs[i] && xs[j..][0] == xs[i];
    assert xs[i] in multiset(xs[..j]) && xs[i] in multiset(xs[j..]);
  }

  lemma {:induction false} OnceMeansOne<T>(xs: seq<T>, key: T -> string, x: T)
    requires DistinctBy(xs, key)
    ensures multiset(xs)[x] <= 1
  {
    if xs != [] {
      assert forall i :: 0 <= i < |xs| - 1 ==> xs[1..][i] == xs[i + 1];
      OnceMeansOne(xs[1..], key, x);
      assert xs == [xs[0]] + xs[1..];
      if x == xs[0] {
        assert x !in xs[1..];
      }
    }
  }

  /** Distinct keys stay distinct. */
  lemma PermutationKeepsDistinct<T>(sorted: seq<T>, xs: seq<T>, key: T -> string)
    requires DistinctBy(xs, key) && multiset(sorted) == multiset(xs)
    ensures DistinctBy(sorted, key)
  {
    forall i, j | 0 <= i < j < |sorted| ensures key(sorted[i]) != key(sorted[j]) {
      var a, b := sorted[i], sorted[j];
      assert a in multiset(xs) && b in multiset(xs);
      if key(a) == key(b) {
        assert a == b;
        TwiceMeansTwo(sorted, i, j);
        OnceMeansOne(xs, key, a);
      }
    }
  }
}
