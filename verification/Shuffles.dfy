/** Lists without repetitions, and what reordering a list preserves. */
module Shuffles {

  ghost predicate Unique<A>(xs: seq<A>) {
    forall i, j :: 0 <= i < j < |xs| ==> xs[i] != xs[j]
  }

  lemma SameMembers<A>(xs: seq<A>, ys: seq<A>)
    requires multiset(xs) == multiset(ys)
    ensures |xs| == |ys|
    ensures forall x :: x in xs <==> x in ys
  {
    assert |multiset(xs)| == |xs| && |multiset(ys)| == |ys|;
    forall x ensures x in xs <==> x in ys {
      assert x in xs <==> x in multiset(xs);
      assert x in ys <==> x in multiset(ys);
    }
  }

  lemma AtMostOnce<A>(xs: seq<A>, x: A)
    requires Unique(xs)
    ensures multiset(xs)[x] <= 1
  {
    if k :| 0 <= k < |xs| && xs[k] == x {
      assert xs == xs[..k] + [x] + xs[k + 1..];
      assert x !in xs[..k] && x !in xs[k + 1..];
    }
  }

  lemma UniqueShuffle<A>(xs: seq<A>, ys: seq<A>)
    requires Unique(xs) && multiset(xs) == multiset(ys)
    ensures Unique(ys)
  {
    forall i, j | 0 <= i < j < |ys| ensures ys[i] != ys[j] {
      if ys[i] == ys[j] {
        assert ys == ys[..j] + [ys[j]] + ys[j + 1..];
        assert ys[i] in ys[..j];
        assert multiset(ys)[ys[i]] >= 2;
        AtMostOnce(xs, ys[i]);
        assert false;
      }
    }
  }
}
