/**
 Collecting answers, grouping them by key, and keeping the groups that reach a quorum.

 `Gather` is the shape of every such pass over a list; quorum uniqueness and the counting
 arguments of the protocol are stated about it.
 */
module Gathering {
  import opened Wrappers
  import opened Join
  import opened Shuffles

  /** `filter_map` */
  function Gather<A, B>(xs: seq<A>, pick: A -> Option<B>): (ys: seq<B>)
    ensures |ys| <= |xs|
  {
    if xs == [] then []
    else
      var rest := Gather(xs[..|xs| - 1], pick);
      match pick(xs[|xs| - 1])
      case None => rest
      case Some(y) => rest + [y]
  }

  function Map<A, B>(xs: seq<A>, g: A -> B): (ys: seq<B>)
    ensures |ys| == |xs|
  {
    seq(|xs|, i requires 0 <= i < |xs| => g(xs[i]))
  }

  /** The values filed under one key, in order of arrival. */
  function ValuesFor<K(==), V>(items: seq<(K, V)>, key: K): seq<V> {
    Gather(items, (item: (K, V)) => if item.0 == key then Some(item.1) else None)
  }

  function Keys<K(==), V>(items: seq<(K, V)>): set<K> {
    set i | 0 <= i < |items| :: items[i].0
  }

  function Grouped<K(==), V>(items: seq<(K, V)>): map<K, seq<V>> {
    map k | k in Keys(items) :: ValuesFor(items, k)
  }

  lemma ValuesForStep<K, V>(items: seq<(K, V)>, item: (K, V), key: K)
    ensures ValuesFor(items + [item], key) ==
            ValuesFor(items, key) + if item.0 == key then [item.1] else []
  {
    assert (items + [item])[..|items|] == items;
  }

  lemma {:induction false} NoKeyNoValues<K, V>(items: seq<(K, V)>, key: K)
    ensures key in Keys(items) <==> ValuesFor(items, key) != []
  {
    if items != [] {
      var init, last := items[..|items| - 1], items[|items| - 1];
      assert items == init + [last];
      NoKeyNoValues(init, key);
      ValuesForStep(init, last, key);
      assert Keys(items) == Keys(init) + {last.0};
    }
  }

  /** `entry(key).or_default().push(value)` for each item. */
  method Group<K(==), V>(items: seq<(K, V)>) returns (groups: map<K, seq<V>>)
    ensures groups == Grouped(items)
  {
    groups := map[];
    for i := 0 to |items|
      invariant groups == Grouped(items[..i])
    {
      var (key, value) := items[i];
      assert items[..i + 1] == items[..i] + [items[i]];
      assert Keys(items[..i + 1]) == Keys(items[..i]) + {key};
      NoKeyNoValues(items[..i], key);
      forall k ensures ValuesFor(items[..i + 1], k) == ValuesFor(items[..i], k) + if key == k then [value] else [] {
        ValuesForStep(items[..i], items[i], k);
      }
      groups := groups[key := (if key in groups then groups[key] else []) + [value]];
    }
    assert items[..|items|] == items;
  }

  /** `retain(|_, values| values.len() >= threshold)` */
  function Retained<K, V>(groups: map<K, seq<V>>, threshold: nat): map<K, seq<V>> {
    map k | k in groups && |groups[k]| >= threshold :: groups[k]
  }

  lemma {:induction false} TwoKeys<K, V>(items: seq<(K, V)>, a: K, b: K)
    requires a != b
    ensures |ValuesFor(items, a)| + |ValuesFor(items, b)| <= |items|
  {
    if items != [] {
      var init, last := items[..|items| - 1], items[|items| - 1];
      assert items == init + [last];
      TwoKeys(init, a, b);
      ValuesForStep(init, last, a);
      ValuesForStep(init, last, b);
    }
  }

  /** With a majority threshold at most one group survives, so the consensus asserts never fire. */
  lemma OneQuorum<K, V>(items: seq<(K, V)>, threshold: nat)
    requires |items| < 2 * threshold
    ensures |Retained(Grouped(items), threshold)| <= 1
    ensures forall a, b :: a in Retained(Grouped(items), threshold) && b in Retained(Grouped(items), threshold) ==>
            a == b
  {
    var retained := Retained(Grouped(items), threshold);
    forall a, b | a in retained && b in retained ensures a == b {
      if a != b { TwoKeys(items, a, b); }
    }
    if a :| a in retained {
      assert retained.Keys == {a};
    }
  }

  /** The group that reaches the threshold, if there is one. */
  ghost function Quorum<K(!new), V>(items: seq<(K, V)>, threshold: nat): Option<(K, seq<V>)> {
    if k: K :| |ValuesFor(items, k)| >= threshold then Some((k, ValuesFor(items, k))) else None
  }

  /** Groups the items, prunes the groups and takes the only one left. */
  method FindQuorum<K(!new, ==), V>(items: seq<(K, V)>, threshold: nat) returns (r: Option<(K, seq<V>)>)
    requires 0 < threshold && |items| < 2 * threshold
    ensures r == Quorum(items, threshold)
  {
    var groups := Group(items);
    groups := Retained(groups, threshold);
    OneQuorum(items, threshold);
    assert |groups| <= 1;
    forall k | |ValuesFor(items, k)| >= threshold ensures k in groups {
      NoKeyNoValues(items, k);
    }
    if groups == map[] {
      return None;
    }
    var key :| key in groups;
    return Some((key, groups[key]));
  }

  // ---- passes over passes ----

  lemma {:induction false} GatherGather<A, B, C>(xs: seq<A>, p: A -> Option<B>, r: B -> Option<C>, pr: A -> Option<C>)
    requires forall x :: x in xs ==> pr(x) == match p(x) case None => None case Some(y) => r(y)
    ensures Gather(Gather(xs, p), r) == Gather(xs, pr)
  {
    if xs != [] {
      var init, last := xs[..|xs| - 1], xs[|xs| - 1];
      GatherGather(init, p, r, pr);
      if p(last).Some? {
        var y := p(last).value;
        assert (Gather(init, p) + [y])[..|Gather(init, p)|] == Gather(init, p);
      }
    }
  }

  lemma {:induction false} GatherMap<A, B, C>(xs: seq<A>, g: A -> B, r: B -> Option<C>, gr: A -> Option<C>)
    requires forall x :: x in xs ==> gr(x) == r(g(x))
    ensures Gather(Map(xs, g), r) == Gather(xs, gr)
  {
    if xs != [] {
      GatherMap(xs[..|xs| - 1], g, r, gr);
      assert Map(xs, g)[..|xs| - 1] == Map(xs[..|xs| - 1], g);
    }
  }

  lemma {:induction false} OksGather<T, E>(results: seq<Result<T, E>>, ok: Result<T, E> -> Option<T>)
    requires forall r :: r in results ==> ok(r) == if r.Ok? then Some(r.value) else None
    ensures Oks(results) == Gather(results, ok)
  {
    if results != [] {
      OksGather(results[..|results| - 1], ok);
    }
  }

  // ---- what a pass collects ----

  lemma {:induction false} GatherMember<A, B>(xs: seq<A>, pick: A -> Option<B>, y: B)
    ensures y in Gather(xs, pick) <==> exists x :: x in xs && pick(x) == Some(y)
  {
    if xs != [] {
      var init, last := xs[..|xs| - 1], xs[|xs| - 1];
      assert xs == init + [last];
      GatherMember(init, pick, y);
    }
  }

  ghost function Picked<A, B>(xs: seq<A>, pick: A -> Option<B>): set<A> {
    set x | x in xs && pick(x).Some?
  }

  lemma {:induction false} GatherCount<A, B>(xs: seq<A>, pick: A -> Option<B>)
    requires Unique(xs)
    ensures |Gather(xs, pick)| == |Picked(xs, pick)|
  {
    if xs != [] {
      var init, last := xs[..|xs| - 1], xs[|xs| - 1];
      assert xs == init + [last];
      GatherCount(init, pick);
      assert Picked(xs, pick) == Picked(init, pick) + if pick(last).Some? then {last} else {};
      assert last !in init;
    }
  }

  lemma SubsetCount<A>(small: set<A>, large: set<A>)
    requires small <= large
    ensures |small| <= |large|
  {
    assert large == small + (large - small);
  }

  lemma {:induction false} UniqueCount<A>(xs: seq<A>)
    requires Unique(xs)
    ensures |set x | x in xs| == |xs|
  {
    if xs != [] {
      var init, last := xs[..|xs| - 1], xs[|xs| - 1];
      assert xs == init + [last];
      UniqueCount(init);
      assert (set x | x in xs) == (set x | x in init) + {last};
      assert last !in init;
    }
  }

  /** A pass collects at least as many items as there are members of a set it picks from. */
  lemma GatherAtLeast<A, B>(xs: seq<A>, pick: A -> Option<B>, good: set<A>)
    requires Unique(xs) && forall x :: x in good ==> x in xs && pick(x).Some?
    ensures |Gather(xs, pick)| >= |good|
  {
    GatherCount(xs, pick);
    SubsetCount(good, Picked(xs, pick));
  }

  /** A pass that collects more items than there are members outside `honest` picked one inside. */
  lemma GatherHonest<A, B>(xs: seq<A>, pick: A -> Option<B>, all: seq<A>, honest: set<A>) returns (x: A)
    requires Unique(xs) && forall x :: x in xs ==> x in all
    requires |(set x | x in all) - honest| < |Gather(xs, pick)|
    ensures x in xs && x in honest && pick(x).Some?
  {
    GatherCount(xs, pick);
    var picked, liars := Picked(xs, pick), (set x | x in all) - honest;
    if picked <= liars {
      SubsetCount(picked, liars);
      assert false;
    }
    x :| x in picked && x !in liars;
  }

  ghost predicate DistinctTags<B>(ys: seq<B>, tag: B -> int) {
    forall i, j :: 0 <= i < j < |ys| ==> tag(ys[i]) != tag(ys[j])
  }

  /** Distinct sources whose picks carry an injective label give picks with distinct labels. */
  lemma {:induction false} GatherLabels<A, B>(xs: seq<A>, pick: A -> Option<B>, source: A -> int, tag: B -> int)
    requires forall x :: x in xs && pick(x).Some? ==> tag(pick(x).value) == source(x)
    requires forall i, j :: 0 <= i < j < |xs| ==> source(xs[i]) != source(xs[j])
    ensures DistinctTags(Gather(xs, pick), tag)
  {
    if xs != [] {
      var init, last := xs[..|xs| - 1], xs[|xs| - 1];
      assert xs == init + [last];
      GatherLabels(init, pick, source, tag);
      forall y | y in Gather(init, pick) ensures tag(y) != source(last) {
        GatherMember(init, pick, y);
        var i :| 0 <= i < |init| && pick(init[i]) == Some(y);
        assert xs[i] == init[i] && xs[i] in xs;
        assert source(xs[i]) != source(xs[|xs| - 1]);
      }
      var ys, ys' := Gather(xs, pick), Gather(init, pick);
      assert DistinctTags(ys', tag);
      forall i, j | 0 <= i < j < |ys| ensures tag(ys[i]) != tag(ys[j]) {
        assert ys[i] == ys'[i] && ys'[i] in ys';
        if j < |ys'| {
          assert ys[j] == ys'[j];
        } else {
          assert last in xs && pick(last) == Some(ys[j]);
          assert tag(ys[j]) == source(last);
          assert tag(ys'[i]) != source(last);
        }
      }
    }
  }
}
