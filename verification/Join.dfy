/** Waiting for enough of a set of concurrent requests: `join_at_least_threshold`. */
module Join {
  import opened Wrappers

  function Oks<T, E>(results: seq<Result<T, E>>): (oks: seq<T>)
    ensures |oks| <= |results|
  {
    if results == [] then []
    else
      var init, last := results[..|results| - 1], results[|results| - 1];
      if last.Ok? then Oks(init) + [last.value] else Oks(init)
  }

  function Errs<T, E>(results: seq<Result<T, E>>): seq<E> {
    if results == [] then []
    else
      var init, last := results[..|results| - 1], results[|results| - 1];
      if last.Err? then Errs(init) + [last.error] else Errs(init)
  }

  /** Minimum with respect to `Ord`, given as an order-preserving rank. */
  function Min<E>(errors: seq<E>, rank: E -> int): (e: E)
    requires errors != []
    ensures e in errors && forall x :: x in errors ==> rank(e) <= rank(x)
  {
    var n := |errors|;
    if n == 1 then errors[0]
    else
      var e := Min(errors[..n - 1], rank);
      assert errors == errors[..n - 1] + [errors[n - 1]];
      if rank(errors[n - 1]) < rank(e) then errors[n - 1] else e
  }

  /** All the successes if there are enough, else the least of the first total - threshold + 1 errors. */
  function Joined<T, E>(results: seq<Result<T, E>>, threshold: nat, rank: E -> int): Result<seq<T>, E>
    requires 0 < threshold <= |results|
  {
    if |Oks(results)| >= threshold then Ok(Oks(results))
    else
      Counts(results);
      Err(Min(Errs(results)[..|results| - threshold + 1], rank))
  }

  lemma {:induction false} Counts<T, E>(results: seq<Result<T, E>>)
    ensures |Oks(results)| + |Errs(results)| == |results|
  {
    if results != [] {
      Counts(results[..|results| - 1]);
    }
  }

  lemma {:induction false} ErrsPrefix<T, E>(results: seq<Result<T, E>>, i: nat)
    requires i <= |results|
    ensures Errs(results[..i]) <= Errs(results)
  {
    if i < |results| {
      var init := results[..|results| - 1];
      ErrsPrefix(init, i);
      assert init[..i] == results[..i];
    } else {
      assert results[..i] == results;
    }
  }

  lemma Arrived<T, E>(results: seq<Result<T, E>>, i: nat)
    requires i < |results|
    ensures Oks(results[..i + 1]) == Oks(results[..i]) + if results[i].Ok? then [results[i].value] else []
    ensures Errs(results[..i + 1]) == Errs(results[..i]) + if results[i].Ok? then [] else [results[i].error]
  {
    assert results[..i + 1][..i] == results[..i];
  }

  /** The error of a join that fails is the least of the first total - threshold + 1 that arrive. */
  lemma JoinedIsLeast<T, E>(results: seq<Result<T, E>>, threshold: nat, rank: E -> int) returns (k: nat)
    requires 0 < threshold <= |results| && |Oks(results)| < threshold
    ensures k <= |results| && |Errs(results[..k])| == |results| - threshold + 1
    ensures Joined(results, threshold, rank).Err? && Joined(results, threshold, rank).error in Errs(results[..k])
    ensures forall e :: e in Errs(results[..k]) ==> rank(Joined(results, threshold, rank).error) <= rank(e)
  {
    Counts(results);
    k := ErrsReach(results, |results| - threshold + 1);
    ErrsPrefix(results, k);
    assert Errs(results)[..|results| - threshold + 1] == Errs(results[..k]);
  }

  lemma {:induction false} ErrsReach<T, E>(results: seq<Result<T, E>>, n: nat) returns (k: nat)
    requires n <= |Errs(results)|
    ensures k <= |results| && |Errs(results[..k])| == n
  {
    if n == |Errs(results)| {
      k := |results|;
      assert results[..k] == results;
    } else {
      var init := results[..|results| - 1];
      k := ErrsReach(init, n);
      assert init[..k] == results[..k];
    }
  }

  /** If every future fails in the same way, so does the join. */
  lemma {:induction false} AllFail<T, E>(results: seq<Result<T, E>>, e: E)
    requires forall i :: 0 <= i < |results| ==> results[i] == Err(e)
    ensures Oks(results) == [] && |Errs(results)| == |results| && forall x :: x in Errs(results) ==> x == e
  {
    if results != [] {
      AllFail(results[..|results| - 1], e);
    }
  }

  lemma JoinedFails<T, E>(results: seq<Result<T, E>>, threshold: nat, rank: E -> int, e: E)
    requires 0 < threshold <= |results| && forall i :: 0 <= i < |results| ==> results[i] == Err(e)
    ensures Joined(results, threshold, rank) == Err(e)
  {
    AllFail(results, e);
    var first := Errs(results)[..|results| - threshold + 1];
    assert first != [] && Min(first, rank) in first && forall x :: x in first ==> x in Errs(results);
  }

  /** A future that panics completes before there are too many errors. */
  ghost predicate Interrupted<T, E>(results: seq<Result<T, E>>, panics: seq<bool>, threshold: nat)
    requires |panics| == |results|
  {
    exists k :: 0 <= k < |panics| && panics[k] && |Errs(results[..k])| <= |results| - threshold
  }

  /** After too many errors nothing interrupts any more. */
  lemma TooLate<T, E>(results: seq<Result<T, E>>, panics: seq<bool>, threshold: nat, i: nat)
    requires |panics| == |results| && i < |results| && forall k :: 0 <= k <= i ==> !panics[k]
    requires |Errs(results[..i + 1])| > |results| - threshold
    ensures !Interrupted(results, panics, threshold)
  {
    forall k | 0 <= k < |panics| && panics[k] ensures |Errs(results[..k])| > |results| - threshold {
      ErrsPrefix(results[..k], i + 1);
      assert results[..k][..i + 1] == results[..i + 1];
    }
  }

  /** If enough futures succeed, any panic interrupts, whenever it comes. */
  lemma InterruptedIff<T, E>(results: seq<Result<T, E>>, panics: seq<bool>, threshold: nat)
    requires |panics| == |results| && |Oks(results)| >= threshold
    ensures Interrupted(results, panics, threshold) <==> exists k :: 0 <= k < |panics| && panics[k]
  {
    Counts(results);
    forall k | 0 <= k < |panics| && panics[k] ensures |Errs(results[..k])| <= |results| - threshold {
      ErrsPrefix(results, k);
    }
  }

  /**
   `results` are the outcomes of all the futures, in the order in which they complete; those that
   panic have none, and what stands in their place does not matter. The two leading asserts of
   the source are preconditions; the final one is proved. None if the join panics.
   */
  method JoinAtLeastThreshold<T, E>(results: seq<Result<T, E>>, panics: seq<bool>, threshold: nat, rank: E -> int)
    returns (r: Option<Result<seq<T>, E>>)
    requires |panics| == |results| >= threshold
    requires threshold > 0
    ensures r == if Interrupted(results, panics, threshold) then None else Some(Joined(results, threshold, rank))
  {
    hide Min;
    var total := |results|;
    var oks, errors := [], [];
    Counts(results);
    assert results[..0] == [] && Oks(results[..0]) == [] && Errs(results[..0]) == [];
    hide Oks, Errs;
    for i := 0 to total
      invariant oks == Oks(results[..i]) && errors == Errs(results[..i])
      invariant |errors| <= total - threshold
      invariant forall k :: 0 <= k < i ==> !panics[k]
    {
      if panics[i] { return None; }
      Arrived(results, i);
      match results[i]
      case Ok(ok) =>
        oks := oks + [ok];
      case Err(error) =>
        errors := errors + [error];
        if |errors| > total - threshold {
          ErrsPrefix(results, i + 1);
          assert errors == Errs(results)[..total - threshold + 1];
          TooLate(results, panics, threshold, i);
          return Some(Err(Min(errors, rank)));
        }
    }
    assert results[..total] == results;
    assert |oks| >= threshold;
    return Some(Ok(oks));
  }

  // ---- order of completion ----

  lemma {:induction false} OksConcat<T, E>(a: seq<Result<T, E>>, b: seq<Result<T, E>>)
    ensures Oks(a + b) == Oks(a) + Oks(b)
  {
    if b == [] {
      assert a + b == a;
    } else {
      var init, last := b[..|b| - 1], b[|b| - 1];
      OksConcat(a, init);
      assert (a + b)[..|a + b| - 1] == a + init;
    }
  }

  lemma {:induction false} OksAnyOrder<T, E>(results: seq<Result<T, E>>, shuffled: seq<Result<T, E>>)
    requires multiset(results) == multiset(shuffled)
    ensures multiset(Oks(results)) == multiset(Oks(shuffled))
    decreases |results|
  {
    assert |multiset(results)| == |results| && |multiset(shuffled)| == |shuffled|;
    if results != [] {
      var init, last := results[..|results| - 1], results[|results| - 1];
      assert results == init + [last];
      assert last in multiset(shuffled);
      var k :| 0 <= k < |shuffled| && shuffled[k] == last;
      var front, back := shuffled[..k], shuffled[k + 1..];
      assert shuffled == front + [last] + back;
      assert multiset(init) == multiset(results) - multiset{last};
      assert multiset(front + back) == multiset(shuffled) - multiset{last};
      OksAnyOrder(init, front + back);
      OksConcat(front, back);
      OksConcat(front + [last], back);
      OksConcat(front, [last]);
      OksConcat(init, [last]);
    }
  }

  /**
   The order in which the futures complete decides neither between success and failure nor
   which results a success contains; an error is always one of those that occurred.
   */
  lemma JoinedAnyOrder<T, E>(results: seq<Result<T, E>>, shuffled: seq<Result<T, E>>, threshold: nat, rank: E -> int)
    requires 0 < threshold <= |results| && multiset(results) == multiset(shuffled)
    ensures |shuffled| == |results|
    ensures var a, b := Joined(results, threshold, rank), Joined(shuffled, threshold, rank);
            (a.Ok? <==> b.Ok?) && (a.Ok? ==> multiset(a.value) == multiset(b.value)) &&
            (a.Err? ==> Result<T, E>.Err(b.error) in results)
  {
    assert |multiset(results)| == |results| && |multiset(shuffled)| == |shuffled|;
    OksAnyOrder(results, shuffled);
    assert |multiset(Oks(results))| == |Oks(results)| && |multiset(Oks(shuffled))| == |Oks(shuffled)|;
    var b := Joined(shuffled, threshold, rank);
    if b.Err? {
      Counts(shuffled);
      ErrsMember(shuffled, b.error);
      assert Result<T, E>.Err(b.error) in multiset(shuffled);
    }
  }

  lemma {:induction false} ErrsMember<T, E>(results: seq<Result<T, E>>, e: E)
    requires e in Errs(results)
    ensures Result<T, E>.Err(e) in results
  {
    var init, last := results[..|results| - 1], results[|results| - 1];
    if last.Err? && last.error == e {
    } else {
      ErrsMember(init, e);
    }
  }
}
