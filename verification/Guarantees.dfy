/**
 The two promises of recovery. Robustness: enough honest realms with one registration make
 recovery return its secret, whatever the others answer. Safety: as long as fewer than a
 threshold of realms lie, whatever recovery returns is the secret of one registration whose
 PIN and user info match.
 */
module Guarantees {
  import opened Wrappers
  import opened Encoding
  import opened Fields
  import opened Spaces
  import opened Shamir
  import opened Shuffles
  import opened Oprf
  import opened Configurations
  import opened Requests
  import opened Join
  import opened Gathering
  import opened Registrations
  import opened Recovery
  import opened Authenticity

  // ---- from answers to groups ----

  /** What one realm contributes to the group of `key`. */
  function Pick<A, K(==), V, E>(f: Realm -> Result<A, E>, v: A -> Option<(K, V)>, key: K): Realm -> Option<V> {
    (realm: Realm) =>
      match f(realm)
      case Err(_) => None
      case Ok(a) =>
        match v(a)
        case None => None
        case Some(item) => if item.0 == key then Some(item.1) else None
  }

  function Answered<A, E>(f: Realm -> Result<A, E>): Realm -> Option<A> {
    (realm: Realm) => if f(realm).Ok? then Some(f(realm).value) else None
  }

  lemma OksOfMap<A, E>(realms: seq<Realm>, f: Realm -> Result<A, E>)
    ensures Oks(Map(realms, f)) == Gather(realms, Answered(f))
  {
    var ok := (r: Result<A, E>) => if r.Ok? then Some(r.value) else None;
    OksGather(Map(realms, f), ok);
    GatherMap(realms, f, ok, Answered(f));
  }

  /** The group of a key, as one pass over the realms in order of arrival. */
  lemma GroupOf<A, K, V, E>(realms: seq<Realm>, f: Realm -> Result<A, E>, v: A -> Option<(K, V)>, key: K)
    ensures ValuesFor(Gather(Oks(Map(realms, f)), v), key) == Gather(realms, Pick(f, v, key))
  {
    var matching := (item: (K, V)) => if item.0 == key then Some(item.1) else None;
    var items := (realm: Realm) => match f(realm) case Err(_) => None case Ok(a) => v(a);
    OksOfMap(realms, f);
    GatherGather(realms, Answered(f), v, items);
    GatherGather(realms, items, matching, Pick(f, v, key));
    ValuesForIs(Gather(realms, items), key, matching);
  }

  lemma {:induction false} ValuesForIs<K, V>(items: seq<(K, V)>, key: K, pick: ((K, V)) -> Option<V>)
    requires forall item :: item in items ==> pick(item) == if item.0 == key then Some(item.1) else None
    ensures ValuesFor(items, key) == Gather(items, pick)
  {
    if items != [] {
      var init, last := items[..|items| - 1], items[|items| - 1];
      assert items == init + [last];
      ValuesForIs(init, key, pick);
      ValuesForStep(init, last, key);
    }
  }

  lemma {:induction false} GatherAll<A>(xs: seq<A>, all: A -> Option<A>)
    requires forall x :: x in xs ==> all(x) == Some(x)
    ensures Gather(xs, all) == xs
  {
    if xs != [] {
      GatherAll(xs[..|xs| - 1], all);
    }
  }

  function Itself<A>(): A -> Option<A> {
    (a: A) => Some(a)
  }

  lemma QuorumIs<K(!new), V>(items: seq<(K, V)>, threshold: nat, key: K)
    requires 0 < threshold && |items| < 2 * threshold
    requires |ValuesFor(items, key)| >= threshold
    ensures Quorum(items, threshold) == Some((key, ValuesFor(items, key)))
  {
    forall k | |ValuesFor(items, k)| >= threshold ensures k == key {
      if k != key { TwoKeys(items, k, key); }
    }
  }

  lemma {:induction false} GatherSelves<A>(xs: seq<A>, pick: A -> Option<A>)
    requires Unique(xs) && forall x :: x in xs && pick(x).Some? ==> pick(x) == Some(x)
    ensures Unique(Gather(xs, pick))
    ensures forall x :: x in Gather(xs, pick) <==> x in xs && pick(x).Some?
  {
    if xs != [] {
      var init, last := xs[..|xs| - 1], xs[|xs| - 1];
      assert xs == init + [last];
      GatherSelves(init, pick);
      assert last !in init;
    }
  }

  // ---- realms of a configuration ----

  ghost function RealmsOf(c: Configuration): set<Realm> {
    set r | r in c.realms
  }

  lemma RealmsUnique(c: Configuration)
    requires Acceptable(c)
    ensures Unique(c.realms)
  {
  }

  /** The answers of distinct realms carry distinct share indices. */
  lemma DistinctSources<V>(c: Configuration, realms: seq<Realm>, pick: Realm -> Option<V>, tag: V -> int)
    requires Acceptable(c) && Unique(realms) && forall r :: r in realms ==> r in c.realms
    requires forall i :: 0 <= i < |c.realms| && pick(c.realms[i]).Some? ==> tag(pick(c.realms[i]).value) == i + 1
    ensures DistinctTags(Gather(realms, pick), tag)
  {
    var source := (r: Realm) => match ShareIndex(c, r.id) case None => 0 case Some(index) => index;
    forall r | r in realms ensures exists i :: 0 <= i < |c.realms| && c.realms[i] == r && source(r) == i + 1 {
      var i :| 0 <= i < |c.realms| && c.realms[i] == r;
      ShareIndices(c, i);
    }
    forall i, j | 0 <= i < j < |realms| ensures source(realms[i]) != source(realms[j]) {
      assert realms[i] in realms && realms[j] in realms;
    }
    GatherLabels(realms, pick, source, tag);
  }

  /** Answers arrive once from each realm asked. */
  lemma Arrival(order: seq<Realm> -> seq<Realm>, realms: seq<Realm>)
    requires Reorders(order, realms) && Unique(realms)
    ensures Unique(order(realms)) && |order(realms)| == |realms|
    ensures forall r :: r in order(realms) <==> r in realms
  {
    UniqueShuffle(realms, order(realms));
    SameMembers(realms, order(realms));
  }

  /**
   If all good realms answer and file their answers under one key, the join succeeds and the
   quorum is their group.
   */
  lemma GoodQuorum<A, K(!new), V, E>(realms: seq<Realm>, f: Realm -> Result<A, E>, v: A -> Option<(K, V)>, key: K,
                                     good: set<Realm>, threshold: nat)
    requires Unique(realms) && 0 < threshold <= |good| && |realms| < 2 * threshold
    requires forall r :: r in good ==> r in realms && Pick(f, v, key)(r).Some?
    ensures |Oks(Map(realms, f))| >= threshold
    ensures Quorum(Gather(Oks(Map(realms, f)), v), threshold) == Some((key, Gather(realms, Pick(f, v, key))))
    ensures |Gather(realms, Pick(f, v, key))| >= threshold
  {
    OksOfMap(realms, f);
    GatherAtLeast(realms, Answered(f), good);
    GatherAtLeast(realms, Pick(f, v, key), good);
    GroupOf(realms, f, v, key);
    QuorumIs(Gather(Oks(Map(realms, f)), v), threshold, key);
  }

  lemma RealmCount(c: Configuration)
    requires Acceptable(c)
    ensures |RealmsOf(c)| == |c.realms|
  {
    RealmsUnique(c);
    UniqueCount(c.realms);
  }

  /** The realms of a configuration other than some of them. */
  lemma OtherRealms(c: Configuration, some: set<Realm>)
    requires Acceptable(c) && some <= RealmsOf(c)
    ensures |RealmsOf(c) - some| == |c.realms| - |some|
  {
    hide RealmsOf, Acceptable;
    RealmCount(c);
    var others := RealmsOf(c) - some;
    assert RealmsOf(c) == others + some && others !! some;
  }

  /** If enough realms answer, a phase is interrupted exactly when some request of it panics. */
  lemma InterruptedBy<A, E>(order: seq<Realm> -> seq<Realm>, realms: seq<Realm>, f: Realm -> Result<A, E>,
                            panics: Realm -> bool, threshold: nat)
    requires Reorders(order, realms) && |Oks(Map(order(realms), f))| >= threshold
    ensures Interrupted(Map(order(realms), f), Map(order(realms), panics), threshold) <==>
            exists r :: r in realms && panics(r)
  {
    var flags := Map(order(realms), panics);
    SameMembers(order(realms), realms);
    InterruptedIff(Map(order(realms), f), flags, threshold);
    if k :| 0 <= k < |flags| && flags[k] {
      assert order(realms)[k] in realms && panics(order(realms)[k]);
    }
    if r :| r in realms && panics(r) {
      var k :| 0 <= k < |flags| && order(realms)[k] == r;
      assert flags[k];
    }
  }

  // ---- phase 1 ----

  function Asked1<P>(env: Environment<P>): Realm -> Result<(Version, Realm), RecoverError> {
    (realm: Realm) => Recover1OnRealm(env, realm)
  }

  lemma Phase1Is<P>(c: Configuration, env: Environment<P>)
    requires Acceptable(c) && IsEnvironment(env)
    ensures Phase1Results(c, env) == Map(env.order1(c.realms), Asked1(env))
    ensures Gather(Oks(Phase1Results(c, env)), Itself()) == Oks(Phase1Results(c, env))
    ensures Unique(env.order1(c.realms)) && |env.order1(c.realms)| == |c.realms|
    ensures forall r :: r in env.order1(c.realms) <==> r in c.realms
  {
    assert Reorders(env.order1, c.realms);
    RealmsUnique(c);
    Arrival(env.order1, c.realms);
    GatherAll(Oks(Phase1Results(c, env)), Itself());
  }

  lemma Phase1Value<P>(c: Configuration, env: Environment<P>)
    requires Acceptable(c) && IsEnvironment(env)
    ensures var oks := Oks(Phase1Results(c, env));
            match Phase1(c, env)
            case Ok(found) => found.1 == ValuesFor(oks, found.0)
            case Err(_) => |oks| >= c.recoverThreshold ==> Quorum(oks, c.recoverThreshold).None?
    ensures var oks := Oks(Phase1Results(c, env));
            |oks| >= c.recoverThreshold && Quorum(oks, c.recoverThreshold).Some? ==>
              Phase1(c, env) == Ok(Quorum(oks, c.recoverThreshold).value)
  {
    hide Phase1Results;
    assert Reorders(env.order1, c.realms);
  }

  /** The realms phase 1 settles on are different realms of the configuration. */
  lemma Phase1Realms<P>(c: Configuration, env: Environment<P>)
    requires Acceptable(c) && IsEnvironment(env) && Phase1(c, env).Ok?
    ensures var (version, realms) := Phase1(c, env).value;
            Unique(realms) && forall r :: r in realms ==> r in c.realms && Recover1OnRealm(env, r) == Ok((version, r))
  {
    hide Phase1, Phase1Results, Recover1OnRealm;
    var order, version := env.order1(c.realms), Phase1(c, env).value.0;
    Phase1Value(c, env);
    Phase1Is(c, env);
    GroupOf(order, Asked1(env), Itself(), version);
    Asked1Self(env, version);
    GatherSelves(order, Pick(Asked1(env), Itself(), version));
  }

  lemma Asked1Self<P>(env: Environment<P>, version: Version)
    ensures var pick := Pick(Asked1(env), Itself(), version);
            forall r :: pick(r).Some? ==> pick(r) == Some(r) && Recover1OnRealm(env, r) == Ok((version, r))
  {
  }

  lemma Phase1Finds<P>(c: Configuration, env: Environment<P>, version: Version, good: set<Realm>)
    requires Acceptable(c) && IsEnvironment(env)
    requires good <= RealmsOf(c) && |good| >= c.recoverThreshold
    requires forall r :: r in good ==> Recover1OnRealm(env, r) == Ok((version, r))
    ensures Phase1(c, env).Ok? && Phase1(c, env).value.0 == version
    ensures forall r :: r in good ==> r in Phase1(c, env).value.1
    ensures |Oks(Phase1Results(c, env))| >= c.recoverThreshold
  {
    hide Phase1, Phase1Results, Recover1OnRealm;
    var order := env.order1(c.realms);
    var pick := Pick(Asked1(env), Itself(), version);
    Phase1Is(c, env);
    GoodQuorum(order, Asked1(env), Itself(), version, good, c.recoverThreshold);
    Asked1Self(env, version);
    GatherSelves(order, pick);
    Phase1Value(c, env);
  }

  // ---- phase 2 ----

  function Asked2<P>(cr: Crypto<P>, c: Configuration, env: Environment<P>, request: Recover2Request<P>)
    : Realm -> Result<(Consensus, (Share<P>, U16)), RecoverError>
  {
    (realm: Realm) => Recover2OnRealm(cr, c, env, realm, request)
  }

  lemma Phase2Is<P>(cr: Crypto<P>, c: Configuration, env: Environment<P>, realms: seq<Realm>,
                    request: Recover2Request<P>)
    requires IsEnvironment(env) && Unique(realms)
    ensures Phase2Results(cr, c, env, realms, request) == Map(env.order2(realms), Asked2(cr, c, env, request))
    ensures var oks := Oks(Phase2Results(cr, c, env, realms, request)); Gather(oks, Itself()) == oks
    ensures Unique(env.order2(realms)) && |env.order2(realms)| == |realms|
    ensures forall r :: r in env.order2(realms) <==> r in realms
  {
    assert Reorders(env.order2, realms);
    Arrival(env.order2, realms);
    GatherAll(Oks(Phase2Results(cr, c, env, realms, request)), Itself());
  }

  /** The shares of any group of phase 2 have different indices, whatever the realms answer. */
  lemma Group2Distinct<P>(cr: Crypto<P>, c: Configuration, env: Environment<P>, realms: seq<Realm>,
                          request: Recover2Request<P>, key: Consensus)
    requires Acceptable(c) && Unique(realms) && forall r :: r in realms ==> r in c.realms
    ensures DistinctIndices(Map(Gather(realms, Pick(Asked2(cr, c, env, request), Itself(), key)), ShareOf))
  {
    hide Recover2OnRealm;
    var pick := Pick(Asked2(cr, c, env, request), Itself(), key);
    var tag := (value: (Share<P>, U16)) => value.0.index;
    forall i | 0 <= i < |c.realms| && pick(c.realms[i]).Some? ensures tag(pick(c.realms[i]).value) == i + 1 {
      Answer2Index(cr, c, env, request, i);
    }
    hide Pick, Acceptable;
    DistinctSources(c, realms, pick, tag);
    var group := Gather(realms, pick);
    var shares := Map(group, ShareOf);
    assert forall k :: 0 <= k < |group| ==> shares[k] == ShareOf(group[k]) == group[k].0;
    forall i, j | 0 <= i < j < |shares| ensures shares[i].index != shares[j].index {
      assert tag(group[i]) != tag(group[j]);
    }
  }

  /** Hence phase 2 never finds duplicate shares. */
  lemma Phase2NoDuplicates<P(!new)>(cr: Crypto<P>, c: Configuration, env: Environment<P>, realms: seq<Realm>,
                                    request: Recover2Request<P>)
    requires IsField(cr.suite.field) && Acceptable(c) && IsEnvironment(env)
    requires Unique(realms) && forall r :: r in realms ==> r in c.realms
    ensures match Quorum(Oks(Phase2Results(cr, c, env, realms, request)), c.recoverThreshold)
            case None => true
            case Some(found) => RecoverSecret(cr.suite.field, cr.suite.points, Map(found.1, ShareOf)).Ok?
  {
    hide Recover2OnRealm, Phase2Results, RecoverSecret, Pick, Acceptable, DistinctIndices, IsField, Map;
    var quorum := Quorum(Oks(Phase2Results(cr, c, env, realms, request)), c.recoverThreshold);
    if quorum.Some? {
      var order, f, key := env.order2(realms), Asked2(cr, c, env, request), quorum.value.0;
      Phase2Is(cr, c, env, realms, request);
      GroupOf(order, f, Itself(), key);
      Group2Distinct(cr, c, env, order, request, key);
      RecoverRefusesDuplicates(cr.suite.field, cr.suite.points, Map(quorum.value.1, ShareOf));
    }
  }

  lemma Answer2Index<P>(cr: Crypto<P>, c: Configuration, env: Environment<P>, request: Recover2Request<P>, i: nat)
    requires Acceptable(c) && i < |c.realms| && Recover2OnRealm(cr, c, env, c.realms[i], request).Ok?
    ensures Recover2OnRealm(cr, c, env, c.realms[i], request).value.1.0.index == i + 1
  {
    ShareIndices(c, i);
  }

  /** A share accepted in a registration's group was made by it for that realm. */
  lemma PickedEvaluation<P(!new)>(cr: Crypto<P>, c: Configuration, reg: Registration, env: Environment<P>,
                                  request: Recover2Request<P>, key: Consensus, i: nat)
    requires IsCrypto(cr) && Acceptable(c) && WellFormed(cr, c, reg) && Unforgeable(cr, c, reg, env) && i < |c.realms|
    requires key.1 == cr.verifyingKey(reg.signingKey)
    requires Pick(Asked2(cr, c, env, request), Itself(), key)(c.realms[i]).Some?
    ensures var share := Pick(Asked2(cr, c, env, request), Itself(), key)(c.realms[i]).value.0;
            share == GenuineShare(cr, reg, request.oprfBlindedInput, i) && share.index == i + 1
  {
    hide Recover2OnRealm, GenuineShare, IsCrypto, WellFormed, Unforgeable;
    AcceptedShareIsGenuine(cr, c, reg, env, i, request);
    GenuineIndex(cr, reg, request.oprfBlindedInput, i);
  }

  /** The group of a registration's verifying key recombines to the evaluation under its root key. */
  lemma GroupRecovers<P(!new)>(cr: Crypto<P>, c: Configuration, reg: Registration, env: Environment<P>,
                               realms: seq<Realm>, request: Recover2Request<P>, key: Consensus)
    requires IsCrypto(cr) && Acceptable(c) && WellFormed(cr, c, reg) && Unforgeable(cr, c, reg, env)
    requires Unique(realms) && forall r :: r in realms ==> r in c.realms
    requires key.1 == cr.verifyingKey(reg.signingKey)
    requires |Gather(realms, Pick(Asked2(cr, c, env, request), Itself(), key))| >= c.recoverThreshold
    ensures var group := Gather(realms, Pick(Asked2(cr, c, env, request), Itself(), key));
            AllGenuine(cr, c, reg, request.oprfBlindedInput, Map(group, ShareOf)) &&
            RecoverSecret(cr.suite.field, cr.suite.points, Map(group, ShareOf)) ==
            Ok(BlindEvaluate(cr.suite, reg.rootKey, request.oprfBlindedInput))
  {
    hide Recover2OnRealm, GenuineShare, IsCrypto, WellFormed, Unforgeable, RecoverSecret, Pick, BlindEvaluate;
    var pick := Pick(Asked2(cr, c, env, request), Itself(), key);
    var group, u := Gather(realms, pick), request.oprfBlindedInput;
    var shares := Map(group, ShareOf);
    assert forall k :: 0 <= k < |group| ==> shares[k] == ShareOf(group[k]) == group[k].0;
    forall i | 0 <= i < |c.realms| && pick(c.realms[i]).Some?
      ensures pick(c.realms[i]).value.0 == GenuineShare(cr, reg, u, i) && GenuineShare(cr, reg, u, i).index == i + 1
    {
      PickedEvaluation(cr, c, reg, env, request, key, i);
    }
    forall k | 0 <= k < |shares|
      ensures 1 <= shares[k].index <= |c.realms| && shares[k] == GenuineShare(cr, reg, u, shares[k].index - 1)
    {
      GatherMember(realms, pick, group[k]);
      var r :| r in realms && pick(r) == Some(group[k]);
      var i :| 0 <= i < |c.realms| && c.realms[i] == r;
      assert shares[k] == pick(c.realms[i]).value.0;
    }
    Group2Distinct(cr, c, env, realms, request, key);
    RecoverGenuine(cr, c, reg, u, shares);
  }

  lemma GenuineIndex<P>(cr: Crypto<P>, reg: Registration, u: P, i: nat)
    requires i + 1 < U32_LIMIT
    ensures GenuineShare(cr, reg, u, i).index == i + 1
  {
  }

  // ---- phase 3 ----

  function Asked3<P>(cr: Crypto<P>, c: Configuration, env: Environment<P>, version: Version, unlockKey: Bytes)
    : Realm -> Result<Phase3Item, RecoverError>
  {
    (realm: Realm) => Recover3OnRealm(cr, c, env, realm, Recover3Request(version, TagFor(cr, unlockKey, realm.id)))
  }

  function Checking<P>(cr: Crypto<P>, unlockKey: Bytes): Phase3Item -> Option<(Bytes, Share<int>)> {
    (item: Phase3Item) => Verified(cr, unlockKey, item)
  }

  lemma Phase3Is<P>(cr: Crypto<P>, c: Configuration, env: Environment<P>, realms: seq<Realm>, version: Version,
                    unlockKey: Bytes)
    requires IsEnvironment(env) && Unique(realms)
    ensures Phase3Results(cr, c, env, realms, version, unlockKey) ==
            Map(env.order3(realms), Asked3(cr, c, env, version, unlockKey))
    ensures Unique(env.order3(realms)) && |env.order3(realms)| == |realms|
    ensures forall r :: r in env.order3(realms) <==> r in realms
  {
    assert Reorders(env.order3, realms);
    Arrival(env.order3, realms);
  }

  /** The shares of any group of phase 3 have different indices, whatever the realms answer. */
  lemma Group3Distinct<P>(cr: Crypto<P>, c: Configuration, env: Environment<P>, realms: seq<Realm>,
                          version: Version, unlockKey: Bytes, key: Bytes)
    requires Acceptable(c) && Unique(realms) && forall r :: r in realms ==> r in c.realms
    ensures DistinctIndices(Gather(realms, Pick(Asked3(cr, c, env, version, unlockKey), Checking(cr, unlockKey), key)))
  {
    hide Recover3OnRealm, Verified;
    var pick := Pick(Asked3(cr, c, env, version, unlockKey), Checking(cr, unlockKey), key);
    var tag := (share: Share<int>) => share.index;
    forall i | 0 <= i < |c.realms| && pick(c.realms[i]).Some? ensures tag(pick(c.realms[i]).value) == i + 1 {
      Answer3Index(cr, c, env, Recover3Request(version, TagFor(cr, unlockKey, c.realms[i].id)), unlockKey, i);
    }
    hide Pick, Acceptable;
    DistinctSources(c, realms, pick, tag);
    var group := Gather(realms, pick);
    forall i, j | 0 <= i < j < |group| ensures group[i].index != group[j].index {
      assert tag(group[i]) != tag(group[j]);
    }
  }

  /** Hence phase 3 never finds duplicate shares. */
  lemma Phase3NoDuplicates<P(!new)>(cr: Crypto<P>, c: Configuration, env: Environment<P>, realms: seq<Realm>,
                                    version: Version, unlockKey: Bytes)
    requires IsField(cr.suite.field) && Acceptable(c) && IsEnvironment(env)
    requires Unique(realms) && forall r :: r in realms ==> r in c.realms
    ensures var items := Gather(Oks(Phase3Results(cr, c, env, realms, version, unlockKey)), Checking(cr, unlockKey));
            match Quorum(items, c.recoverThreshold)
            case None => true
            case Some(found) => RecoverSecret(cr.suite.field, ScalarSpace(cr.suite.field), found.1).Ok?
  {
    hide Recover3OnRealm, Verified, Phase3Results, RecoverSecret, Pick, Acceptable, DistinctIndices, IsField;
    var items := Gather(Oks(Phase3Results(cr, c, env, realms, version, unlockKey)), Checking(cr, unlockKey));
    var quorum := Quorum(items, c.recoverThreshold);
    if quorum.Some? {
      var order, f, key := env.order3(realms), Asked3(cr, c, env, version, unlockKey), quorum.value.0;
      Phase3Is(cr, c, env, realms, version, unlockKey);
      GroupOf(order, f, Checking(cr, unlockKey), key);
      Group3Distinct(cr, c, env, order, version, unlockKey, key);
      RecoverRefusesDuplicates(cr.suite.field, ScalarSpace(cr.suite.field), quorum.value.1);
    }
  }

  lemma Answer3Index<P>(cr: Crypto<P>, c: Configuration, env: Environment<P>, request: Recover3Request,
                        unlockKey: Bytes, i: nat)
    requires Acceptable(c) && i < |c.realms| && Recover3OnRealm(cr, c, env, c.realms[i], request).Ok?
    requires Verified(cr, unlockKey, Recover3OnRealm(cr, c, env, c.realms[i], request).value).Some?
    ensures Verified(cr, unlockKey, Recover3OnRealm(cr, c, env, c.realms[i], request).value).value.1.index == i + 1
  {
    hide SecretCommitment;
    ShareIndices(c, i);
  }

  /** A share verified in a group was made by the registration for that realm. */
  lemma PickedShare<P(!new)>(cr: Crypto<P>, c: Configuration, reg: Registration, env: Environment<P>,
                             version: Version, key: Bytes, i: nat)
    requires IsCrypto(cr) && Acceptable(c) && WellFormed(cr, c, reg) && Unforgeable(cr, c, reg, env) && i < |c.realms|
    requires var unlockKey := UnlockKey(cr, c, reg);
             Pick(Asked3(cr, c, env, version, unlockKey), Checking(cr, unlockKey), key)(c.realms[i]).Some?
    ensures var unlockKey := UnlockKey(cr, c, reg);
            key == EncryptedSecret(cr, c, reg) &&
            Pick(Asked3(cr, c, env, version, unlockKey), Checking(cr, unlockKey), key)(c.realms[i]) ==
            Some(ScalarShare(cr, reg, i))
    ensures ScalarShare(cr, reg, i).index == i + 1
  {
    hide Recover3OnRealm, Verified, ScalarShare, EncryptedSecret, IsCrypto, WellFormed, Unforgeable, UnlockKey;
    VerifiedIsGenuine(cr, c, reg, env, i, Recover3Request(version, TagFor(cr, UnlockKey(cr, c, reg), c.realms[i].id)));
    ScalarShareIndex(cr, reg, i);
  }

  /** Verified shares all come with the registered ciphertext. */
  lemma Group3Genuine<P(!new)>(cr: Crypto<P>, c: Configuration, reg: Registration, env: Environment<P>,
                               realms: seq<Realm>, version: Version, key: Bytes, k: nat)
    requires IsCrypto(cr) && Acceptable(c) && WellFormed(cr, c, reg) && Unforgeable(cr, c, reg, env)
    requires forall r :: r in realms ==> r in c.realms
    requires var unlockKey := UnlockKey(cr, c, reg);
             k < |Gather(realms, Pick(Asked3(cr, c, env, version, unlockKey), Checking(cr, unlockKey), key))|
    ensures var unlockKey := UnlockKey(cr, c, reg);
            var share := Gather(realms, Pick(Asked3(cr, c, env, version, unlockKey), Checking(cr, unlockKey), key))[k];
            key == EncryptedSecret(cr, c, reg) && 1 <= share.index <= |c.realms| &&
            share == ScalarShare(cr, reg, share.index - 1)
  {
    hide *;
    var unlockKey := UnlockKey(cr, c, reg);
    var pick := Pick(Asked3(cr, c, env, version, unlockKey), Checking(cr, unlockKey), key);
    var group := Gather(realms, pick);
    GatherMember(realms, pick, group[k]);
    var r :| r in realms && pick(r) == Some(group[k]);
    var i :| 0 <= i < |c.realms| && c.realms[i] == r;
    PickedShare(cr, c, reg, env, version, key, i);
  }

  /** Enough of them decrypt it. */
  lemma GroupDecrypts<P(!new)>(cr: Crypto<P>, c: Configuration, reg: Registration, env: Environment<P>,
                               realms: seq<Realm>, version: Version, key: Bytes)
    requires IsCrypto(cr) && Acceptable(c) && WellFormed(cr, c, reg) && Unforgeable(cr, c, reg, env)
    requires Unique(realms) && forall r :: r in realms ==> r in c.realms
    requires var unlockKey := UnlockKey(cr, c, reg);
             |Gather(realms, Pick(Asked3(cr, c, env, version, unlockKey), Checking(cr, unlockKey), key))| >=
               c.recoverThreshold
    ensures var unlockKey := UnlockKey(cr, c, reg);
            var group := Gather(realms, Pick(Asked3(cr, c, env, version, unlockKey), Checking(cr, unlockKey), key));
            key == EncryptedSecret(cr, c, reg) && AllGenuineScalars(cr, c, reg, group) &&
            DecryptFrom(cr, HashPin(cr, c.pinHashingMode, reg.pin, reg.version, reg.info).1, (key, group)) ==
            Recovered(reg.secret)
  {
    hide Recover3OnRealm, Verified, ScalarShare, EncryptedSecret, IsCrypto, WellFormed, Unforgeable, DecryptFrom,
         UnlockKey, Pick, DistinctIndices, Gather;
    var unlockKey, encrypted := UnlockKey(cr, c, reg), EncryptedSecret(cr, c, reg);
    var pick := Pick(Asked3(cr, c, env, version, unlockKey), Checking(cr, unlockKey), key);
    var group := Gather(realms, pick);
    forall k | 0 <= k < |group|
      ensures 1 <= group[k].index <= |c.realms| && group[k] == ScalarShare(cr, reg, group[k].index - 1)
    {
      Group3Genuine(cr, c, reg, env, realms, version, key, k);
    }
    Group3Genuine(cr, c, reg, env, realms, version, key, 0);
    Group3Distinct(cr, c, env, realms, version, unlockKey, key);
    DecryptGenuine(cr, c, reg, group);
  }
}
