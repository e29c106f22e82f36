/**
 What recoveries report when they do not return a secret: a missing registration, which makes the
 client try its previous configurations, a wrong PIN with the guesses that are left, and the
 errors on which all realms agree.
 */
module Outcomes {
  import opened Wrappers
  import opened Encoding
  import opened Fields
  import opened Shuffles
  import opened Shamir
  import opened Oprf
  import opened Configurations
  import opened Requests
  import opened Join
  import opened Gathering
  import opened Registrations
  import opened Recovery
  import opened Authenticity
  import opened Guarantees
  import opened Realms
  import opened Worlds
  import opened Promises

  // ---- nothing to recover ----

  /** The realms that report this version. */
  ghost function Reporting<P>(c: Configuration, env: Environment<P>, version: Version): set<Realm> {
    set r | r in RealmsOf(c) && env.answer1(r) == Ok(Recover1Response(Recover1Ok(version)))
  }

  ghost predicate ReportsSome<P>(answer: Answer<P>) {
    exists version :: answer == Ok(Recover1Response(Recover1Ok(version)))
  }

  lemma ReportIs<P>(env: Environment<P>, realm: Realm, version: Version)
    ensures Recover1OnRealm(env, realm) == Ok((version, realm)) <==>
            env.answer1(realm) == Ok(Recover1Response(Recover1Ok(version)))
    ensures Recover1OnRealm(env, realm).Ok? <==> ReportsSome(env.answer1(realm))
  {
    if Recover1OnRealm(env, realm).Ok? {
      assert env.answer1(realm) == Ok(Recover1Response(Recover1Ok(env.answer1(realm).value.recover1.version)));
    }
  }

  /** No version is reported by a threshold of realms, hence phase 1 finds no quorum. */
  lemma NoQuorum<P>(c: Configuration, env: Environment<P>)
    requires Acceptable(c) && IsEnvironment(env)
    requires forall version :: |Reporting(c, env, version)| < c.recoverThreshold
    ensures Quorum(Oks(Phase1Results(c, env)), c.recoverThreshold) == None
  {
    hide Acceptable, Phase1Results, Recover1OnRealm;
    var order, oks := env.order1(c.realms), Oks(Phase1Results(c, env));
    Phase1Is(c, env);
    forall version ensures |ValuesFor(oks, version)| < c.recoverThreshold {
      var pick := Pick(Asked1(env), Itself(), version);
      GroupOf(order, Asked1(env), Itself(), version);
      GatherCount(order, pick);
      forall r | r in Picked(order, pick) ensures r in Reporting(c, env, version) {
        Asked1Self(env, version);
        ReportIs(env, r, version);
      }
      SubsetCount(Picked(order, pick), Reporting(c, env, version));
    }
  }

  lemma AnswersCounted<P>(c: Configuration, env: Environment<P>)
    requires Acceptable(c) && IsEnvironment(env)
    ensures |Oks(Phase1Results(c, env))| == |set r | r in RealmsOf(c) && ReportsSome(env.answer1(r))|
  {
    hide Acceptable, Phase1Results, Recover1OnRealm, ReportsSome;
    var order := env.order1(c.realms);
    Phase1Is(c, env);
    OksOfMap(order, Asked1(env));
    GatherCount(order, Answered(Asked1(env)));
    forall r ensures r in Picked(order, Answered(Asked1(env))) <==> r in RealmsOf(c) && ReportsSome(env.answer1(r)) {
      ReportIs(env, r, [0, 0, 0, 0, 0, 0, 0, 0, 0, 0, 0, 0, 0, 0, 0, 0]);
    }
    assert Picked(order, Answered(Asked1(env))) == (set r | r in RealmsOf(c) && ReportsSome(env.answer1(r)));
  }

  /** Enough realms answer, but no version reaches the threshold: nothing is registered. */
  lemma NoVersionAgreed<P>(cr: Crypto<P>, c: Configuration, env: Environment<P>, pin: Bytes, info: UserInfo,
                           blinding: int)
    requires Acceptable(c) && IsEnvironment(env) && !Panics1(env, c.realms)
    requires |set r | r in RealmsOf(c) && ReportsSome(env.answer1(r))| >= c.recoverThreshold
    requires forall version :: |Reporting(c, env, version)| < c.recoverThreshold
    ensures Recover(cr, c, env, pin, info, blinding) == Failed(RecoverNotRegistered)
  {
    hide Acceptable, Phase1Results, Recover1OnRealm, ReportsSome, Phase2, Phase3, Interrupted1, Interrupted2,
         Interrupted3, Panics1;
    AnswersCounted(c, env);
    NoQuorum(c, env);
    Interrupted1Iff(c, env);
    assert Reorders(env.order1, c.realms);
  }

  /** Every realm reports a version or that nothing is registered, and no version reaches the threshold. */
  ghost predicate NothingHeld<P>(c: Configuration, env: Environment<P>) {
    && (forall r :: r in c.realms ==>
          env.answer1(r) == Ok(Recover1Response(Recover1NotRegistered)) || ReportsSome(env.answer1(r)))
    && (forall version :: |Reporting(c, env, version)| < c.recoverThreshold)
  }

  lemma NothingToRecover<P>(cr: Crypto<P>, c: Configuration, env: Environment<P>, pin: Bytes, info: UserInfo,
                            blinding: int)
    requires Acceptable(c) && IsEnvironment(env) && NothingHeld(c, env)
    ensures Recover(cr, c, env, pin, info, blinding) == Failed(RecoverNotRegistered)
  {
    hide Acceptable, ReportsSome, Phase2, Phase3, Interrupted2, Interrupted3;
    assert !Panics1(env, c.realms) by {
      NoPanicsHeld(c, env);
    }
    if |set r | r in RealmsOf(c) && ReportsSome(env.answer1(r))| >= c.recoverThreshold {
      NoVersionAgreed(cr, c, env, pin, info, blinding);
    } else {
      AnswersCounted(c, env);
      FewReports(c, env);
    }
  }

  lemma NoPanicsHeld<P>(c: Configuration, env: Environment<P>)
    requires NothingHeld(c, env)
    ensures !Panics1(env, c.realms)
  {
  }

  lemma FewReports<P>(c: Configuration, env: Environment<P>)
    requires Acceptable(c) && IsEnvironment(env) && NothingHeld(c, env)
    requires |Oks(Phase1Results(c, env))| < c.recoverThreshold
    ensures !Interrupted1(c, env) && Phase1(c, env) == Err(RecoverNotRegistered)
  {
    hide Acceptable, ReportsSome;
    var order, results := env.order1(c.realms), Phase1Results(c, env);
    Phase1Is(c, env);
    assert Reorders(env.order1, c.realms);
    SizeBound(c);
    var k := JoinedIsLeast(results, c.recoverThreshold, RecoverRank);
    var e := Joined(results, c.recoverThreshold, RecoverRank).error;
    ErrsMember(results[..k], e);
    var i :| 0 <= i < k && results[i] == Err(e);
    OnlyMissing(c, env, order[i]);
    forall i | 0 <= i < |order| ensures !Panics(env.answer1(order[i])) {
      OnlyMissing(c, env, order[i]);
    }
  }

  lemma SizeBound(c: Configuration)
    requires Acceptable(c)
    ensures 0 < c.recoverThreshold <= |c.realms|
  {
  }

  lemma OnlyMissing<P>(c: Configuration, env: Environment<P>, r: Realm)
    requires NothingHeld(c, env) && r in c.realms
    ensures Recover1OnRealm(env, r).Ok? || Recover1OnRealm(env, r) == Err(RecoverNotRegistered)
    ensures !Panics(env.answer1(r))
  {
  }

  /** The realm is not registered, or reports its version. */
  ghost predicate Reportable(state: RealmState) {
    state.NotRegistered? || HasGuessLeft(state)
  }

  /** In terms of the realms' states: all answer, and no version is held by a threshold of them. */
  ghost predicate NotEnoughHeld<P>(c: Configuration, env: Environment<P>, states: map<Realm, RealmState>) {
    && (forall r :: r in c.realms ==>
          r in states && Reportable(states[r]) && env.answer1(r) == Ok(Recover1Response(Recover1Reply(states[r]))))
    && (forall version :: |Holders(c, states, version)| < c.recoverThreshold)
  }

  ghost function Holders(c: Configuration, states: map<Realm, RealmState>, version: Version): set<Realm> {
    set r | r in RealmsOf(c) && r in states && states[r].Registered? && states[r].registration.version == version
  }

  lemma StatesHoldNothing<P>(c: Configuration, env: Environment<P>, states: map<Realm, RealmState>)
    requires NotEnoughHeld(c, env, states)
    ensures NothingHeld(c, env)
  {
    forall version ensures |Reporting(c, env, version)| < c.recoverThreshold {
      SubsetCount(Reporting(c, env, version), Holders(c, states, version));
    }
    forall r | r in c.realms
      ensures env.answer1(r) == Ok(Recover1Response(Recover1NotRegistered)) || ReportsSome(env.answer1(r))
    {
      if states[r].Registered? {
        assert env.answer1(r) == Ok(Recover1Response(Recover1Ok(states[r].registration.version)));
      }
    }
  }

  /** If no realm is registered, recovery says so, in whatever order the realms answer. */
  lemma NotRegisteredAnywhere<P>(cr: Crypto<P>, c: Configuration, env: Environment<P>, states: map<Realm, RealmState>,
                                 pin: Bytes, info: UserInfo, blinding: int)
    requires Acceptable(c) && IsEnvironment(env) && NotEnoughHeld(c, env, states)
    ensures Recover(cr, c, env, pin, info, blinding) == Failed(RecoverNotRegistered)
  {
    hide Recover, Acceptable, IsEnvironment, NotEnoughHeld, NothingHeld;
    StatesHoldNothing(c, env, states);
    NothingToRecover(cr, c, env, pin, info, blinding);
  }

  // ---- falling back to previous configurations ----

  /** The client can reach all realms of the attempt's configuration. */
  ghost predicate AllSlotted<P>(current: Configuration, attempt: Recovery.Attempt<P>) {
    forall realm :: realm in attempt.configuration.realms ==> Slotted(current, realm)
  }

  lemma DecidedAt<P>(cr: Crypto<P>, attempts: seq<Recovery.Attempt<P>>, k: nat, k': nat, pin: Bytes, info: UserInfo,
                     r: Outcome)
    requires k < |attempts| && k' < |attempts| && forall i :: 0 <= i < |attempts| ==> AttemptOk(attempts[i])
    requires forall j :: 0 <= j < k ==>
      OutcomeOf(cr, attempts[0].configuration, attempts[j], pin, info) == Failed(RecoverNotRegistered)
    requires OutcomeOf(cr, attempts[0].configuration, attempts[k], pin, info) != Failed(RecoverNotRegistered)
    requires Decides(cr, attempts, k', pin, info, r)
    ensures r == OutcomeOf(cr, attempts[0].configuration, attempts[k], pin, info)
  {
    hide OutcomeOf;
    assert k' == k;
  }

  /**
   The fallback: if nothing is held under the first k configurations and enough realms of the next
   one serve a registration, the client returns its secret.
   */
  lemma FallbackRecovers<P(!new)>(cr: Crypto<P>, attempts: seq<Recovery.Attempt<P>>, k: nat, k': nat, reg: Registration,
                                  good: map<Realm, Sighting>, r: Outcome)
    requires k < |attempts| && k' < |attempts| && forall i :: 0 <= i < |attempts| ==> AttemptOk(attempts[i])
    requires forall j :: 0 <= j <= k ==> AllSlotted(attempts[0].configuration, attempts[j])
    requires forall j :: 0 <= j < k ==> NothingHeld(attempts[j].configuration, attempts[j].env)
    requires var c, env := attempts[k].configuration, attempts[k].env;
             AttemptOk(attempts[k]) && IsCrypto(cr) && WellFormed(cr, c, reg) && Unforgeable(cr, c, reg, env) &&
             !Same(cr.suite.field, attempts[k].blinding, 0) && AllServe(cr, c, reg, env, good) &&
             |good| >= c.recoverThreshold && !AnyPanics(cr, c, env, reg, attempts[k].blinding)
    requires Decides(cr, attempts, k', reg.pin, reg.info, r)
    ensures r == Recovered(reg.secret)
  {
    hide Recover, Acceptable, IsEnvironment, IsCrypto, WellFormed, Unforgeable, AllServe, AnyPanics, NothingHeld,
         Decides, Slotted;
    var current := attempts[0].configuration;
    forall j | 0 <= j < k
      ensures OutcomeOf(cr, current, attempts[j], reg.pin, reg.info) == Failed(RecoverNotRegistered)
    {
      assert AllSlotted(current, attempts[j]);
      NothingToRecover(cr, attempts[j].configuration, attempts[j].env, reg.pin, reg.info, attempts[j].blinding);
    }
    assert AllSlotted(current, attempts[k]);
    RobustRecovery(cr, attempts[k].configuration, reg, attempts[k].env, good, attempts[k].blinding);
    DecidedAt(cr, attempts, k, k', reg.pin, reg.info, r);
  }

  // ---- a wrong PIN ----

  /** The guesses that a realm in this state allows after the one it is about to grant. */
  function LeftAfter(state: RealmState): int
    requires state.Registered?
  {
    state.registration.numGuesses - (state.attempted + 1)
  }

  lemma HonestGuesses<P(!new)>(cr: Crypto<P>, c: Configuration, reg: Registration, env: Environment<P>, realm: Realm,
                               seen: Sighting, request: Recover2Request<P>)
    requires IsCrypto(cr) && Acceptable(c) && realm in c.realms && Serves(cr, c, reg, env, realm, seen)
    requires request.version == reg.version
    ensures Recover2OnRealm(cr, c, env, realm, request).Ok?
    ensures Recover2OnRealm(cr, c, env, realm, request).value.1.1 == LeftAfter(seen.state2)
  {
    hide Recover2OnRealm, LeftAfter, IsCrypto, Acceptable, CommitmentOf, OprfResult;
    HonestPhase2(cr, c, reg, env, realm, seen, request);
    assert Replies2(cr, env, realm, seen, request);
    HeldRecord(cr, c, reg, realm, seen.state2);
    AcceptedGuesses(cr, c, env, realm, seen.state2, seen.betaT, request);
  }

  /** An accepted answer counts the guesses of the state it comes from. */
  lemma AcceptedGuesses<P>(cr: Crypto<P>, c: Configuration, env: Environment<P>, realm: Realm, state: RealmState,
                           betaT: int, request: Recover2Request<P>)
    requires HasGuessLeft(state) && request.version == state.registration.version
    requires env.answer2(realm, request) == Ok(Recover2Response(Recover2Reply(cr.suite, state, request, betaT)))
    requires Recover2OnRealm(cr, c, env, realm, request).Ok?
    ensures Recover2OnRealm(cr, c, env, realm, request).value.1.1 == LeftAfter(state)
  {
    hide BlindEvaluate, GenerateProof, VerifyProof, VerifySigned, ShareIndex;
  }

  /** Least guesses of a group, and whose they are. */
  lemma LeastOfGroup<P>(order: seq<Realm>, pick: Realm -> Option<(Share<P>, U16)>, group: seq<(Share<P>, U16)>)
    returns (least: Realm)
    requires group == Gather(order, pick) && group != []
    ensures least in order && pick(least) == Some(Min(group, GuessesOf))
    ensures forall r :: r in order && pick(r).Some? ==> Min(group, GuessesOf).1 <= pick(r).value.1
  {
    GatherMember(order, pick, Min(group, GuessesOf));
    least :| least in order && pick(least) == Some(Min(group, GuessesOf));
    forall r | r in order && pick(r).Some? ensures Min(group, GuessesOf).1 <= pick(r).value.1 {
      GatherMember(order, pick, pick(r).value);
      assert pick(r).value in group;
      assert GuessesOf(Min(group, GuessesOf)) <= GuessesOf(pick(r).value);
    }
  }

  /** With another PIN or info the commitment does not match. */
  lemma CommitmentDiffers<P(!new)>(cr: Crypto<P>, c: Configuration, reg: Registration, pin: Bytes, info: UserInfo,
                                   blinding: int, result: P)
    requires IsCrypto(cr) && CollisionFree(cr) && (pin != reg.pin || info != reg.info)
    ensures var accessKey := HashPin(cr, c.pinHashingMode, pin, reg.version, info).0;
            CommitmentOf(cr, Finalize(cr.suite, accessKey, blinding, result)) != CommitmentOf(cr,
                OprfResult(cr, c, reg))
  {
    hide IsCrypto, CollisionFree, CommitmentOf, OprfResult, HashPin;
    var accessKey := HashPin(cr, c.pinHashingMode, pin, reg.version, info).0;
    if CommitmentOf(cr, Finalize(cr.suite, accessKey, blinding, result)) == CommitmentOf(cr, OprfResult(cr, c, reg)) {
      CommitmentMatches(cr, c, reg, pin, reg.version, info, Unblind(cr.suite, blinding, result));
    }
  }

  lemma WrongPinPhase2<P(!new)>(cr: Crypto<P>, c: Configuration, reg: Registration, env: Environment<P>,
                                good: map<Realm, Sighting>, realms: seq<Realm>, pin: Bytes, info: UserInfo,
                                blinding: int)
    returns (g: U16)
    requires IsCrypto(cr) && CollisionFree(cr) && Acceptable(c) && WellFormed(cr, c, reg) && IsEnvironment(env)
    requires Unforgeable(cr, c, reg, env) && (pin != reg.pin || info != reg.info)
    requires AllServe(cr, c, reg, env, good) && |good| >= c.recoverThreshold
    requires Unique(realms) && (forall r :: r in realms ==> r in c.realms) && (forall r :: r in good ==> r in realms)
    requires c.recoverThreshold <= |realms| < 2 * c.recoverThreshold
    ensures var accessKey := HashPin(cr, c.pinHashingMode, pin, reg.version, info).0;
            var request := Recover2Request(reg.version, Start(cr.suite, accessKey, blinding));
            Phase2(cr, c, env, accessKey, blinding, reg.version, realms) == Err(InvalidPin(g)) &&
            |Oks(Phase2Results(cr, c, env, realms, request))| >= c.recoverThreshold &&
            ((forall r :: r in c.realms && r !in good ==> env.answer2(r, request).Err?) ==>
              exists r :: r in good && good[r].state2.Registered? && g == LeftAfter(good[r].state2))
    ensures forall r :: r in good ==> good[r].state2.Registered? && g <= LeftAfter(good[r].state2)
  {
    hide Recover2OnRealm, CommitmentOf, RecoverSecret, IsCrypto, CollisionFree, WellFormed, Unforgeable, Finalize,
         UnlockFrom, Phase2, Phase2Results, AllServe, Map, Start, OprfResult, HashPin, LeftAfter, Acceptable, Pick, Min;
    ThresholdPositive(c);
    var accessKey := HashPin(cr, c.pinHashingMode, pin, reg.version, info).0;
    var request := Recover2Request(reg.version, Start(cr.suite, accessKey, blinding));
    var key := (CommitmentOf(cr, OprfResult(cr, c, reg)), cr.verifyingKey(reg.signingKey));
    var order := env.order2(realms);
    var pick := Pick(Asked2(cr, c, env, request), Itself(), key);
    var group := Gather(order, pick);
    Phase2Is(cr, c, env, realms, request);
    RobustQuorum(cr, c, reg, env, good, realms, request);
    GroupRecovers(cr, c, reg, env, order, request, key);
    var w := BlindEvaluate(cr.suite, reg.rootKey, request.oprfBlindedInput);
    UnlockGenuine(cr, accessKey, blinding, (key, group), w);
    CommitmentDiffers(cr, c, reg, pin, info, blinding, w);
    Phase2Value(cr, c, env, accessKey, blinding, reg.version, realms);
    var least := LeastOfGroup(order, pick, group);
    g := Min(group, GuessesOf).1;
    forall r | r in good ensures good[r].state2.Registered? && g <= LeftAfter(good[r].state2) {
      GoodGuesses(cr, c, reg, env, good, r, request);
    }
    if forall r :: r in c.realms && r !in good ==> env.answer2(r, request).Err? {
      PickedAnswers(cr, c, env, request, key, least);
      assert least in good;
      GoodGuesses(cr, c, reg, env, good, least, request);
    }
  }

  lemma ThresholdPositive(c: Configuration)
    requires Acceptable(c)
    ensures 0 < c.recoverThreshold
  {
  }

  lemma PickedAnswers<P>(cr: Crypto<P>, c: Configuration, env: Environment<P>, request: Recover2Request<P>,
                         key: Consensus, r: Realm)
    requires Pick(Asked2(cr, c, env, request), Itself(), key)(r).Some?
    ensures env.answer2(r, request).Ok?
  {
  }

  lemma GoodGuesses<P(!new)>(cr: Crypto<P>, c: Configuration, reg: Registration, env: Environment<P>,
                             good: map<Realm, Sighting>, r: Realm, request: Recover2Request<P>)
    requires IsCrypto(cr) && Acceptable(c) && AllServe(cr, c, reg, env, good) && r in good
    requires request.version == reg.version
    ensures good[r].state2.Registered?
    ensures var key := (CommitmentOf(cr, OprfResult(cr, c, reg)), cr.verifyingKey(reg.signingKey));
            var pick := Pick(Asked2(cr, c, env, request), Itself(), key);
            pick(r).Some? && pick(r).value.1 == LeftAfter(good[r].state2)
  {
    hide Recover2OnRealm, CommitmentOf, OprfResult, IsCrypto, LeftAfter, Holds, AnswersFrom, Acceptable;
    assert r in RealmsOf(c) && Serves(cr, c, reg, env, r, good[r]);
    HonestPhase2(cr, c, reg, env, r, good[r], request);
    HonestGuesses(cr, c, reg, env, r, good[r], request);
  }

  /**
   A wrong PIN: if a threshold of realms serve the registration, a recovery with another PIN or
   info is refused with at most the guesses that any of them still allows, and with exactly the
   least of these if nothing was heard of the others.
   */
  lemma WrongPinRefused<P(!new)>(cr: Crypto<P>, c: Configuration, reg: Registration, env: Environment<P>,
                                 good: map<Realm, Sighting>, pin: Bytes, info: UserInfo, blinding: int)
    returns (g: U16)
    requires IsCrypto(cr) && CollisionFree(cr) && Acceptable(c) && WellFormed(cr, c, reg) && IsEnvironment(env)
    requires Unforgeable(cr, c, reg, env) && (pin != reg.pin || info != reg.info)
    requires AllServe(cr, c, reg, env, good) && |good| >= c.recoverThreshold
    requires !Panics1(env, c.realms)
    requires var accessKey := HashPin(cr, c.pinHashingMode, pin, reg.version, info).0;
             !Panics2(env, c.realms, Recover2Request(reg.version, Start(cr.suite, accessKey, blinding)))
    ensures Recover(cr, c, env, pin, info, blinding) == Failed(InvalidPin(g))
    ensures forall r :: r in good ==> good[r].state2.Registered? && g <= LeftAfter(good[r].state2)
    ensures var accessKey := HashPin(cr, c.pinHashingMode, pin, reg.version, info).0;
            var request := Recover2Request(reg.version, Start(cr.suite, accessKey, blinding));
            (forall r :: r in c.realms && r !in good ==> env.answer2(r, request).Err?) ==>
              exists r :: r in good && good[r].state2.Registered? && g == LeftAfter(good[r].state2)
  {
    hide Phase1, Phase2, Phase3, IsCrypto, CollisionFree, WellFormed, Unforgeable, HashPin, Interrupted1, Interrupted2,
         Interrupted3, Panics1, Phase1Results, Phase2Results, Start, LeftAfter;
    forall r | r in good.Keys ensures Recover1OnRealm(env, r) == Ok((reg.version, r)) {
      assert r in RealmsOf(c) && Serves(cr, c, reg, env, r, good[r]);
      HonestPhase1(cr, c, reg, env, r, good[r]);
    }
    assert |good.Keys| == |good|;
    Phase1Finds(c, env, reg.version, good.Keys);
    Phase1Realms(c, env);
    QuorumSize(c, env);
    var realms := Phase1(c, env).value.1;
    g := WrongPinPhase2(cr, c, reg, env, good, realms, pin, info, blinding);
    var accessKey := HashPin(cr, c.pinHashingMode, pin, reg.version, info).0;
    var request := Recover2Request(reg.version, Start(cr.suite, accessKey, blinding));
    Interrupted1Iff(c, env);
    Interrupted2Iff(cr, c, env, realms, request);
    assert !Panics2(env, realms, request);
  }

  // ---- no consensus ----

  /** The realms that back this commitment and verifying key with an accepted evaluation. */
  ghost function Backing2<P>(cr: Crypto<P>, c: Configuration, env: Environment<P>, realms: seq<Realm>,
                             request: Recover2Request<P>, key: Consensus): set<Realm> {
    set r | r in realms && Recover2OnRealm(cr, c, env, r, request).Ok? &&
            Recover2OnRealm(cr, c, env, r, request).value.0 == key
  }

  lemma NoQuorum2<P>(cr: Crypto<P>, c: Configuration, env: Environment<P>, realms: seq<Realm>,
                     request: Recover2Request<P>)
    requires IsEnvironment(env) && Unique(realms)
    requires forall key :: |Backing2(cr, c, env, realms, request, key)| < c.recoverThreshold
    ensures Quorum(Oks(Phase2Results(cr, c, env, realms, request)), c.recoverThreshold) == None
  {
    hide Phase2Results, Recover2OnRealm;
    var order, f := env.order2(realms), Asked2(cr, c, env, request);
    var oks := Oks(Phase2Results(cr, c, env, realms, request));
    Phase2Is(cr, c, env, realms, request);
    forall key ensures |ValuesFor(oks, key)| < c.recoverThreshold {
      var pick := Pick(f, Itself(), key);
      GroupOf(order, f, Itself(), key);
      GatherCount(order, pick);
      SubsetCount(Picked(order, pick), Backing2(cr, c, env, realms, request, key));
    }
  }

  /** Enough evaluations are accepted in phase 2, but no commitment and key reach the threshold. */
  lemma NoConsensus2<P>(cr: Crypto<P>, c: Configuration, env: Environment<P>, pin: Bytes, info: UserInfo, blinding: int)
    requires Acceptable(c) && IsEnvironment(env) && Phase1(c, env).Ok? && !Interrupted1(c, env)
    requires var (version, realms) := Phase1(c, env).value;
             var request := Recover2Request(version,
                                            Start(cr.suite, HashPin(cr, c.pinHashingMode, pin, version, info).0,
                                                  blinding));
             !Interrupted2(cr, c, env, realms, request) &&
             |Oks(Phase2Results(cr, c, env, realms, request))| >= c.recoverThreshold &&
             forall key :: |Backing2(cr, c, env, realms, request, key)| < c.recoverThreshold
    ensures Recover(cr, c, env, pin, info, blinding) == Failed(RecoverAssertion)
  {
    hide Acceptable, Phase1, Phase3, Phase2Results, Interrupted1, Interrupted2, Interrupted3, HashPin, Start, Backing2;
    SizeBound(c);
    QuorumSize(c, env);
    Phase1Realms(c, env);
    var (version, realms) := Phase1(c, env).value;
    var request := Recover2Request(version,
                                   Start(cr.suite, HashPin(cr, c.pinHashingMode, pin, version, info).0, blinding));
    NoQuorum2(cr, c, env, realms, request);
    assert Reorders(env.order2, realms);
  }

  /** The realms that back this ciphertext with a verified share. */
  ghost function Backing3<P>(cr: Crypto<P>, c: Configuration, env: Environment<P>, realms: seq<Realm>, version: Version,
                             unlockKey: Bytes, encryptedSecret: Bytes): set<Realm> {
    set r | r in realms && Pick(Asked3(cr, c, env, version, unlockKey), Checking(cr, unlockKey),
                                encryptedSecret)(r).Some?
  }

  /** Enough answers arrive in phase 3, but no ciphertext has a threshold of verified shares. */
  lemma NoConsensus3<P>(cr: Crypto<P>, c: Configuration, env: Environment<P>, seed: Bytes, version: Version,
                        realms: seq<Realm>, unlockKey: Bytes)
    requires IsEnvironment(env) && Unique(realms) && 0 < c.recoverThreshold <= |realms|
    requires |Oks(Phase3Results(cr, c, env, realms, version, unlockKey))| >= c.recoverThreshold
    requires forall key :: |Backing3(cr, c, env, realms, version, unlockKey, key)| < c.recoverThreshold
    ensures Phase3(cr, c, env, seed, version, realms, unlockKey) == Failed(RecoverAssertion)
  {
    hide Phase3Results, Recover3OnRealm, Verified, Pick;
    var order, f := env.order3(realms), Asked3(cr, c, env, version, unlockKey);
    var oks := Oks(Phase3Results(cr, c, env, realms, version, unlockKey));
    Phase3Is(cr, c, env, realms, version, unlockKey);
    forall key ensures |ValuesFor(Gather(oks, Checking(cr, unlockKey)), key)| < c.recoverThreshold {
      var pick := Pick(f, Checking(cr, unlockKey), key);
      GroupOf(order, f, Checking(cr, unlockKey), key);
      GatherCount(order, pick);
      SubsetCount(Picked(order, pick), Backing3(cr, c, env, realms, version, unlockKey, key));
    }
    GatherGather(oks, (item: Phase3Item) => Some(item), Checking(cr, unlockKey),
                 (item: Phase3Item) => Verified(cr, unlockKey, item));
    GatherAll(oks, (item: Phase3Item) => Some(item));
    assert Reorders(env.order3, realms);
  }

  // ---- errors on which all realms agree ----

  /** What an answer to phase 1 means if every realm gives it. */
  ghost predicate Means1<P>(answer: Answer<P>, e: RecoverError) {
    || (answer == Ok(Recover1Response(Recover1NotRegistered)) && e == RecoverNotRegistered)
    || (answer == Ok(Recover1Response(Recover1NoGuesses)) && e == InvalidPin(0))
    || (answer.Ok? && !answer.value.Recover1Response? && e == RecoverAssertion)
    || MeansError(answer, e)
  }

  ghost predicate Means2<P>(answer: Answer<P>, e: RecoverError) {
    || (answer == Ok(Recover2Response(Recover2NotRegistered)) && e == RecoverNotRegistered)
    || (answer == Ok(Recover2Response(Recover2NoGuesses)) && e == InvalidPin(0))
    || (answer == Ok(Recover2Response(Recover2VersionMismatch)) && e == RecoverAssertion)
    || (answer.Ok? && !answer.value.Recover2Response? && e == RecoverAssertion)
    || MeansError(answer, e)
  }

  ghost predicate Means3<P>(answer: Answer<P>, e: RecoverError) {
    || (answer == Ok(Recover3Response(Recover3NotRegistered)) && e == RecoverNotRegistered)
    || (answer == Ok(Recover3Response(Recover3NoGuesses)) && e == InvalidPin(0))
    || (answer == Ok(Recover3Response(Recover3VersionMismatch)) && e == RecoverAssertion)
    || (exists g: U16 :: answer == Ok(Recover3Response(BadUnlockKeyTag(g))) && e == InvalidPin(g))
    || (answer.Ok? && !answer.value.Recover3Response? && e == RecoverAssertion)
    || MeansError(answer, e)
  }

  /** Errors of the request engine keep their kind. */
  ghost predicate MeansError<P>(answer: Answer<P>, e: RecoverError) {
    || (answer == Err(Refused(InvalidAuth)) && e == RecoverInvalidAuth)
    || (answer == Err(Refused(UpgradeRequired)) && e == RecoverUpgradeRequired)
    || (answer == Err(Refused(RateLimitExceeded)) && e == RecoverRateLimitExceeded)
    || (answer == Err(Refused(Transient)) && e == RecoverTransient)
    || (answer == Err(Refused(Assertion)) && e == RecoverAssertion)
  }

  /** The errors in the order in which a join prefers them. */
  lemma Preference(g: U16, h: U16)
    ensures RecoverRank(InvalidPin(g)) <= RecoverRank(InvalidPin(h)) <==> g <= h
    ensures RecoverRank(InvalidPin(g)) < RecoverRank(RecoverNotRegistered) < RecoverRank(RecoverInvalidAuth)
    ensures RecoverRank(RecoverInvalidAuth) < RecoverRank(RecoverUpgradeRequired)
    ensures RecoverRank(RecoverUpgradeRequired) < RecoverRank(RecoverRateLimitExceeded)
    ensures RecoverRank(RecoverRateLimitExceeded) < RecoverRank(RecoverAssertion) < RecoverRank(RecoverTransient)
  {
  }

  /** All realms give the same answer in phase 1. */
  lemma AllSay1<P>(cr: Crypto<P>, c: Configuration, env: Environment<P>, answer: Answer<P>, e: RecoverError,
                   pin: Bytes, info: UserInfo, blinding: int)
    requires Acceptable(c) && IsEnvironment(env) && Means1(answer, e)
    requires forall r :: r in c.realms ==> env.answer1(r) == answer
    ensures Recover(cr, c, env, pin, info, blinding) == Failed(e)
  {
    hide Acceptable, Phase2, Phase3, Interrupted2, Interrupted3;
    SizeBound(c);
    assert Reorders(env.order1, c.realms);
    SameMembers(env.order1(c.realms), c.realms);
    var order, results := env.order1(c.realms), Phase1Results(c, env);
    forall i | 0 <= i < |results| ensures results[i] == Err(e) && !Panics(env.answer1(order[i])) {
      assert order[i] in c.realms && env.answer1(order[i]) == answer;
    }
    JoinedFails(results, c.recoverThreshold, RecoverRank, e);
  }

  /** All realms of phase 1 give the same answer in phase 2. */
  lemma AllSay2<P>(cr: Crypto<P>, c: Configuration, env: Environment<P>, answer: Answer<P>, e: RecoverError,
                   pin: Bytes, info: UserInfo, blinding: int)
    requires Acceptable(c) && IsEnvironment(env) && Means2(answer, e) && Phase1(c, env).Ok? && !Interrupted1(c, env)
    requires forall r, request :: r in Phase1(c, env).value.1 ==> env.answer2(r, request) == answer
    ensures Recover(cr, c, env, pin, info, blinding) == Failed(e)
  {
    hide Acceptable, Phase1, Phase3, Interrupted1, Interrupted3, HashPin, Start;
    SizeBound(c);
    QuorumSize(c, env);
    var (version, realms) := Phase1(c, env).value;
    var request := Recover2Request(version,
                                   Start(cr.suite, HashPin(cr, c.pinHashingMode, pin, version, info).0, blinding));
    assert Reorders(env.order2, realms);
    SameMembers(env.order2(realms), realms);
    var order, results := env.order2(realms), Phase2Results(cr, c, env, realms, request);
    forall i | 0 <= i < |results| ensures results[i] == Err(e) && !Panics(env.answer2(order[i], request)) {
      assert order[i] in realms && env.answer2(order[i], request) == answer;
    }
    JoinedFails(results, c.recoverThreshold, RecoverRank, e);
  }

  /** All realms of phase 1 give the same answer in phase 3. */
  lemma AllSay3<P>(cr: Crypto<P>, c: Configuration, env: Environment<P>, answer: Answer<P>, e: RecoverError,
                   seed: Bytes, version: Version, realms: seq<Realm>, unlockKey: Bytes)
    requires Acceptable(c) && IsEnvironment(env) && Means3(answer, e) && c.recoverThreshold <= |realms|
    requires forall r, request :: r in realms ==> env.answer3(r, request) == answer
    ensures !Interrupted3(cr, c, env, realms, version, unlockKey)
    ensures Phase3(cr, c, env, seed, version, realms, unlockKey) == Failed(e)
  {
    hide Acceptable, TagFor;
    SizeBound(c);
    assert Reorders(env.order3, realms);
    SameMembers(env.order3(realms), realms);
    var order, results := env.order3(realms), Phase3Results(cr, c, env, realms, version, unlockKey);
    forall i | 0 <= i < |results|
      ensures results[i] == Err(e)
      ensures !Panics(env.answer3(order[i], Recover3Request(version, TagFor(cr, unlockKey, order[i].id))))
    {
      assert order[i] in realms;
      assert env.answer3(order[i], Recover3Request(version, TagFor(cr, unlockKey, order[i].id))) == answer;
    }
    JoinedFails(results, c.recoverThreshold, RecoverRank, e);
  }
}
