/** Robustness and safety of recovery, and its safety over every run of the system. */
module Promises {
  import opened Wrappers
  import opened Encoding
  import opened Fields
  import opened Shamir
  import opened Shuffles
  import opened Oprf
  import opened Configurations
  import opened Requests
  import opened Join
  import opened Gathering
  import opened Registrations
  import opened Recovery
  import opened Authenticity
  import opened Guarantees
  import opened Realms
  import opened Worlds

  // ---- honest answers, as the client reads them ----

  ghost predicate HasGuessLeft(state: RealmState) {
    state.Registered? && state.attempted < state.registration.numGuesses
  }

  lemma HonestPhase1<P(!new)>(cr: Crypto<P>, c: Configuration, reg: Registration, env: Environment<P>, realm: Realm,
                              seen: Sighting)
    requires Acceptable(c) && realm in c.realms && AnswersFrom(cr, env, realm, seen)
    requires Holds(cr, c, reg, realm, seen.state1) && HasGuessLeft(seen.state1)
    ensures Recover1OnRealm(env, realm) == Ok((reg.version, realm))
  {
    hide CommitmentOf, TagFor, SecretCommitment, EncryptedSecret, KeyShare, ScalarShare, SignPublicKey;
  }

  /** An honest realm's answer passes every check of phase 2. */
  lemma HonestPhase2<P(!new)>(cr: Crypto<P>, c: Configuration, reg: Registration, env: Environment<P>, realm: Realm,
                              seen: Sighting, request: Recover2Request<P>)
    requires IsCrypto(cr) && Acceptable(c) && realm in c.realms && AnswersFrom(cr, env, realm, seen)
    requires Holds(cr, c, reg, realm, seen.state2) && HasGuessLeft(seen.state2) && request.version == reg.version
    ensures Recover2OnRealm(cr, c, env, realm, request).Ok?
    ensures Recover2OnRealm(cr, c, env, realm, request).value.0 ==
            (CommitmentOf(cr, OprfResult(cr, c, reg)), cr.verifyingKey(reg.signingKey))
  {
    hide CommitmentOf, TagFor, SecretCommitment, EncryptedSecret, KeyShare, ScalarShare, GenerateProof, VerifyProof,
         OprfResult;
    assert Replies2(cr, env, realm, seen, request);
    var i := RealmIndex(c, realm);
    var key := KeyShare(cr, reg, i).secret;
    var publicKey := ToPublicKey(cr.suite, key);
    SuiteOf(cr);
    Point(cr.suite, cr.suite.points.scale(cr.suite.base, key));
    assert SignatureLaw(cr, reg.signingKey, SignatureMessage(realm.id, publicKey));
    ProofComplete(cr.suite, seen.betaT, key, request.oprfBlindedInput);
    ShareIndices(c, i);
  }

  /** An honest realm's answer passes every check of phase 3. */
  lemma HonestPhase3<P(!new)>(cr: Crypto<P>, c: Configuration, reg: Registration, env: Environment<P>, realm: Realm,
                              seen: Sighting)
    requires IsCrypto(cr) && Acceptable(c) && WellFormed(cr, c, reg) && realm in c.realms &&
             AnswersFrom(cr, env, realm, seen)
    requires Holds(cr, c, reg, realm, seen.state3)
    ensures var unlockKey := UnlockKey(cr, c, reg);
            Pick(Asked3(cr, c, env, reg.version, unlockKey), Checking(cr, unlockKey),
                 EncryptedSecret(cr, c, reg))(realm).Some?
  {
    hide CommitmentOf, EncryptedSecret, KeyShare, SignPublicKey, OprfResult, UnlockKey, WellFormed, IsCrypto;
    var unlockKey := UnlockKey(cr, c, reg);
    var request := Recover3Request(reg.version, TagFor(cr, unlockKey, realm.id));
    assert Replies3(env, realm, seen, request);
    var i := RealmIndex(c, realm);
    ShareValues(cr, c, reg, i);
    EncryptedSecretSize(cr, c, reg);
    ShareIndices(c, i);
  }

  /** The unchecked subtraction of the counters is exact for the answers of honest realms. */
  lemma HonestRemaining<P>(cr: Crypto<P>, state: RealmState, request: Recover2Request<P>, betaT: int)
    requires Recover2Reply(cr.suite, state, request, betaT).Recover2Ok?
    ensures var reply := Recover2Reply(cr.suite, state, request, betaT);
            GuessesRemaining(reply.numGuesses, reply.guessCount) == reply.numGuesses - reply.guessCount &&
            reply.numGuesses - reply.guessCount ==
            AfterRecover2(state, request).registration.numGuesses - AfterRecover2(state, request).attempted >= 0
  {
  }

  // ---- robustness ----

  /** The realm holds this registration when asked, with a guess left when that matters. */
  ghost predicate Serves<P(!new)>(cr: Crypto<P>, c: Configuration, reg: Registration, env: Environment<P>,
                                  realm: Realm, seen: Sighting)
    requires Acceptable(c) && realm in c.realms
  {
    && AnswersFrom(cr, env, realm, seen)
    && Holds(cr, c, reg, realm, seen.state1) && HasGuessLeft(seen.state1)
    && Holds(cr, c, reg, realm, seen.state2) && HasGuessLeft(seen.state2)
    && Holds(cr, c, reg, realm, seen.state3)
  }

  ghost predicate AllServe<P(!new)>(cr: Crypto<P>, c: Configuration, reg: Registration, env: Environment<P>,
                                    good: map<Realm, Sighting>)
    requires Acceptable(c)
  {
    good.Keys <= RealmsOf(c) && forall realm {:trigger Serves(cr, c, reg, env, realm, good[realm])} ::
      realm in good ==> Serves(cr, c, reg, env, realm, good[realm])
  }

  lemma Phase2Value<P(!new)>(cr: Crypto<P>, c: Configuration, env: Environment<P>, accessKey: Bytes, blinding: int,
                             version: Version, realms: seq<Realm>)
    requires IsEnvironment(env) && 0 < c.recoverThreshold <= |realms|
    ensures var request := Recover2Request(version, Start(cr.suite, accessKey, blinding));
            var oks := Oks(Phase2Results(cr, c, env, realms, request));
            var quorum := Quorum(oks, c.recoverThreshold);
            var phase2 := Phase2(cr, c, env, accessKey, blinding, version, realms);
            (|oks| >= c.recoverThreshold && quorum.Some? ==>
              phase2 == UnlockFrom(cr, accessKey, blinding, quorum.value)) &&
            (phase2.Ok? ==> |oks| >= c.recoverThreshold && quorum.Some?)
  {
    hide Phase2Results, UnlockFrom;
    assert Reorders(env.order2, realms);
  }

  lemma ServedIsPicked<P(!new)>(cr: Crypto<P>, c: Configuration, reg: Registration, env: Environment<P>,
                                realm: Realm, seen: Sighting, request: Recover2Request<P>)
    requires IsCrypto(cr) && Acceptable(c) && request.version == reg.version && realm in c.realms
    requires Serves(cr, c, reg, env, realm, seen)
    ensures var key := (CommitmentOf(cr, OprfResult(cr, c, reg)), cr.verifyingKey(reg.signingKey));
            Pick(Asked2(cr, c, env, request), Itself(), key)(realm).Some?
  {
    hide Recover2OnRealm, CommitmentOf, OprfResult, IsCrypto;
    HonestPhase2(cr, c, reg, env, realm, seen, request);
  }

  /** In phase 2 the quorum of a served registration is its commitment and verifying key. */
  lemma RobustQuorum<P(!new)>(cr: Crypto<P>, c: Configuration, reg: Registration, env: Environment<P>,
                              good: map<Realm, Sighting>, realms: seq<Realm>, request: Recover2Request<P>)
    requires IsCrypto(cr) && Acceptable(c) && IsEnvironment(env) && request.version == reg.version
    requires AllServe(cr, c, reg, env, good) && |good| >= c.recoverThreshold
    requires Unique(realms) && (forall r :: r in good ==> r in realms)
    requires c.recoverThreshold <= |realms| < 2 * c.recoverThreshold
    ensures var key := (CommitmentOf(cr, OprfResult(cr, c, reg)), cr.verifyingKey(reg.signingKey));
            var oks := Oks(Phase2Results(cr, c, env, realms, request));
            var group := Gather(env.order2(realms), Pick(Asked2(cr, c, env, request), Itself(), key));
            |oks| >= c.recoverThreshold && |group| >= c.recoverThreshold &&
            Quorum(oks, c.recoverThreshold) == Some((key, group))
  {
    hide Recover2OnRealm, CommitmentOf, OprfResult, IsCrypto, Phase2Results, Serves, Pick, Asked2;
    var key := (CommitmentOf(cr, OprfResult(cr, c, reg)), cr.verifyingKey(reg.signingKey));
    var order, asked := env.order2(realms), Asked2(cr, c, env, request);
    Phase2Is(cr, c, env, realms, request);
    forall r | r in good.Keys ensures r in order && Pick(asked, Itself(), key)(r).Some? {
      assert r in RealmsOf(c) && Serves(cr, c, reg, env, r, good[r]);
      ServedIsPicked(cr, c, reg, env, r, good[r], request);
    }
    assert |good.Keys| == |good|;
    GoodQuorum(order, asked, Itself(), key, good.Keys, c.recoverThreshold);
  }

  lemma UnlockGenuine<P>(cr: Crypto<P>, accessKey: Bytes, blinding: int, found: (Consensus, seq<(Share<P>, U16)>), w: P)
    requires found.1 != []
    requires RecoverSecret(cr.suite.field, cr.suite.points, Map(found.1, ShareOf)) == Ok(w)
    ensures var oprfResult := Finalize(cr.suite, accessKey, blinding, w);
            UnlockFrom(cr, accessKey, blinding, found) ==
              if CommitmentOf(cr, oprfResult) == found.0.0 then Ok(UnlockKeyOf(cr, oprfResult))
              else Err(InvalidPin(Min(found.1, GuessesOf).1))
  {
  }

  lemma RobustPhase2<P(!new)>(cr: Crypto<P>, c: Configuration, reg: Registration, env: Environment<P>,
                              good: map<Realm, Sighting>, realms: seq<Realm>, blinding: int)
    requires IsCrypto(cr) && Acceptable(c) && WellFormed(cr, c, reg) && IsEnvironment(env)
    requires Unforgeable(cr, c, reg, env) && !Same(cr.suite.field, blinding, 0)
    requires AllServe(cr, c, reg, env, good) && |good| >= c.recoverThreshold
    requires Unique(realms) && (forall r :: r in realms ==> r in c.realms) && (forall r :: r in good ==> r in realms)
    requires c.recoverThreshold <= |realms| < 2 * c.recoverThreshold
    ensures var accessKey := HashPin(cr, c.pinHashingMode, reg.pin, reg.version, reg.info).0;
            Phase2(cr, c, env, accessKey, blinding, reg.version, realms) == Ok(UnlockKey(cr, c, reg)) &&
            |Oks(Phase2Results(cr, c, env, realms,
                               Recover2Request(reg.version, Start(cr.suite, accessKey, blinding))))| >=
            c.recoverThreshold
  {
    hide Recover2OnRealm, CommitmentOf, RecoverSecret, IsCrypto, WellFormed, Unforgeable, Finalize, UnobliviousEvaluate,
      UnlockFrom, Phase2, Phase2Results, AllServe, Map, Start;
    var accessKey := HashPin(cr, c.pinHashingMode, reg.pin, reg.version, reg.info).0;
    var request := Recover2Request(reg.version, Start(cr.suite, accessKey, blinding));
    var key := (CommitmentOf(cr, OprfResult(cr, c, reg)), cr.verifyingKey(reg.signingKey));
    var order := env.order2(realms);
    var group := Gather(order, Pick(Asked2(cr, c, env, request), Itself(), key));
    Phase2Is(cr, c, env, realms, request);
    RobustQuorum(cr, c, reg, env, good, realms, request);
    GroupRecovers(cr, c, reg, env, order, request, key);
    SuiteOf(cr);
    FinalizeGenuine(cr.suite, accessKey, blinding, reg.rootKey);
    UnlockGenuine(cr, accessKey, blinding, (key, group),
                  BlindEvaluate(cr.suite, reg.rootKey, request.oprfBlindedInput));
    Phase2Value(cr, c, env, accessKey, blinding, reg.version, realms);
  }

  lemma FinalizeGenuine<P(!new)>(s: Suite<P>, input: Bytes, blinding: int, key: int)
    requires IsSuite(s) && !Same(s.field, blinding, 0)
    ensures Finalize(s, input, blinding, BlindEvaluate(s, key, Start(s, input, blinding))) ==
            UnobliviousEvaluate(s, key, input)
  {
    UnblindCorrect(s, input, key, blinding);
  }

  lemma RobustPhase3<P(!new)>(cr: Crypto<P>, c: Configuration, reg: Registration, env: Environment<P>,
                              good: map<Realm, Sighting>, realms: seq<Realm>)
    requires IsCrypto(cr) && Acceptable(c) && WellFormed(cr, c, reg) && IsEnvironment(env)
    requires Unforgeable(cr, c, reg, env)
    requires AllServe(cr, c, reg, env, good) && |good| >= c.recoverThreshold
    requires Unique(realms) && (forall r :: r in realms ==> r in c.realms) && (forall r :: r in good ==> r in realms)
    requires c.recoverThreshold <= |realms| < 2 * c.recoverThreshold
    ensures var seed := HashPin(cr, c.pinHashingMode, reg.pin, reg.version, reg.info).1;
            Phase3(cr, c, env, seed, reg.version, realms, UnlockKey(cr, c, reg)) == Recovered(reg.secret) &&
            |Oks(Phase3Results(cr, c, env, realms, reg.version, UnlockKey(cr, c, reg)))| >= c.recoverThreshold
  {
    hide Recover3OnRealm, UnlockKey, EncryptedSecret, IsCrypto, WellFormed, Unforgeable, DecryptFrom, Verified;
    var unlockKey, key := UnlockKey(cr, c, reg), EncryptedSecret(cr, c, reg);
    var order := env.order3(realms);
    var asked, checking := Asked3(cr, c, env, reg.version, unlockKey), Checking(cr, unlockKey);
    Phase3Is(cr, c, env, realms, reg.version, unlockKey);
    forall r | r in good.Keys ensures r in order && Pick(asked, checking, key)(r).Some? {
      assert r in RealmsOf(c) && Serves(cr, c, reg, env, r, good[r]);
      HonestPhase3(cr, c, reg, env, r, good[r]);
    }
    GoodQuorum(order, asked, checking, key, good.Keys, c.recoverThreshold);
    GroupDecrypts(cr, c, reg, env, order, reg.version, key);
  }

  ghost predicate Panics1<P>(env: Environment<P>, realms: seq<Realm>) {
    exists r :: r in realms && Panics(env.answer1(r))
  }

  ghost predicate Panics2<P>(env: Environment<P>, realms: seq<Realm>, request: Recover2Request<P>) {
    exists r :: r in realms && Panics(env.answer2(r, request))
  }

  ghost predicate Panics3<P>(cr: Crypto<P>, env: Environment<P>, realms: seq<Realm>, version: Version,
                             unlockKey: Bytes) {
    exists r :: r in realms && Panics(env.answer3(r, Recover3Request(version, TagFor(cr, unlockKey, r.id))))
  }

  lemma Interrupted1Iff<P>(c: Configuration, env: Environment<P>)
    requires Acceptable(c) && IsEnvironment(env) && |Oks(Phase1Results(c, env))| >= c.recoverThreshold
    ensures Interrupted1(c, env) <==> Panics1(env, c.realms)
  {
    hide Recover1OnRealm, Oks, Errs, Interrupted;
    assert Reorders(env.order1, c.realms);
    InterruptedBy(env.order1, c.realms, (realm: Realm) => Recover1OnRealm(env, realm),
                  (realm: Realm) => Panics(env.answer1(realm)), c.recoverThreshold);
  }

  lemma Interrupted2Iff<P>(cr: Crypto<P>, c: Configuration, env: Environment<P>, realms: seq<Realm>,
                           request: Recover2Request<P>)
    requires IsEnvironment(env) && |Oks(Phase2Results(cr, c, env, realms, request))| >= c.recoverThreshold
    ensures Interrupted2(cr, c, env, realms, request) <==> Panics2(env, realms, request)
  {
    hide Recover2OnRealm, Oks, Errs, Interrupted;
    assert Reorders(env.order2, realms);
    InterruptedBy(env.order2, realms, (realm: Realm) => Recover2OnRealm(cr, c, env, realm, request),
                  (realm: Realm) => Panics(env.answer2(realm, request)), c.recoverThreshold);
  }

  lemma Interrupted3Iff<P>(cr: Crypto<P>, c: Configuration, env: Environment<P>, realms: seq<Realm>,
                           version: Version, unlockKey: Bytes)
    requires IsEnvironment(env) && |Oks(Phase3Results(cr, c, env, realms, version, unlockKey))| >= c.recoverThreshold
    ensures Interrupted3(cr, c, env, realms, version, unlockKey) <==> Panics3(cr, env, realms, version, unlockKey)
  {
    hide Recover3OnRealm, Oks, Errs, Interrupted, TagFor;
    assert Reorders(env.order3, realms);
    InterruptedBy(env.order3, realms,
                  (realm: Realm) => Recover3OnRealm(cr, c, env, realm,
                                                    Recover3Request(version, TagFor(cr, unlockKey, realm.id))),
                  (realm: Realm) => Panics(env.answer3(realm,
                                                       Recover3Request(version, TagFor(cr, unlockKey, realm.id)))),
                  c.recoverThreshold);
  }

  /** One of the requests that a recovery with the registered PIN makes panics. */
  ghost predicate AnyPanics<P>(cr: Crypto<P>, c: Configuration, env: Environment<P>, reg: Registration, blinding: int)
    requires Acceptable(c) && IsEnvironment(env)
  {
    || Panics1(env, c.realms)
    || (Phase1(c, env).Ok? &&
        var realms := Phase1(c, env).value.1;
        var accessKey := HashPin(cr, c.pinHashingMode, reg.pin, reg.version, reg.info).0;
        || Panics2(env, realms, Recover2Request(reg.version, Start(cr.suite, accessKey, blinding)))
        || Panics3(cr, env, realms, reg.version, UnlockKey(cr, c, reg)))
  }

  /**
   Robust recovery: if at least a threshold of realms serve the registration, the registered
   PIN and info recover exactly the registered secret, whatever the other realms answer and in
   whatever order answers arrive, if and only if none of the answers makes the client panic.
   */
  lemma RobustRecovery<P(!new)>(cr: Crypto<P>, c: Configuration, reg: Registration, env: Environment<P>,
                                good: map<Realm, Sighting>, blinding: int)
    requires IsCrypto(cr) && Acceptable(c) && WellFormed(cr, c, reg) && IsEnvironment(env)
    requires Unforgeable(cr, c, reg, env) && !Same(cr.suite.field, blinding, 0)
    requires AllServe(cr, c, reg, env, good) && |good| >= c.recoverThreshold
    ensures Recover(cr, c, env, reg.pin, reg.info, blinding) ==
            if AnyPanics(cr, c, env, reg, blinding) then Panicked else Recovered(reg.secret)
  {
    hide Phase1, Phase2, Phase3, IsCrypto, WellFormed, Unforgeable, UnlockKey, HashPin, Interrupted1, Interrupted2,
         Interrupted3, Panics1, Panics2, Panics3, Phase1Results, Phase2Results, Phase3Results, Start;
    forall r | r in good.Keys ensures Recover1OnRealm(env, r) == Ok((reg.version, r)) {
      assert r in RealmsOf(c) && Serves(cr, c, reg, env, r, good[r]);
      HonestPhase1(cr, c, reg, env, r, good[r]);
    }
    assert |good.Keys| == |good|;
    Phase1Finds(c, env, reg.version, good.Keys);
    Phase1Realms(c, env);
    QuorumSize(c, env);
    var realms := Phase1(c, env).value.1;
    RobustPhase2(cr, c, reg, env, good, realms, blinding);
    RobustPhase3(cr, c, reg, env, good, realms);
    var accessKey := HashPin(cr, c.pinHashingMode, reg.pin, reg.version, reg.info).0;
    Interrupted1Iff(c, env);
    Interrupted2Iff(cr, c, env, realms, Recover2Request(reg.version, Start(cr.suite, accessKey, blinding)));
    Interrupted3Iff(cr, c, env, realms, reg.version, UnlockKey(cr, c, reg));
  }

  /** A single lying realm can keep everyone from recovering, by an answer on which the client panics. */
  lemma OneAnswerPanics<P(!new)>(cr: Crypto<P>, c: Configuration, reg: Registration, env: Environment<P>,
                                 good: map<Realm, Sighting>, blinding: int, liar: Realm)
    requires IsCrypto(cr) && Acceptable(c) && WellFormed(cr, c, reg) && IsEnvironment(env)
    requires Unforgeable(cr, c, reg, env) && !Same(cr.suite.field, blinding, 0)
    requires AllServe(cr, c, reg, env, good) && |good| >= c.recoverThreshold
    requires liar in c.realms && env.answer1(liar) == Err(ClientPanicked)
    ensures Recover(cr, c, env, reg.pin, reg.info, blinding) == Panicked
  {
    hide IsCrypto, Acceptable, WellFormed, IsEnvironment, Unforgeable, AllServe, Recover;
    RobustRecovery(cr, c, reg, env, good, blinding);
    assert Panics(env.answer1(liar));
  }

  // ---- safety ----

  /**
   What phase 2 got from the realm, if anything, is the reply of a state that comes from the
   registrations. Its answers in the other phases, and answers that got lost, do not matter.
   */
  ghost predicate Honest<P(!new)>(cr: Crypto<P>, c: Configuration, regs: set<Registration>, env: Environment<P>,
                                  realm: Realm, served: Service)
    requires Acceptable(c)
  {
    && realm in c.realms && FromRegistrations(cr, c, regs, realm, served.state)
    && forall request :: HeardFrom(cr, env, realm, served, request)
  }

  /** Fewer than a threshold of the realms are outside the honest ones. */
  ghost predicate MostlyHonest<P(!new)>(cr: Crypto<P>, c: Configuration, regs: set<Registration>, env: Environment<P>,
                                        served: map<Realm, Service>)
    requires Acceptable(c)
  {
    && served.Keys <= RealmsOf(c)
    && |c.realms| < |served| + c.recoverThreshold
    && (forall realm {:trigger Honest(cr, c, regs, env, realm, served[realm])} ::
          realm in served ==> Honest(cr, c, regs, env, realm, served[realm]))
  }

  ghost predicate AllUnforgeable<P(!new)>(cr: Crypto<P>, c: Configuration, regs: set<Registration>, env: Environment<P>)
    requires |c.realms| < U32_LIMIT
  {
    forall reg :: reg in regs ==> WellFormed(cr, c, reg) && Unforgeable(cr, c, reg, env)
  }

  /** What an honest realm reveals about the registration it holds. */
  lemma HonestKey<P>(cr: Crypto<P>, c: Configuration, reg: Registration, env: Environment<P>, realm: Realm,
                           served: Service, request: Recover2Request<P>)
    requires Acceptable(c) && realm in c.realms && HeardFrom(cr, env, realm, served, request)
    requires served.state.Registered? ==> Holds(cr, c, reg, realm, served.state)
    requires Recover2OnRealm(cr, c, env, realm, request).Ok?
    ensures served.state.Registered?
    ensures Recover2OnRealm(cr, c, env, realm, request).value.0 ==
            (CommitmentOf(cr, OprfResult(cr, c, reg)), cr.verifyingKey(reg.signingKey))
  {
    hide CommitmentOf, TagFor, SecretCommitment, EncryptedSecret, KeyShare, ScalarShare, GenerateProof, VerifyProof,
         OprfResult, VerifySigned;
  }

  /** The quorum of phase 2 belongs to one of the registrations. */
  lemma QuorumRegistration<P(!new)>(cr: Crypto<P>, c: Configuration, regs: set<Registration>, env: Environment<P>,
                                    served: map<Realm, Service>, realms: seq<Realm>, request: Recover2Request<P>,
                                    key: Consensus)
    returns (reg: Registration)
    requires Acceptable(c) && IsEnvironment(env) && MostlyHonest(cr, c, regs, env, served)
    requires Unique(realms) && (forall r :: r in realms ==> r in c.realms)
    requires |Gather(realms, Pick(Asked2(cr, c, env, request), Itself(), key))| >= c.recoverThreshold
    ensures reg in regs
    ensures key == (CommitmentOf(cr, OprfResult(cr, c, reg)), cr.verifyingKey(reg.signingKey))
  {
    hide Recover2OnRealm, CommitmentOf, OprfResult, Holds;
    var pick := Pick(Asked2(cr, c, env, request), Itself(), key);
    assert (set x | x in c.realms) == RealmsOf(c);
    assert |served.Keys| == |served|;
    OtherRealms(c, served.Keys);
    var realm := GatherHonest(realms, pick, c.realms, served.Keys);
    assert Honest(cr, c, regs, env, realm, served[realm]) && HeardFrom(cr, env, realm, served[realm], request);
    if served[realm].state.Registered? {
      reg :| reg in regs && Holds(cr, c, reg, realm, served[realm].state);
      HonestKey(cr, c, reg, env, realm, served[realm], request);
    } else {
      Unregistered(cr, c, env, realm, served[realm], request);
      assert false;
    }
  }

  lemma Unregistered<P>(cr: Crypto<P>, c: Configuration, env: Environment<P>, realm: Realm, served: Service,
                        request: Recover2Request<P>)
    requires Acceptable(c) && realm in c.realms && HeardFrom(cr, env, realm, served, request) &&
             !served.state.Registered?
    ensures Recover2OnRealm(cr, c, env, realm, request).Err?
  {
  }

  /** A matching commitment means that PIN, version and info are those of the registration. */
  lemma CommitmentMatches<P(!new)>(cr: Crypto<P>, c: Configuration, reg: Registration, pin: Bytes, version: Version,
                                   info: UserInfo, result: P)
    requires IsCrypto(cr) && CollisionFree(cr)
    requires var accessKey := HashPin(cr, c.pinHashingMode, pin, version, info).0;
             CommitmentOf(cr, HashToOutput(cr.suite, accessKey, result)) == CommitmentOf(cr, OprfResult(cr, c, reg))
    ensures pin == reg.pin && version == reg.version && info == reg.info
    ensures var accessKey := HashPin(cr, c.pinHashingMode, pin, version, info).0;
            HashToOutput(cr.suite, accessKey, result) == OprfResult(cr, c, reg)
  {
    var accessKey := HashPin(cr, c.pinHashingMode, pin, version, info).0;
    var ours := HashPin(cr, c.pinHashingMode, reg.pin, reg.version, reg.info).0;
    OutputsApart(cr.suite, accessKey, result, ours, cr.suite.points.scale(cr.suite.hashToPoint(ours), reg.rootKey));
    SaltsApart(version, info, reg.version, reg.info);
  }

  lemma SafePhase2<P(!new)>(cr: Crypto<P>, c: Configuration, regs: set<Registration>, env: Environment<P>,
                            served: map<Realm, Service>, realms: seq<Realm>, pin: Bytes, version: Version,
                            info: UserInfo, blinding: int)
    returns (reg: Registration)
    requires IsCrypto(cr) && CollisionFree(cr) && Acceptable(c) && IsEnvironment(env)
    requires MostlyHonest(cr, c, regs, env, served) && AllUnforgeable(cr, c, regs, env)
    requires Unique(realms) && (forall r :: r in realms ==> r in c.realms) && c.recoverThreshold <= |realms|
    requires Phase2(cr, c, env, HashPin(cr, c.pinHashingMode, pin, version, info).0, blinding, version, realms).Ok?
    ensures reg in regs && pin == reg.pin && version == reg.version && info == reg.info
    ensures Phase2(cr, c, env, HashPin(cr, c.pinHashingMode, pin, version, info).0, blinding, version, realms) ==
            Ok(UnlockKey(cr, c, reg))
    ensures CombinesGenuine(cr, c, reg, env, HashPin(cr, c.pinHashingMode, pin, version, info).0, blinding, version,
                            realms)
  {
    hide Recover2OnRealm, CommitmentOf, RecoverSecret, IsCrypto, CollisionFree, WellFormed, Unforgeable, UnlockFrom,
         Phase2, Phase2Results, Map, Start, MostlyHonest, OprfResult, HashPin, Unblind;
    var accessKey := HashPin(cr, c.pinHashingMode, pin, version, info).0;
    var request := Recover2Request(version, Start(cr.suite, accessKey, blinding));
    var oks := Oks(Phase2Results(cr, c, env, realms, request));
    Phase2Value(cr, c, env, accessKey, blinding, version, realms);
    var found := Quorum(oks, c.recoverThreshold).value;
    var order := env.order2(realms);
    Phase2Is(cr, c, env, realms, request);
    GroupOf(order, Asked2(cr, c, env, request), Itself(), found.0);
    reg := QuorumRegistration(cr, c, regs, env, served, order, request, found.0);
    GroupRecovers(cr, c, reg, env, order, request, found.0);
    var w := BlindEvaluate(cr.suite, reg.rootKey, request.oprfBlindedInput);
    UnlockGenuine(cr, accessKey, blinding, found, w);
    CommitmentMatches(cr, c, reg, pin, version, info, Unblind(cr.suite, blinding, w));
  }

  /** All the shares phase 2 recombines are the registration's. */
  ghost predicate CombinesGenuine<P(!new)>(cr: Crypto<P>, c: Configuration, reg: Registration, env: Environment<P>,
                                           accessKey: Bytes, blinding: int, version: Version, realms: seq<Realm>)
    requires |c.realms| < U32_LIMIT
  {
    var request := Recover2Request(version, Start(cr.suite, accessKey, blinding));
    var quorum := Quorum(Oks(Phase2Results(cr, c, env, realms, request)), c.recoverThreshold);
    quorum.Some? && AllGenuine(cr, c, reg, request.oprfBlindedInput, Map(quorum.value.1, ShareOf))
  }

  /** All the shares phase 3 recombines are the registration's, and so is the ciphertext. */
  ghost predicate DecryptsGenuine<P(!new)>(cr: Crypto<P>, c: Configuration, reg: Registration, env: Environment<P>,
                                           version: Version, realms: seq<Realm>)
    requires |c.realms| < U32_LIMIT
  {
    var unlockKey := UnlockKey(cr, c, reg);
    var items := Gather(Oks(Phase3Results(cr, c, env, realms, version, unlockKey)), Checking(cr, unlockKey));
    var quorum := Quorum(items, c.recoverThreshold);
    quorum.Some? && quorum.value.0 == EncryptedSecret(cr, c, reg) && AllGenuineScalars(cr, c, reg, quorum.value.1)
  }

  lemma Phase3Value<P(!new)>(cr: Crypto<P>, c: Configuration, env: Environment<P>, seed: Bytes, version: Version,
                             realms: seq<Realm>, unlockKey: Bytes)
    requires IsEnvironment(env) && 0 < c.recoverThreshold <= |realms|
    ensures var items := Gather(Oks(Phase3Results(cr, c, env, realms, version, unlockKey)), Checking(cr, unlockKey));
            var quorum := Quorum(items, c.recoverThreshold);
            var phase3 := Phase3(cr, c, env, seed, version, realms, unlockKey);
            !phase3.Failed? ==> quorum.Some? && phase3 == DecryptFrom(cr, seed, quorum.value)
  {
    hide Phase3Results, DecryptFrom, Verified;
    assert Reorders(env.order3, realms);
    var oks := Oks(Phase3Results(cr, c, env, realms, version, unlockKey));
    GatherGather(oks, (item: Phase3Item) => Some(item), Checking(cr, unlockKey),
                 (item: Phase3Item) => Verified(cr, unlockKey, item));
    GatherAll(oks, (item: Phase3Item) => Some(item));
  }

  /** With the registration's unlock key, phase 3 can only return the registered secret; it never panics. */
  lemma SafePhase3<P(!new)>(cr: Crypto<P>, c: Configuration, reg: Registration, env: Environment<P>, realms: seq<Realm>)
    requires IsCrypto(cr) && Acceptable(c) && IsEnvironment(env) && WellFormed(cr, c, reg) &&
             Unforgeable(cr, c, reg, env)
    requires Unique(realms) && (forall r :: r in realms ==> r in c.realms) && c.recoverThreshold <= |realms|
    ensures var seed := HashPin(cr, c.pinHashingMode, reg.pin, reg.version, reg.info).1;
            var outcome := Phase3(cr, c, env, seed, reg.version, realms, UnlockKey(cr, c, reg));
            !outcome.Failed? ==>
              outcome == Recovered(reg.secret) && DecryptsGenuine(cr, c, reg, env, reg.version, realms)
  {
    hide IsCrypto, WellFormed, Unforgeable, Phase3, Phase3Results, DecryptFrom, UnlockKey, HashPin, EncryptedSecret,
         Verified, Recover3OnRealm;
    var seed, unlockKey := HashPin(cr, c.pinHashingMode, reg.pin, reg.version, reg.info).1, UnlockKey(cr, c, reg);
    Phase3Value(cr, c, env, seed, reg.version, realms, unlockKey);
    if !Phase3(cr, c, env, seed, reg.version, realms, unlockKey).Failed? {
      var order := env.order3(realms);
      var items := Gather(Oks(Phase3Results(cr, c, env, realms, reg.version, unlockKey)), Checking(cr, unlockKey));
      var found := Quorum(items, c.recoverThreshold).value;
      Phase3Is(cr, c, env, realms, reg.version, unlockKey);
      GroupOf(order, Asked3(cr, c, env, reg.version, unlockKey), Checking(cr, unlockKey), found.0);
      GroupDecrypts(cr, c, reg, env, order, reg.version, found.0);
    }
  }

  /** Everything a recovery combined came from this registration, and the secret is its secret. */
  ghost predicate RecoveredFrom<P(!new)>(cr: Crypto<P>, c: Configuration, env: Environment<P>, pin: Bytes,
                                         info: UserInfo, blinding: int, reg: Registration, secret: UserSecret)
    requires Acceptable(c) && IsEnvironment(env)
  {
    && pin == reg.pin && info == reg.info && secret == reg.secret
    && Phase1(c, env).Ok? && Phase1(c, env).value.0 == reg.version
    && CombinesGenuine(cr, c, reg, env, HashPin(cr, c.pinHashingMode, pin, reg.version, info).0, blinding, reg.version,
                       Phase1(c, env).value.1)
    && DecryptsGenuine(cr, c, reg, env, reg.version, Phase1(c, env).value.1)
  }

  /**
   The outcome is an error, or the secret of one of the registrations, or a panic, and that only
   because a request panics.
   */
  ghost predicate Explained<P(!new)>(cr: Crypto<P>, c: Configuration, regs: set<Registration>, env: Environment<P>,
                                     pin: Bytes, info: UserInfo, blinding: int)
    requires Acceptable(c) && IsEnvironment(env)
  {
    var outcome := Recover(cr, c, env, pin, info, blinding);
    && (outcome.Panicked? <==> RequestPanics(cr, c, env, pin, info, blinding))
    && (outcome.Recovered? ==>
          exists reg {:trigger RecoveredFrom(cr, c, env, pin, info, blinding, reg, outcome.secret)} ::
            reg in regs && RecoveredFrom(cr, c, env, pin, info, blinding, reg, outcome.secret))
  }

  /**
   Safety: if fewer than a threshold of realms lie, recovery that gets past phase 2 concerns
   one registration with exactly this PIN and info, combines only its shares, and can return
   nothing but its secret. The consensus asserts, recombining and decrypting do not panic:
   recovery panics exactly if a request does.
   */
  lemma RecoverySafety<P(!new)>(cr: Crypto<P>, c: Configuration, regs: set<Registration>, env: Environment<P>,
                                served: map<Realm, Service>, pin: Bytes, info: UserInfo, blinding: int)
    requires IsCrypto(cr) && CollisionFree(cr) && Acceptable(c) && IsEnvironment(env)
    requires MostlyHonest(cr, c, regs, env, served) && AllUnforgeable(cr, c, regs, env)
    ensures Explained(cr, c, regs, env, pin, info, blinding)
  {
    hide Phase1, Phase2, Phase3, IsCrypto, CollisionFree, WellFormed, Unforgeable, UnlockKey, HashPin, MostlyHonest,
      CombinesGenuine, DecryptsGenuine, Interrupted1, Interrupted2, Interrupted3, Start;
    var outcome := Recover(cr, c, env, pin, info, blinding);
    if !outcome.Failed? && !RequestPanics(cr, c, env, pin, info, blinding) {
      Phase1Realms(c, env);
      QuorumSize(c, env);
      var (version, realms) := Phase1(c, env).value;
      var reg := SafePhase2(cr, c, regs, env, served, realms, pin, version, info, blinding);
      SafePhase3(cr, c, reg, env, realms);
      assert RecoveredFrom(cr, c, env, pin, info, blinding, reg, reg.secret);
    }
  }

  // ---- safety over runs ----

  /** The moment of a run at which an honest realm served phase 2 of one recovery. */
  datatype Moment = Moment(at: nat, betaT: int)

  ghost function ServiceAt(worlds: seq<World>, realm: Realm, moment: Moment): Service
    requires moment.at < |worlds| && realm in worlds[moment.at].states
  {
    Service(worlds[moment.at].states[realm], moment.betaT)
  }

  lemma ServedState<P>(cr: Crypto<P>, c: Configuration, worlds: seq<World>, events: seq<Event<P>>, realm: Realm, m: nat)
    requires IsRun(cr, c, worlds, events) && Initial(worlds[0]) && realm in c.realms
    requires m < |worlds| && realm in worlds[m].states
    ensures FromRegistrations(cr, c, worlds[|events|].regs, realm, worlds[m].states[realm])
  {
    hide Next, Enabled, Holds;
    InvariantHolds(cr, c, worlds, events, m);
    RegistrationsGrow(cr, c, worlds, events, m, |events|);
    assert FromRegistrations(cr, c, worlds[m].regs, realm, worlds[m].states[realm]);
  }

  /** What phase 2 got from the realm, if anything, is the reply of its state at this moment. */
  ghost predicate Observed<P(!new)>(cr: Crypto<P>, worlds: seq<World>, env: Environment<P>, realm: Realm,
                                    moment: Moment) {
    && moment.at < |worlds| && realm in worlds[moment.at].states
    && forall request :: HeardFrom(cr, env, realm, ServiceAt(worlds, realm, moment), request)
  }

  /** Fewer than a threshold of realms lie; what is heard of the others comes from their states in the run. */
  ghost predicate ObservedIn<P(!new)>(cr: Crypto<P>, c: Configuration, worlds: seq<World>, env: Environment<P>,
                                      moments: map<Realm, Moment>) {
    && moments.Keys <= RealmsOf(c) && |c.realms| < |moments| + c.recoverThreshold
    && (forall realm {:trigger Observed(cr, worlds, env, realm, moments[realm])} ::
          realm in moments ==> Observed(cr, worlds, env, realm, moments[realm]))
  }

  ghost predicate NoForgeries<P(!new)>(cr: Crypto<P>, c: Configuration, regs: set<Registration>, env: Environment<P>)
    requires |c.realms| < U32_LIMIT
  {
    forall reg :: reg in regs ==> Unforgeable(cr, c, reg, env)
  }

  lemma ObservedHonest<P(!new)>(cr: Crypto<P>, c: Configuration, worlds: seq<World>, events: seq<Event<P>>,
                                env: Environment<P>, moments: map<Realm, Moment>) returns (served: map<Realm, Service>)
    requires IsRun(cr, c, worlds, events) && Initial(worlds[0]) && ObservedIn(cr, c, worlds, env, moments)
    ensures MostlyHonest(cr, c, worlds[|events|].regs, env, served)
  {
    hide Next, Enabled, Holds, FromRegistrations, HeardFrom, Acceptable, Initial;
    RunShape(cr, c, worlds, events);
    forall realm | realm in moments
      ensures moments[realm].at < |worlds| && realm in worlds[moments[realm].at].states
      ensures Honest(cr, c, worlds[|events|].regs, env, realm, ServiceAt(worlds, realm, moments[realm]))
    {
      assert realm in RealmsOf(c) && Observed(cr, worlds, env, realm, moments[realm]);
      ServedState(cr, c, worlds, events, realm, moments[realm].at);
    }
    served := map realm | realm in moments :: ServiceAt(worlds, realm, moments[realm]);
    assert served.Keys == moments.Keys;
    assert |served| == |served.Keys| == |moments|;
  }

  lemma RunUnforgeable<P(!new)>(cr: Crypto<P>, c: Configuration, worlds: seq<World>, events: seq<Event<P>>,
                                env: Environment<P>)
    requires IsRun(cr, c, worlds, events) && Initial(worlds[0]) && NoForgeries(cr, c, worlds[|events|].regs, env)
    ensures AllUnforgeable(cr, c, worlds[|events|].regs, env)
  {
    hide Next, Enabled, FromRegistrations, Unforgeable;
    InvariantHolds(cr, c, worlds, events, |events|);
  }

  /**
   Safety over all interleavings: in every run in which any number of clients register, recover
   and delete, a recovery whose honest answers in phase 2 come from any moments of the run fails, panics over
   a request, or returns the secret of one registration of that run, with matching PIN and info.
   */
  lemma RunSafety<P(!new)>(cr: Crypto<P>, c: Configuration, worlds: seq<World>, events: seq<Event<P>>,
                           env: Environment<P>, moments: map<Realm, Moment>, pin: Bytes, info: UserInfo, blinding: int)
    requires IsCrypto(cr) && CollisionFree(cr) && IsEnvironment(env)
    requires IsRun(cr, c, worlds, events) && Initial(worlds[0])
    requires ObservedIn(cr, c, worlds, env, moments)
    requires NoForgeries(cr, c, worlds[|events|].regs, env)
    ensures Explained(cr, c, worlds[|events|].regs, env, pin, info, blinding)
  {
    hide *;
    RunShape(cr, c, worlds, events);
    var served := ObservedHonest(cr, c, worlds, events, env, moments);
    RunUnforgeable(cr, c, worlds, events, env);
    RecoverySafety(cr, c, worlds[|events|].regs, env, served, pin, info, blinding);
  }

  lemma RunShape<P>(cr: Crypto<P>, c: Configuration, worlds: seq<World>, events: seq<Event<P>>)
    requires IsRun(cr, c, worlds, events)
    ensures Acceptable(c) && |worlds| == |events| + 1
  {
  }
}
