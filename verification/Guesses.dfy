/**
 Guess accounting over whole runs: how many recoveries of one registration can learn that their
 PIN is wrong before it is used up.

 Every such recovery was granted a guess by a threshold of realms, less those that may lie; a
 realm grants at most the registered number of guesses each time the registration is stored
 there, because only the registration's tags give guesses back, and only a recovery with its
 PIN learns them.
 */
module Guesses {
  import opened Wrappers
  import opened Encoding
  import opened Fields
  import opened Shuffles
  import opened Oprf
  import opened Configurations
  import opened Requests
  import opened Join
  import opened Gathering
  import opened Registrations
  import opened Recovery
  import opened Guarantees
  import opened Realms
  import opened Worlds
  import opened Promises
  import opened Counting

  // ---- what one realm grants ----

  /** Guesses a realm still allows on a version. */
  function Remaining(state: RealmState, version: Version): int {
    if state.Registered? && state.registration.version == version
    then state.registration.numGuesses - state.attempted
    else 0
  }

  /** The realm spends a guess on this version: the only case in which phase 2 succeeds. */
  ghost predicate Grants<P>(w: World, e: Event<P>, realm: Realm, version: Version)
    requires realm in w.states
  {
    e.Ask2? && e.realm == realm && e.request2.version == version && Remaining(w.states[realm], version) > 0
  }

  lemma GrantIsSuccess<P>(cr: Crypto<P>, w: World, e: Event<P>, betaT: int)
    requires e.Ask2? && e.realm in w.states && Consistent(w.states[e.realm])
    ensures Recover2Reply(cr.suite, w.states[e.realm], e.request2, betaT).Recover2Ok? <==>
            Grants(w, e, e.realm, e.request2.version)
  {
  }

  /** Phase 3 with the right tag gives all guesses back. */
  ghost predicate Unlocks<P>(w: World, e: Event<P>, realm: Realm, version: Version)
    requires realm in w.states
  {
    && e.Ask3? && e.realm == realm && e.request3.version == version
    && w.states[realm].Registered? && w.states[realm].registration.version == version
    && e.request3.unlockKeyTag == w.states[realm].registration.unlockKeyTag
  }

  ghost predicate StoresAt<P>(e: Event<P>, realm: Realm, version: Version) {
    e.Store? && e.realm == realm && e.reg.version == version
  }

  /** How often the version has been stored at the realm in the first n events. */
  ghost function Stores<P>(events: seq<Event<P>>, realm: Realm, version: Version, n: nat): nat
    requires n <= |events|
  {
    if n == 0 then 0
    else Stores(events, realm, version, n - 1) + if StoresAt(events[n - 1], realm, version) then 1 else 0
  }

  /** The recoveries to which the realm has granted a guess in the first n events. */
  ghost function GrantedSessions<P>(worlds: seq<World>, events: seq<Event<P>>, realm: Realm, version: Version,
                                    n: nat): set<nat>
    requires n <= |events| < |worlds| && forall i :: 0 <= i < |worlds| ==> realm in worlds[i].states
  {
    if n == 0 then {}
    else
      var rest := GrantedSessions(worlds, events, realm, version, n - 1);
      if Grants(worlds[n - 1], events[n - 1], realm, version) then rest + {events[n - 1].session} else rest
  }

  lemma RemainingStep<P>(cr: Crypto<P>, c: Configuration, w: World, e: Event<P>, realm: Realm, version: Version,
                         limit: nat)
    requires Acceptable(c) && OnConfiguration(c, w) && Enabled(cr, c, w, e)
    requires realm in w.states && Consistent(w.states[realm]) && !Unlocks(w, e, realm, version)
    requires StoresAt(e, realm, version) ==> e.reg.numGuesses <= limit
    ensures realm in Next(cr, c, w, e).states
    ensures Remaining(Next(cr, c, w, e).states[realm], version) <=
            Remaining(w.states[realm], version) + (if StoresAt(e, realm, version) then limit else 0)
            - if Grants(w, e, realm, version) then 1 else 0
  {
    hide KeyShare, ScalarShare, SignPublicKey, OprfResult, UnlockKey, EncryptedSecret, CommitmentOf, TagFor,
         SecretCommitment;
  }

  lemma RemainingNatural(state: RealmState, version: Version)
    requires Consistent(state)
    ensures Remaining(state, version) >= 0
  {
  }

  /** A run from the beginning in which nobody unlocks the version at this realm. */
  ghost predicate Locked<P>(cr: Crypto<P>, c: Configuration, worlds: seq<World>, events: seq<Event<P>>, realm: Realm,
                            version: Version, limit: nat) {
    && IsRun(cr, c, worlds, events) && Initial(worlds[0]) && realm in c.realms
    && (forall i :: 0 <= i < |worlds| ==> realm in worlds[i].states)
    && (forall i {:trigger Unlocks(worlds[i], events[i], realm, version)} ::
          0 <= i < |events| ==> !Unlocks(worlds[i], events[i], realm, version))
    && (forall reg :: reg in worlds[|events|].regs && reg.version == version ==> reg.numGuesses <= limit)
  }

  lemma LockedStart<P>(cr: Crypto<P>, c: Configuration, worlds: seq<World>, events: seq<Event<P>>, realm: Realm,
                       version: Version, limit: nat)
    requires Locked(cr, c, worlds, events, realm, version, limit)
    ensures |worlds| == |events| + 1 && forall i :: 0 <= i < |worlds| ==> realm in worlds[i].states
    ensures Remaining(worlds[0].states[realm], version) == 0
  {
  }

  lemma LockedStep<P>(cr: Crypto<P>, c: Configuration, worlds: seq<World>, events: seq<Event<P>>, realm: Realm,
                      version: Version, limit: nat, n: nat)
    requires Locked(cr, c, worlds, events, realm, version, limit) && n < |events|
    requires realm in worlds[n].states && realm in worlds[n + 1].states
    ensures Remaining(worlds[n + 1].states[realm], version) <=
            Remaining(worlds[n].states[realm], version) + (if StoresAt(events[n], realm, version) then limit else 0)
            - if Grants(worlds[n], events[n], realm, version) then 1 else 0
    ensures Remaining(worlds[n + 1].states[realm], version) >= 0
  {
    hide Next, Enabled, Grants, Remaining, Consistent, Initial, Unlocks, Acceptable, OnConfiguration;
    assert StepAt(cr, c, worlds, events, n) && !Unlocks(worlds[n], events[n], realm, version);
    RegistrationsGrow(cr, c, worlds, events, n, |events|);
    StoredBegun(cr, c, worlds[n], events[n]);
    StateConsistent(cr, c, worlds, events, realm, n);
    StateConsistent(cr, c, worlds, events, realm, n + 1);
    RemainingStep(cr, c, worlds[n], events[n], realm, version, limit);
    RemainingNatural(worlds[n + 1].states[realm], version);
  }

  lemma StoredBegun<P>(cr: Crypto<P>, c: Configuration, w: World, e: Event<P>)
    requires Enabled(cr, c, w, e)
    ensures e.Store? ==> e.reg in w.regs
  {
  }

  lemma StateConsistent<P>(cr: Crypto<P>, c: Configuration, worlds: seq<World>, events: seq<Event<P>>, realm: Realm,
                           n: nat)
    requires IsRun(cr, c, worlds, events) && Initial(worlds[0]) && n < |worlds| && realm in worlds[n].states
    ensures Consistent(worlds[n].states[realm])
  {
    hide Next, Enabled, Holds, Initial;
    InvariantHolds(cr, c, worlds, events, n);
    assert FromRegistrations(cr, c, worlds[n].regs, realm, worlds[n].states[realm]);
  }

  /** Each store of the version pays for `limit` grants, each grant costs a guess. */
  lemma {:induction false} GrantsCost<P>(cr: Crypto<P>, c: Configuration, worlds: seq<World>, events: seq<Event<P>>,
                                         realm: Realm, version: Version, limit: nat, n: nat)
    requires |worlds| == |events| + 1 && forall i :: 0 <= i < |worlds| ==> realm in worlds[i].states
    requires Locked(cr, c, worlds, events, realm, version, limit) && n <= |events|
    ensures |GrantedSessions(worlds, events, realm, version, n)| + Remaining(worlds[n].states[realm], version) <=
            limit * Stores(events, realm, version, n)
    ensures Remaining(worlds[n].states[realm], version) >= 0
  {
    hide Locked, Grants, Remaining, StoresAt;
    LockedStart(cr, c, worlds, events, realm, version, limit);
    if n > 0 {
      GrantsCost(cr, c, worlds, events, realm, version, limit, n - 1);
      LockedStep(cr, c, worlds, events, realm, version, limit, n - 1);
      GrantedOneMore(worlds, events, realm, version, n);
      OneMoreStore(events, realm, version, limit, n);
      hide GrantedSessions, Stores;
    }
  }

  lemma GrantedOneMore<P>(worlds: seq<World>, events: seq<Event<P>>, realm: Realm, version: Version, n: nat)
    requires 0 < n <= |events| < |worlds| && forall i :: 0 <= i < |worlds| ==> realm in worlds[i].states
    ensures |GrantedSessions(worlds, events, realm, version, n)| <=
            |GrantedSessions(worlds, events, realm, version, n - 1)| +
              if Grants(worlds[n - 1], events[n - 1], realm, version) then 1 else 0
  {
    hide Grants;
  }

  lemma OneMoreStore<P>(events: seq<Event<P>>, realm: Realm, version: Version, limit: nat, n: nat)
    requires 0 < n <= |events|
    ensures limit * Stores(events, realm, version, n) ==
            limit * Stores(events, realm, version, n - 1) + if StoresAt(events[n - 1], realm, version) then limit else 0
  {
    hide StoresAt;
    var before := Stores(events, realm, version, n - 1);
    assert limit * (before + 1) == limit * before + limit;
  }

  lemma GrantsLimited<P>(cr: Crypto<P>, c: Configuration, worlds: seq<World>, events: seq<Event<P>>, realm: Realm,
                         version: Version, limit: nat, times: nat)
    requires |worlds| == |events| + 1 && forall i :: 0 <= i < |worlds| ==> realm in worlds[i].states
    requires Locked(cr, c, worlds, events, realm, version, limit)
    requires Stores(events, realm, version, |events|) <= times
    ensures |GrantedSessions(worlds, events, realm, version, |events|)| <= limit * times
  {
    hide Locked, Remaining, GrantedSessions, Stores;
    GrantsCost(cr, c, worlds, events, realm, version, limit, |events|);
    assert limit * Stores(events, realm, version, |events|) <= limit * times;
  }

  // ---- recoveries of a run ----

  /** One recovery, with what its client heard and when the honest realms served its phase 2. */
  datatype Attempt<!P> = Attempt(pin: Bytes, info: UserInfo, blinding: int, env: Environment<P>,
                                 moments: map<Realm, Moment>)

  function AccessKey<P>(cr: Crypto<P>, c: Configuration, a: Attempt<P>, version: Version): Bytes {
    HashPin(cr, c.pinHashingMode, a.pin, version, a.info).0
  }

  function RequestOf<P>(cr: Crypto<P>, c: Configuration, a: Attempt<P>, version: Version): Recover2Request<P> {
    Recover2Request(version, Start(cr.suite, AccessKey(cr, c, a, version), a.blinding))
  }

  /** The recovery found this version in phase 1. */
  ghost predicate Finds<P>(c: Configuration, a: Attempt<P>, version: Version) {
    Acceptable(c) && IsEnvironment(a.env) && Phase1(c, a.env).Ok? && Phase1(c, a.env).value.0 == version
  }

  /** It then combines a quorum's evaluations and compares the commitment, so its PIN is tested. */
  ghost predicate Tests<P>(cr: Crypto<P>, c: Configuration, a: Attempt<P>, version: Version) {
    && Finds(c, a, version)
    && var oks := Oks(Phase2Results(cr, c, a.env, Phase1(c, a.env).value.1, RequestOf(cr, c, a, version)));
       |oks| >= c.recoverThreshold && Quorum(oks, c.recoverThreshold).Some?
  }

  /** It passes that comparison and learns this unlock key. */
  ghost predicate Learns<P>(cr: Crypto<P>, c: Configuration, a: Attempt<P>, version: Version, unlockKey: Bytes) {
    && Finds(c, a, version)
    && (QuorumSize(c, a.env);
        Phase2(cr, c, a.env, AccessKey(cr, c, a, version), a.blinding, version, Phase1(c, a.env).value.1) ==
          Ok(unlockKey))
  }

  /** An answer the client heard is the reply to a request of this recovery, at its moment of the run. */
  ghost predicate ServedIn<P>(events: seq<Event<P>>, env: Environment<P>, realm: Realm, request: Recover2Request<P>,
                              session: nat, moment: Moment) {
    env.answer2(realm, request).Ok? ==> moment.at < |events| && events[moment.at] == Ask2(realm, request, session)
  }

  ghost predicate TracedAt<P(!new)>(cr: Crypto<P>, worlds: seq<World>, events: seq<Event<P>>, env: Environment<P>,
                                    realm: Realm, session: nat, moment: Moment) {
    Observed(cr, worlds, env, realm, moment) && forall request :: ServedIn(events, env, realm, request, session, moment)
  }

  /** What the recovery heard of honest realms happened in the run. */
  ghost predicate Traced<P(!new)>(cr: Crypto<P>, worlds: seq<World>, events: seq<Event<P>>, honest: set<Realm>,
                                  a: Attempt<P>, session: nat) {
    && IsEnvironment(a.env) && a.moments.Keys == honest
    && (forall realm {:trigger TracedAt(cr, worlds, events, a.env, realm, session, a.moments[realm])} ::
          realm in honest ==> TracedAt(cr, worlds, events, a.env, realm, session, a.moments[realm]))
  }

  lemma {:induction false} GrantRemembered<P>(worlds: seq<World>, events: seq<Event<P>>, realm: Realm,
                                              version: Version, m: nat, n: nat)
    requires m < n <= |events| < |worlds| && forall i :: 0 <= i < |worlds| ==> realm in worlds[i].states
    requires Grants(worlds[m], events[m], realm, version)
    ensures events[m].session in GrantedSessions(worlds, events, realm, version, n)
  {
    if n > m + 1 {
      GrantRemembered(worlds, events, realm, version, m, n - 1);
    }
  }

  /** An honest realm whose evaluation was accepted has granted the recovery a guess. */
  lemma RealmPaid<P(!new)>(cr: Crypto<P>, c: Configuration, worlds: seq<World>, events: seq<Event<P>>,
                           honest: set<Realm>, a: Attempt<P>, session: nat, request: Recover2Request<P>, realm: Realm)
    requires IsRun(cr, c, worlds, events) && Initial(worlds[0])
    requires Traced(cr, worlds, events, honest, a, session) && realm in honest
    requires forall i :: 0 <= i < |worlds| ==> realm in worlds[i].states
    requires Recover2OnRealm(cr, c, a.env, realm, request).Ok?
    ensures |events| < |worlds| && session in GrantedSessions(worlds, events, realm, request.version, |events|)
  {
    hide Next, Enabled, Grants, GrantedSessions, Consistent, Recover2Reply, Initial, IsEnvironment, Reorders;
    var n, betaT := a.moments[realm].at, a.moments[realm].betaT;
    assert TracedAt(cr, worlds, events, a.env, realm, session, a.moments[realm]);
    assert ServedIn(events, a.env, realm, request, session, a.moments[realm]);
    assert HeardFrom(cr, a.env, realm, ServiceAt(worlds, realm, a.moments[realm]), request);
    AcceptedIsReply(cr, c, a.env, realm, request, ServiceAt(worlds, realm, a.moments[realm]));
    StateConsistent(cr, c, worlds, events, realm, n);
    GrantIsSuccess(cr, worlds[n], events[n], betaT);
    GrantRemembered(worlds, events, realm, request.version, n, |events|);
  }

  lemma AcceptedIsReply<P>(cr: Crypto<P>, c: Configuration, env: Environment<P>, realm: Realm,
                           request: Recover2Request<P>, served: Service)
    requires Recover2OnRealm(cr, c, env, realm, request).Ok? && HeardFrom(cr, env, realm, served, request)
    ensures env.answer2(realm, request).Ok? && Recover2Reply(cr.suite, served.state, request, served.betaT).Recover2Ok?
  {
    hide VerifySigned, VerifyProof, BlindEvaluate, GenerateProof;
  }

  /** The honest realms that have granted this recovery a guess. */
  ghost function PaidAt<P>(worlds: seq<World>, events: seq<Event<P>>, honest: set<Realm>, version: Version,
                           session: nat): set<Realm>
    requires |events| < |worlds| && forall i :: 0 <= i < |worlds| ==> worlds[i].states.Keys == honest
  {
    set r | r in honest && session in GrantedSessions(worlds, events, r, version, |events|)
  }

  lemma HonestKept<P>(cr: Crypto<P>, c: Configuration, worlds: seq<World>, events: seq<Event<P>>)
    requires IsRun(cr, c, worlds, events) && Initial(worlds[0])
    ensures Acceptable(c) && |worlds| == |events| + 1 && worlds[0].states.Keys <= RealmsOf(c)
    ensures forall i :: 0 <= i < |worlds| ==> worlds[i].states.Keys == worlds[0].states.Keys
  {
    hide Next, Enabled, Invariant, Initial;
    forall i | 0 <= i < |worlds| ensures worlds[i].states.Keys == worlds[0].states.Keys {
      InvariantHolds(cr, c, worlds, events, i);
    }
    assert OnConfiguration(c, worlds[0]);
  }

  /**
   A recovery whose PIN is tested was granted a guess by a threshold of realms, not counting
   those that may lie.
   */
  lemma TestIsPaid<P(!new)>(cr: Crypto<P>, c: Configuration, worlds: seq<World>, events: seq<Event<P>>, a: Attempt<P>,
                            session: nat, version: Version)
    requires IsRun(cr, c, worlds, events) && Initial(worlds[0])
    requires Traced(cr, worlds, events, worlds[0].states.Keys, a, session) && Tests(cr, c, a, version)
    ensures |events| < |worlds| && forall i :: 0 <= i < |worlds| ==> worlds[i].states.Keys == worlds[0].states.Keys
    ensures |PaidAt(worlds, events, worlds[0].states.Keys, version, session)| + (|c.realms| - |worlds[0].states|) >=
            c.recoverThreshold
  {
    hide IsRun, Initial, Traced, Recover2OnRealm, Phase2Results, GrantedSessions, Phase1, Pick, AccessKey, Acceptable;
    HonestKept(cr, c, worlds, events);
    var honest, request, realms := worlds[0].states.Keys, RequestOf(cr, c, a, version), Phase1(c, a.env).value.1;
    Phase1Realms(c, a.env);
    var order := a.env.order2(realms);
    Phase2Is(cr, c, a.env, realms, request);
    var key := Quorum(Oks(Phase2Results(cr, c, a.env, realms, request)), c.recoverThreshold).value.0;
    var pick := Pick(Asked2(cr, c, a.env, request), Itself(), key);
    GroupOf(order, Asked2(cr, c, a.env, request), Itself(), key);
    GatherCount(order, pick);
    var paid, others := PaidAt(worlds, events, honest, version, session), RealmsOf(c) - honest;
    forall r | r in Picked(order, pick) ensures r in paid + others {
      assert r in RealmsOf(c);
      PickedAnswered(cr, c, a.env, request, key, r);
      if r in honest {
        RealmPaid(cr, c, worlds, events, honest, a, session, request, r);
      }
    }
    SubsetCount(Picked(order, pick), paid + others);
    OtherRealms(c, honest);
    assert |worlds[0].states| == |honest|;
  }

  lemma PickedAnswered<P>(cr: Crypto<P>, c: Configuration, env: Environment<P>, request: Recover2Request<P>,
                          key: Consensus, r: Realm)
    requires Pick(Asked2(cr, c, env, request), Itself(), key)(r).Some?
    ensures Recover2OnRealm(cr, c, env, r, request).Ok?
  {
    hide Recover2OnRealm;
  }

  // ---- only the right PIN unlocks ----

  /** The registration is the only one with its version. */
  ghost predicate OnlyVersion(regs: set<Registration>, reg: Registration) {
    reg in regs && forall other :: other in regs && other.version == reg.version ==> other == reg
  }

  /**
   The idealization of the tags' MAC: a valid tag of the registration's unlock key is presented
   only by a recovery that learned this key.
   */
  ghost predicate TagsEarned<P>(cr: Crypto<P>, c: Configuration, events: seq<Event<P>>, reg: Registration,
                                attempts: map<nat, Attempt<P>>) {
    forall i {:trigger TagEarned(cr, c, events[i], reg, attempts)} ::
      0 <= i < |events| ==> TagEarned(cr, c, events[i], reg, attempts)
  }

  ghost predicate TagEarned<P>(cr: Crypto<P>, c: Configuration, e: Event<P>, reg: Registration,
                               attempts: map<nat, Attempt<P>>) {
    (e.Ask3? && e.request3.version == reg.version &&
     e.request3.unlockKeyTag == TagFor(cr, UnlockKey(cr, c, reg), e.realm.id)) ==>
      e.session in attempts && Learns(cr, c, attempts[e.session], reg.version, UnlockKey(cr, c, reg))
  }

  /** A recovery that learns any unlock key for the version has the registered PIN and info. */
  lemma LearnerHasPin<P(!new)>(cr: Crypto<P>, c: Configuration, worlds: seq<World>, events: seq<Event<P>>,
                               a: Attempt<P>, session: nat, reg: Registration, unlockKey: Bytes)
    requires IsCrypto(cr) && CollisionFree(cr) && IsRun(cr, c, worlds, events) && Initial(worlds[0])
    requires Traced(cr, worlds, events, worlds[0].states.Keys, a, session)
    requires |c.realms| < |worlds[0].states| + c.recoverThreshold
    requires |c.realms| < U32_LIMIT && NoForgeries(cr, c, worlds[|events|].regs, a.env)
    requires OnlyVersion(worlds[|events|].regs, reg) && Learns(cr, c, a, reg.version, unlockKey)
    ensures a.pin == reg.pin && a.info == reg.info
  {
    hide IsRun, Initial, IsCrypto, CollisionFree, Phase1, Phase2, Observed, MostlyHonest, AllUnforgeable, HashPin,
         IsEnvironment, ServedIn, NoForgeries, Acceptable, CombinesGenuine, UnlockKey;
    HonestKept(cr, c, worlds, events);
    TracedIsObserved(cr, c, worlds, events, a, session);
    var served := ObservedHonest(cr, c, worlds, events, a.env, a.moments);
    RunUnforgeable(cr, c, worlds, events, a.env);
    Phase1Realms(c, a.env);
    QuorumSize(c, a.env);
    var other := SafePhase2(cr, c, worlds[|events|].regs, a.env, served, Phase1(c, a.env).value.1, a.pin,
                            reg.version, a.info, a.blinding);
  }

  lemma TracedIsObserved<P(!new)>(cr: Crypto<P>, c: Configuration, worlds: seq<World>, events: seq<Event<P>>,
                                  a: Attempt<P>, session: nat)
    requires |worlds| > 0 && Traced(cr, worlds, events, worlds[0].states.Keys, a, session)
    requires worlds[0].states.Keys <= RealmsOf(c) && |c.realms| < |worlds[0].states| + c.recoverThreshold
    ensures ObservedIn(cr, c, worlds, a.env, a.moments)
  {
    hide Observed, ServedIn, IsEnvironment;
    assert |a.moments| == |a.moments.Keys| == |worlds[0].states.Keys| == |worlds[0].states|;
    forall realm | realm in a.moments ensures Observed(cr, worlds, a.env, realm, a.moments[realm]) {
      assert TracedAt(cr, worlds, events, a.env, realm, session, a.moments[realm]);
    }
  }

  /** Recoveries of a run; those that find the registration lack its PIN or its info. */
  ghost predicate WrongPins<P(!new)>(cr: Crypto<P>, c: Configuration, worlds: seq<World>, events: seq<Event<P>>,
                                     reg: Registration, attempts: map<nat, Attempt<P>>)
    requires |worlds| == |events| + 1 && |c.realms| < U32_LIMIT
  {
    forall s {:trigger WrongPin(cr, c, worlds, events, reg, s, attempts[s])} ::
      s in attempts ==> WrongPin(cr, c, worlds, events, reg, s, attempts[s])
  }

  ghost predicate WrongPin<P(!new)>(cr: Crypto<P>, c: Configuration, worlds: seq<World>, events: seq<Event<P>>,
                                    reg: Registration, session: nat, a: Attempt<P>)
    requires |worlds| == |events| + 1 && |c.realms| < U32_LIMIT
  {
    && Traced(cr, worlds, events, worlds[0].states.Keys, a, session) && NoForgeries(cr, c, worlds[|events|].regs, a.env)
    && (Finds(c, a, reg.version) ==> a.pin != reg.pin || a.info != reg.info)
  }

  lemma LearnerFinds<P>(cr: Crypto<P>, c: Configuration, a: Attempt<P>, version: Version, unlockKey: Bytes)
    requires Learns(cr, c, a, version, unlockKey)
    ensures Finds(c, a, version)
  {
  }

  /** So nobody presents a valid tag: the state of the realm is that of the registration. */
  lemma NeverUnlocked<P(!new)>(cr: Crypto<P>, c: Configuration, worlds: seq<World>, events: seq<Event<P>>,
                               reg: Registration, attempts: map<nat, Attempt<P>>, realm: Realm, i: nat)
    requires IsCrypto(cr) && CollisionFree(cr) && IsRun(cr, c, worlds, events) && Initial(worlds[0])
    requires |worlds| == |events| + 1 && |c.realms| < U32_LIMIT && |c.realms| < |worlds[0].states| + c.recoverThreshold
    requires OnlyVersion(worlds[|events|].regs, reg) && TagsEarned(cr, c, events, reg, attempts)
    requires WrongPins(cr, c, worlds, events, reg, attempts)
    requires i < |events| && realm in worlds[i].states
    ensures !Unlocks(worlds[i], events[i], realm, reg.version)
  {
    hide IsRun, Initial, IsCrypto, CollisionFree, Learns, Finds, Traced, NoForgeries, UnlockKey, TagFor;
    if Unlocks(worlds[i], events[i], realm, reg.version) {
      HeldTag(cr, c, worlds, events, reg, realm, i);
      assert TagEarned(cr, c, events[i], reg, attempts);
      var s := events[i].session;
      assert WrongPin(cr, c, worlds, events, reg, s, attempts[s]);
      LearnerFinds(cr, c, attempts[s], reg.version, UnlockKey(cr, c, reg));
      LearnerHasPin(cr, c, worlds, events, attempts[s], s, reg, UnlockKey(cr, c, reg));
    }
  }

  /** A realm that holds the version holds the registration's tag. */
  lemma HeldTag<P>(cr: Crypto<P>, c: Configuration, worlds: seq<World>, events: seq<Event<P>>, reg: Registration,
                   realm: Realm, n: nat)
    requires IsRun(cr, c, worlds, events) && Initial(worlds[0]) && |worlds| == |events| + 1 && n < |worlds|
    requires OnlyVersion(worlds[|events|].regs, reg) && |c.realms| < U32_LIMIT && realm in worlds[n].states
    requires worlds[n].states[realm].Registered? && worlds[n].states[realm].registration.version == reg.version
    ensures worlds[n].states[realm].registration.unlockKeyTag == TagFor(cr, UnlockKey(cr, c, reg), realm.id)
  {
    hide Next, Enabled, Initial, Record;
    InvariantHolds(cr, c, worlds, events, n);
    RegistrationsGrow(cr, c, worlds, events, n, |events|);
    RunShape(cr, c, worlds, events);
    assert realm in c.realms && FromRegistrations(cr, c, worlds[n].regs, realm, worlds[n].states[realm]);
    var other :| other in worlds[n].regs && Holds(cr, c, other, realm, worlds[n].states[realm]);
    var k := RealmIndex(c, realm);
    RecordTag(cr, c, other, k);
  }

  lemma RecordTag<P>(cr: Crypto<P>, c: Configuration, reg: Registration, i: nat)
    requires i < |c.realms| < U32_LIMIT
    ensures Record(cr, c, reg, i).version == reg.version
    ensures Record(cr, c, reg, i).unlockKeyTag == TagFor(cr, UnlockKey(cr, c, reg), c.realms[i].id)
  {
    hide KeyShare, ScalarShare, SignPublicKey, OprfResult, UnlockKey, EncryptedSecret, CommitmentOf, TagFor,
         SecretCommitment;
  }

  // ---- the limit ----

  function Among(honest: set<Realm>): Realm -> Option<Realm> {
    (r: Realm) => if r in honest then Some(r) else None
  }

  lemma HonestRealms(c: Configuration, honest: set<Realm>) returns (realms: seq<Realm>)
    requires Acceptable(c) && honest <= RealmsOf(c)
    ensures Unique(realms) && |realms| == |honest| && forall r :: r in realms <==> r in honest
  {
    RealmsUnique(c);
    realms := Gather(c.realms, Among(honest));
    GatherSelves(c.realms, Among(honest));
    GatherCount(c.realms, Among(honest));
    assert Picked(c.realms, Among(honest)) == honest;
  }

  /** Realms limit sessions, and every session was granted by enough of them. */
  lemma PaidSessions<P>(c: Configuration, worlds: seq<World>, events: seq<Event<P>>, honest: set<Realm>,
                        version: Version, sessions: set<nat>, needed: nat, limit: nat)
    requires Acceptable(c) && honest <= RealmsOf(c)
    requires |events| < |worlds| && forall i :: 0 <= i < |worlds| ==> worlds[i].states.Keys == honest
    requires forall r :: r in honest ==> |GrantedSessions(worlds, events, r, version, |events|)| <= limit
    requires forall s :: s in sessions ==> |PaidAt(worlds, events, honest, version, s)| >= needed
    ensures |sessions| * needed <= |honest| * limit
  {
    hide Acceptable, GrantedSessions;
    var realms := HonestRealms(c, honest);
    var grants := map r | r in honest :: GrantedSessions(worlds, events, r, version, |events|);
    forall s | s in sessions ensures |Granters(grants, realms, s)| >= needed {
      assert Granters(grants, realms, s) == PaidAt(worlds, events, honest, version, s);
    }
    SessionsLimited(grants, realms, sessions, needed, limit);
  }

  lemma LockedAt<P(!new)>(cr: Crypto<P>, c: Configuration, worlds: seq<World>, events: seq<Event<P>>, reg: Registration,
                          attempts: map<nat, Attempt<P>>, realm: Realm)
    requires IsCrypto(cr) && CollisionFree(cr) && IsRun(cr, c, worlds, events) && Initial(worlds[0])
    requires |worlds| == |events| + 1 && |c.realms| < U32_LIMIT && |c.realms| < |worlds[0].states| + c.recoverThreshold
    requires OnlyVersion(worlds[|events|].regs, reg) && TagsEarned(cr, c, events, reg, attempts)
    requires WrongPins(cr, c, worlds, events, reg, attempts) && realm in worlds[0].states
    ensures Locked(cr, c, worlds, events, realm, reg.version, reg.numGuesses)
  {
    hide IsRun, Initial, IsCrypto, CollisionFree, TagsEarned, WrongPins, Unlocks;
    HonestKept(cr, c, worlds, events);
    forall i | 0 <= i < |events| ensures !Unlocks(worlds[i], events[i], realm, reg.version) {
      NeverUnlocked(cr, c, worlds, events, reg, attempts, realm, i);
    }
    assert realm in RealmsOf(c);
  }

  /**
   In every run from the beginning in which a registration is stored at most `times` times at
   each realm and no recovery of it has its PIN and info, the recoveries whose PIN is tested,
   times the threshold less the realms that may lie, number at most the guesses of the honest
   realms.
   */
  lemma WrongPinLimit<P(!new)>(cr: Crypto<P>, c: Configuration, worlds: seq<World>, events: seq<Event<P>>,
                               reg: Registration, attempts: map<nat, Attempt<P>>, sessions: set<nat>, times: nat)
    requires IsCrypto(cr) && CollisionFree(cr) && IsRun(cr, c, worlds, events) && Initial(worlds[0])
    requires |worlds| == |events| + 1 && |c.realms| < U32_LIMIT && |c.realms| < |worlds[0].states| + c.recoverThreshold
    requires OnlyVersion(worlds[|events|].regs, reg) && TagsEarned(cr, c, events, reg, attempts)
    requires WrongPins(cr, c, worlds, events, reg, attempts)
    requires forall realm :: realm in worlds[0].states ==> Stores(events, realm, reg.version, |events|) <= times
    requires forall s :: s in sessions ==> s in attempts && Tests(cr, c, attempts[s], reg.version)
    ensures |sessions| * (c.recoverThreshold - (|c.realms| - |worlds[0].states|)) <=
            |worlds[0].states| * (reg.numGuesses * times)
  {
    hide IsRun, Initial, IsCrypto, CollisionFree, TagsEarned, Tests, Locked, Stores, Traced, NoForgeries, PaidAt,
         GrantedSessions, OnlyVersion, Acceptable, RealmsOf, Finds;
    HonestKept(cr, c, worlds, events);
    var honest, size := worlds[0].states.Keys, |worlds[0].states|;
    assert |honest| == size;
    var needed, limit := c.recoverThreshold - (|c.realms| - size), reg.numGuesses * times;
    forall r | r in honest ensures |GrantedSessions(worlds, events, r, reg.version, |events|)| <= limit {
      LockedAt(cr, c, worlds, events, reg, attempts, r);
      GrantsLimited(cr, c, worlds, events, r, reg.version, reg.numGuesses, times);
    }
    forall s | s in sessions ensures |PaidAt(worlds, events, honest, reg.version, s)| >= needed {
      assert WrongPin(cr, c, worlds, events, reg, s, attempts[s]);
      TestIsPaid(cr, c, worlds, events, attempts[s], s, reg.version);
    }
    PaidSessions(c, worlds, events, honest, reg.version, sessions, needed, limit);
  }

  /** If all realms are honest and store the registration once, they are fewer than twice its guesses. */
  lemma GuessLimit<P(!new)>(cr: Crypto<P>, c: Configuration, worlds: seq<World>, events: seq<Event<P>>,
                            reg: Registration, attempts: map<nat, Attempt<P>>, sessions: set<nat>)
    requires IsCrypto(cr) && CollisionFree(cr) && IsRun(cr, c, worlds, events) && Initial(worlds[0])
    requires |worlds| == |events| + 1 && |c.realms| < U32_LIMIT && |worlds[0].states| == |c.realms|
    requires OnlyVersion(worlds[|events|].regs, reg) && TagsEarned(cr, c, events, reg, attempts)
    requires WrongPins(cr, c, worlds, events, reg, attempts)
    requires forall realm :: realm in worlds[0].states ==> Stores(events, realm, reg.version, |events|) <= 1
    requires forall s :: s in sessions ==> s in attempts && Tests(cr, c, attempts[s], reg.version)
    ensures reg.numGuesses >= 1 ==> |sessions| < 2 * reg.numGuesses
    ensures reg.numGuesses == 0 ==> sessions == {}
  {
    hide IsRun, Initial, IsCrypto, CollisionFree, TagsEarned, Tests, Stores, WrongPins, OnlyVersion;
    RunShape(cr, c, worlds, events);
    Majority(c);
    WrongPinLimit(cr, c, worlds, events, reg, attempts, sessions, 1);
    MajorityLimit(|sessions|, c.recoverThreshold, |c.realms|, reg.numGuesses);
  }

  lemma Majority(c: Configuration)
    requires Acceptable(c)
    ensures 0 < |c.realms| < 2 * c.recoverThreshold
  {
  }
}
