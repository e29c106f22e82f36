/**
 Runs in which a registration succeeds while an older one stays recoverable. The older one is
 stored at all realms; then the newer one at only as many as the register threshold asks for.
 The first `lies` realms only claim to have stored it and go on serving the older one.
 */
module StaleRuns {
  import opened Wrappers
  import opened Encoding
  import opened Fields
  import opened Shuffles
  import opened Oprf
  import opened Configurations
  import opened Requests
  import opened Gathering
  import opened Registrations
  import opened Recovery
  import opened Authenticity
  import opened Guarantees
  import opened Realms
  import opened Worlds
  import opened Promises
  import opened Persistence

  // ---- a registration that succeeded, and what phase 1 hears afterwards ----

  /** The realm stored the registration, and nobody has stored or deleted there since. */
  ghost predicate AcceptedAt<P>(events: seq<Event<P>>, realm: Realm, newer: Registration, k: nat) {
    k < |events| && events[k] == Store(realm, newer) && Undisturbed(events, realm, k + 1, |events|)
  }

  /** The answer to phase 1 got lost, or is that of the realm's state at this moment. */
  ghost predicate Heard1<P>(worlds: seq<World>, env: Environment<P>, realm: Realm, m: nat) {
    && m < |worlds| && realm in worlds[m].states
    && (env.answer1(realm).Err? || env.answer1(realm) == Ok(Recover1Response(Recover1Reply(worlds[m].states[realm]))))
  }

  /** Everything heard of the realm in the three phases is the reply of its state at this moment, or nothing. */
  ghost predicate HonestIn<P(!new)>(cr: Crypto<P>, worlds: seq<World>, env: Environment<P>, realm: Realm, m: nat) {
    && Heard1(worlds, env, realm, m) && Consistent(worlds[m].states[realm])
    && (forall request :: HeardFrom(cr, env, realm, Service(worlds[m].states[realm], 0), request))
    && (forall request :: Heard3(env, realm, worlds[m].states[realm], request))
  }

  ghost predicate Heard3<P>(env: Environment<P>, realm: Realm, state: RealmState, request: Recover3Request)
    requires Consistent(state)
  {
    env.answer3(realm, request).Err? ||
      env.answer3(realm, request) == Ok(Recover3Response(Recover3Reply(state, request)))
  }

  ghost predicate HonestAccepted<P>(worlds: seq<World>, events: seq<Event<P>>, env: Environment<P>, realm: Realm,
                                    k: nat, newer: Registration, m: nat) {
    AcceptedAt(events, realm, newer, k) && k < m && Heard1(worlds, env, realm, m)
  }

  /** Realms that claimed to accept and report the older version. */
  ghost function TwoFaced<P>(worlds: seq<World>, env: Environment<P>, accepting: map<Realm, nat>,
                             older: Version): set<Realm>
    requires |worlds| > 0
  {
    set r | r in accepting.Keys && r !in worlds[0].states && Recover1OnRealm(env, r) == Ok((older, r))
  }

  /**
   In this run enough realms said that they accepted the newer registration, of which at most
   `lies` are two-faced; the honest ones did, and are asked for phase 1 afterwards.
   */
  ghost predicate Succeeded<P(!new)>(cr: Crypto<P>, c: Configuration, worlds: seq<World>, events: seq<Event<P>>,
                                     env: Environment<P>, accepting: map<Realm, nat>, asked: map<Realm, nat>,
                                     older: Version, newer: Registration, lies: nat) {
    && IsRun(cr, c, worlds, events) && Initial(worlds[0]) && IsEnvironment(env)
    && |accepting| >= c.registerThreshold && accepting.Keys <= RealmsOf(c) && asked.Keys == worlds[0].states.Keys
    && (forall realm {:trigger Heard1(worlds, env, realm, asked[realm])} ::
          realm in asked ==> Heard1(worlds, env, realm, asked[realm]))
    && (forall realm {:trigger HonestAccepted(worlds, events, env, realm, accepting[realm], newer, asked[realm])} ::
          realm in accepting && realm in asked ==>
            HonestAccepted(worlds, events, env, realm, accepting[realm], newer, asked[realm]))
    && |TwoFaced(worlds, env, accepting, older)| <= lies
  }

  // ---- building runs ----

  lemma Extend<P>(cr: Crypto<P>, c: Configuration, worlds: seq<World>, events: seq<Event<P>>, e: Event<P>)
    returns (worlds': seq<World>)
    requires IsRun(cr, c, worlds, events) && Enabled(cr, c, worlds[|events|], e)
    ensures IsRun(cr, c, worlds', events + [e])
    ensures worlds' == worlds + [Next(cr, c, worlds[|events|], e)]
  {
    hide Next, Enabled;
    var next := Next(cr, c, worlds[|events|], e);
    worlds' := worlds + [next];
    NextOnConfiguration(cr, c, worlds[|events|], e);
    forall i | 0 <= i < |events| + 1 ensures StepAt(cr, c, worlds', events + [e], i) {
      if i < |events| {
        assert StepAt(cr, c, worlds, events, i);
      }
    }
  }

  lemma NextOnConfiguration<P>(cr: Crypto<P>, c: Configuration, w: World, e: Event<P>)
    requires Acceptable(c) && OnConfiguration(c, w) && Enabled(cr, c, w, e)
    ensures OnConfiguration(c, Next(cr, c, w, e))
  {
    hide Record;
  }

  /** The state in which a registration leaves the i-th realm. */
  function Stored<P>(cr: Crypto<P>, c: Configuration, reg: Registration, i: nat): RealmState
    requires i < |c.realms| < U32_LIMIT
  {
    Registered(Record(cr, c, reg, i), 0)
  }

  /** Stores a registration at the realms from one position up to another, in order. */
  lemma {:induction false} StoreAll<P>(cr: Crypto<P>, c: Configuration, worlds: seq<World>, events: seq<Event<P>>,
                                       reg: Registration, lo: nat, hi: nat)
    returns (worlds': seq<World>, events': seq<Event<P>>)
    requires IsRun(cr, c, worlds, events) && lo <= hi <= |c.realms| < U32_LIMIT && reg in worlds[|events|].regs
    requires forall i :: lo <= i < hi ==> c.realms[i] in worlds[|events|].states
    ensures IsRun(cr, c, worlds', events') && worlds <= worlds'
    ensures |events'| == |events| + (hi - lo) && events <= events'
    ensures forall i :: lo <= i < hi ==> events'[|events| + (i - lo)] == Store(c.realms[i], reg)
    ensures worlds'[|events'|].regs == worlds[|events|].regs
    ensures worlds'[|events'|].states.Keys == worlds[|events|].states.Keys
    ensures forall i :: 0 <= i < |c.realms| && c.realms[i] in worlds[|events|].states ==>
      worlds'[|events'|].states[c.realms[i]] ==
      if lo <= i < hi then Stored(cr, c, reg, i) else worlds[|events|].states[c.realms[i]]
    decreases hi
  {
    hide Stored;
    if lo == hi {
      worlds', events' := worlds, events;
    } else {
      var worlds1, events1 := StoreAll(cr, c, worlds, events, reg, lo, hi - 1);
      var e := Event<P>.Store(c.realms[hi - 1], reg);
      worlds' := Extend(cr, c, worlds1, events1, e);
      events' := events1 + [e];
      StoreNext(cr, c, worlds1[|events1|], reg, hi - 1);
    }
  }

  lemma StoreNext<P>(cr: Crypto<P>, c: Configuration, w: World, reg: Registration, k: nat)
    requires Acceptable(c) && OnConfiguration(c, w) && k < |c.realms| && c.realms[k] in w.states && reg in w.regs
    ensures var w' := Next(cr, c, w, Store(c.realms[k], reg));
            w'.regs == w.regs && w'.states.Keys == w.states.Keys &&
            forall i :: 0 <= i < |c.realms| && c.realms[i] in w.states ==>
              w'.states[c.realms[i]] == if i == k then Stored(cr, c, reg, i) else w.states[c.realms[i]]
  {
    hide Record;
    var j := RealmIndex(c, c.realms[k]);
    forall i | 0 <= i < |c.realms| && c.realms[i] == c.realms[k] ensures i == k {
      SameRealm(c.realms, i, k);
    }
    SameRealm(c.realms, j, k);
  }

  // ---- the stale run ----

  function Liars(c: Configuration, lies: nat): (n: nat)
    ensures n <= lies && n <= c.registerThreshold
  {
    if lies <= c.registerThreshold then lies else c.registerThreshold
  }

  /** The i-th realm really moves on to the newer registration. */
  predicate MovesOn(c: Configuration, lies: nat, i: nat) {
    Liars(c, lies) <= i < c.registerThreshold
  }

  /** What the i-th realm shows after both registrations. */
  function View<P>(cr: Crypto<P>, c: Configuration, older: Registration, newer: Registration, lies: nat,
                   i: nat): RealmState
    requires i < |c.realms| < U32_LIMIT
  {
    Stored(cr, c, if MovesOn(c, lies, i) then newer else older, i)
  }

  /** A realm's place in the configuration. */
  function Place(c: Configuration, realm: Realm): Option<nat> {
    match Position(c.realms, realm.id)
    case None => None
    case Some(i) => if i < |c.realms| && c.realms[i] == realm then Some(i) else None
  }

  lemma PlaceOf(c: Configuration, i: nat)
    requires Acceptable(c) && i < |c.realms|
    ensures Place(c, c.realms[i]) == Some(i)
  {
    var j := RealmIndex(c, c.realms[i]);
    SameRealm(c.realms, i, j);
  }

  /** Every realm answers from its view; only those with the older registration hear of phases 2 and 3. */
  ghost function StaleEnvironment<P>(cr: Crypto<P>, c: Configuration, older: Registration, newer: Registration,
                                     lies: nat): Environment<P>
    requires |c.realms| < U32_LIMIT
  {
    Environment(
      realms => realms, realms => realms, realms => realms,
      (realm: Realm) =>
        match Place(c, realm)
        case None => Err(Refused(Transient))
        case Some(i) => Ok(Recover1Response(Recover1Reply(View(cr, c, older, newer, lies, i)))),
      (realm: Realm, request: Recover2Request<P>) =>
        match Place(c, realm)
        case None => Err(Refused(Transient))
        case Some(i) =>
          if MovesOn(c, lies, i) then Err(Refused(Transient))
          else Ok(Recover2Response(Recover2Reply(cr.suite, Stored(cr, c, older, i), request, 0))),
      (realm: Realm, request: Recover3Request) =>
        match Place(c, realm)
        case None => Err(Refused(Transient))
        case Some(i) =>
          if MovesOn(c, lies, i) then Err(Refused(Transient))
          else Ok(Recover3Response(Recover3Reply(Stored(cr, c, older, i), request))))
  }

  lemma StaleSignature<P>(cr: Crypto<P>, c: Configuration, older: Registration, newer: Registration, lies: nat,
                          realm: Realm, request: Recover2Request<P>)
    requires |c.realms| < U32_LIMIT
    ensures SignatureHolds(cr, c, older, StaleEnvironment(cr, c, older, newer, lies), realm, request)
  {
    hide KeyShare, ScalarShare, OprfResult, UnlockKey, EncryptedSecret, CommitmentOf, TagFor, SecretCommitment,
         ToPublicKey, BlindEvaluate, GenerateProof, SignatureMessage;
    if Place(c, realm).Some? {
      var i := Place(c, realm).value;
      assert c.realms[i].id == realm.id;
      assert Signed(cr, c, older, SignatureMessage(c.realms[i].id,
                                                   Record(cr, c, older, i).oprfSignedPublicKey.publicKey));
    }
  }

  lemma StaleProof<P(!new)>(cr: Crypto<P>, c: Configuration, older: Registration, newer: Registration, lies: nat,
                            realm: Realm, request: Recover2Request<P>)
    requires |c.realms| < U32_LIMIT && IsCrypto(cr)
    ensures ProofHolds(cr, StaleEnvironment(cr, c, older, newer, lies), realm, request)
  {
    hide KeyShare, ScalarShare, OprfResult, UnlockKey, EncryptedSecret, CommitmentOf, TagFor, SecretCommitment,
      GenerateProof, SignatureMessage, VerifyProof, IsSuite;
    if Place(c, realm).Some? {
      var i := Place(c, realm).value;
      var s, key := cr.suite, KeyShare(cr, older, i).secret;
      var public := s.points.scale(s.base, key);
      Point(s, public);
      assert EqualLogs(s, request.oprfBlindedInput, public, BlindEvaluate(s, key, request.oprfBlindedInput), key);
    }
  }

  lemma StaleCommitment<P>(cr: Crypto<P>, c: Configuration, older: Registration, newer: Registration, lies: nat,
                           realm: Realm, request: Recover3Request)
    requires |c.realms| < U32_LIMIT
    ensures CommitmentHolds(cr, c, older, StaleEnvironment(cr, c, older, newer, lies), realm, request)
  {
    hide KeyShare, ScalarShare, OprfResult, UnlockKey, EncryptedSecret, CommitmentOf, TagFor, SecretCommitment,
         SignPublicKey, CommitmentMessage, TagMessage;
    if Place(c, realm).Some? {
      var i := Place(c, realm).value;
      assert c.realms[i].id == realm.id;
      assert Authenticated(cr, c, older,
        CommitmentMessage(c.realms[i].id, cr.suite.scalarBytes(ScalarShare(cr, older, i).secret),
                          EncryptedSecret(cr, c, older)));
    }
  }

  lemma StaleUnforgeable<P(!new)>(cr: Crypto<P>, c: Configuration, older: Registration, newer: Registration, lies: nat)
    requires |c.realms| < U32_LIMIT && IsCrypto(cr)
    ensures Unforgeable(cr, c, older, StaleEnvironment(cr, c, older, newer, lies))
  {
    hide StaleEnvironment, SignatureHolds, ProofHolds, CommitmentHolds, IsCrypto;
    var env := StaleEnvironment(cr, c, older, newer, lies);
    forall realm, request ensures SignatureHolds(cr, c, older, env, realm, request) {
      StaleSignature(cr, c, older, newer, lies, realm, request);
    }
    forall realm, request ensures ProofHolds(cr, env, realm, request) {
      StaleProof(cr, c, older, newer, lies, realm, request);
    }
    forall realm, request ensures CommitmentHolds(cr, c, older, env, realm, request) {
      StaleCommitment(cr, c, older, newer, lies, realm, request);
    }
  }

  lemma StaleIsEnvironment<P>(cr: Crypto<P>, c: Configuration, older: Registration, newer: Registration, lies: nat)
    requires |c.realms| < U32_LIMIT
    ensures IsEnvironment(StaleEnvironment(cr, c, older, newer, lies))
  {
  }

  lemma StaleServes<P(!new)>(cr: Crypto<P>, c: Configuration, older: Registration, newer: Registration, lies: nat,
                             i: nat)
    requires Acceptable(c) && i < |c.realms| && !MovesOn(c, lies, i) && older.numGuesses >= 1
    ensures var state := Stored(cr, c, older, i);
            Serves(cr, c, older, StaleEnvironment(cr, c, older, newer, lies), c.realms[i],
                   Sighting(state, state, state, 0))
  {
    hide KeyShare, ScalarShare, OprfResult, UnlockKey, EncryptedSecret, CommitmentOf, TagFor, SecretCommitment,
         SignPublicKey, BlindEvaluate, GenerateProof, Acceptable, Position;
    ThresholdBound(c);
    PlaceOf(c, i);
    var j := RealmIndex(c, c.realms[i]);
    SamePlace(c, i, j);
    var env, state := StaleEnvironment(cr, c, older, newer, lies), Stored(cr, c, older, i);
    var seen := Sighting(state, state, state, 0);
    forall request ensures Replies2(cr, env, c.realms[i], seen, request) {
    }
    forall request ensures Replies3(env, c.realms[i], seen, request) {
    }
  }

  lemma SamePlace(c: Configuration, i: nat, j: nat)
    requires Acceptable(c) && i < |c.realms| && j < |c.realms| && c.realms[i] == c.realms[j]
    ensures i == j
  {
    SameRealm(c.realms, i, j);
  }

  lemma DifferentPlaces(c: Configuration, i: nat, j: nat)
    requires Acceptable(c) && i < |c.realms| && j < |c.realms| && i != j
    ensures c.realms[i] != c.realms[j]
  {
  }

  // ---- the older registration is still recovered ----

  /** Places that serve the older registration: the liars and those the newer one never reached. */
  function ServingPlaces(c: Configuration, lies: nat): (realms: seq<Realm>)
    requires c.registerThreshold <= |c.realms|
    ensures |realms| == Liars(c, lies) + (|c.realms| - c.registerThreshold)
  {
    c.realms[..Liars(c, lies)] + c.realms[c.registerThreshold..]
  }

  lemma ServingPlace(c: Configuration, lies: nat, realm: Realm) returns (i: nat)
    requires Acceptable(c) && realm in ServingPlaces(c, lies)
    ensures i < |c.realms| && c.realms[i] == realm && !MovesOn(c, lies, i) && Place(c, realm) == Some(i)
  {
    hide Acceptable, Place;
    ThresholdBound(c);
    var serving, n := ServingPlaces(c, lies), Liars(c, lies);
    var k :| 0 <= k < |serving| && serving[k] == realm;
    i := if k < n then k else k - n + c.registerThreshold;
    PlaceOf(c, i);
  }

  lemma ThresholdBound(c: Configuration)
    requires Acceptable(c)
    ensures c.registerThreshold <= |c.realms| < U32_LIMIT && 0 < c.recoverThreshold <= |c.realms|
  {
  }

  lemma ServingUnique(c: Configuration, lies: nat)
    requires Acceptable(c)
    ensures Unique(ServingPlaces(c, lies))
  {
    RealmsUnique(c);
    var serving, n := ServingPlaces(c, lies), Liars(c, lies);
    forall i, j | 0 <= i < j < |serving| ensures serving[i] != serving[j] {
      var x, y := if i < n then i else i - n + c.registerThreshold, if j < n then j else j - n + c.registerThreshold;
      assert serving[i] == c.realms[x] && serving[j] == c.realms[y] && x < y;
    }
  }

  ghost function ServingSightings<P>(cr: Crypto<P>, c: Configuration, older: Registration,
                                     lies: nat): map<Realm, Sighting>
    requires Acceptable(c)
  {
    map realm | realm in ServingPlaces(c, lies) ::
      var i := if Place(c, realm).Some? && Place(c, realm).value < |c.realms| then Place(c, realm).value else 0;
      var state := Stored(cr, c, older, i);
      Sighting(state, state, state, 0)
  }

  lemma ServingSighting<P>(cr: Crypto<P>, c: Configuration, older: Registration, lies: nat, realm: Realm, i: nat)
    requires Acceptable(c) && realm in ServingPlaces(c, lies) && i < |c.realms| && Place(c, realm) == Some(i)
    ensures realm in ServingSightings(cr, c, older, lies)
    ensures var state := Stored(cr, c, older, i);
            ServingSightings(cr, c, older, lies)[realm] == Sighting(state, state, state, 0)
  {
    hide Stored, Place;
  }

  lemma ServingCount<P>(cr: Crypto<P>, c: Configuration, older: Registration, lies: nat)
    requires Acceptable(c)
    ensures |ServingSightings(cr, c, older, lies)| == Liars(c, lies) + (|c.realms| - c.registerThreshold)
  {
    hide Stored, Place;
    ServingUnique(c, lies);
    UniqueCount(ServingPlaces(c, lies));
    assert ServingSightings(cr, c, older, lies).Keys == (set realm | realm in ServingPlaces(c, lies));
    assert |ServingSightings(cr, c, older, lies).Keys| == |ServingSightings(cr, c, older, lies)|;
  }

  lemma StaleAllServe<P(!new)>(cr: Crypto<P>, c: Configuration, older: Registration, newer: Registration, lies: nat)
    requires Acceptable(c) && older.numGuesses >= 1
    requires c.registerThreshold + c.recoverThreshold <= |c.realms| + lies
    ensures var good := ServingSightings(cr, c, older, lies);
            AllServe(cr, c, older, StaleEnvironment(cr, c, older, newer, lies), good) && |good| >= c.recoverThreshold
  {
    hide Acceptable, Stored, Place, StaleEnvironment, Serves, ServingSightings, MovesOn;
    ThresholdBound(c);
    ServingCount(cr, c, older, lies);
    var good := ServingSightings(cr, c, older, lies);
    forall realm | realm in good
      ensures realm in RealmsOf(c) &&
              Serves(cr, c, older, StaleEnvironment(cr, c, older, newer, lies), realm, good[realm])
    {
      ServingKeys(cr, c, older, lies, realm);
      var i := ServingPlace(c, lies, realm);
      ServingSighting(cr, c, older, lies, realm, i);
      StaleServes(cr, c, older, newer, lies, i);
    }
  }

  lemma ServingKeys<P>(cr: Crypto<P>, c: Configuration, older: Registration, lies: nat, realm: Realm)
    requires Acceptable(c) && realm in ServingSightings(cr, c, older, lies)
    ensures realm in ServingPlaces(c, lies)
  {
  }

  lemma StaleNoPanics<P>(cr: Crypto<P>, c: Configuration, older: Registration, newer: Registration, lies: nat,
                         blinding: int)
    requires Acceptable(c)
    ensures IsEnvironment(StaleEnvironment(cr, c, older, newer, lies))
    ensures !AnyPanics(cr, c, StaleEnvironment(cr, c, older, newer, lies), older, blinding)
  {
    hide View, Place, Phase1, MovesOn, Recover2Reply, Recover3Reply, Acceptable, HashPin, UnlockKey, TagFor, Start;
    ThresholdBound(c);
    StaleIsEnvironment(cr, c, older, newer, lies);
    var env := StaleEnvironment(cr, c, older, newer, lies);
    forall realm ensures !Panics(env.answer1(realm)) {
    }
    forall realm, request ensures !Panics(env.answer2(realm, request)) {
    }
    forall realm, request ensures !Panics(env.answer3(realm, request)) {
    }
  }

  lemma StaleRecovers<P(!new)>(cr: Crypto<P>, c: Configuration, older: Registration, newer: Registration, lies: nat,
                               blinding: int)
    requires IsCrypto(cr) && Acceptable(c) && WellFormed(cr, c, older) && older.numGuesses >= 1
    requires c.registerThreshold + c.recoverThreshold <= |c.realms| + lies && !Same(cr.suite.field, blinding, 0)
    ensures IsEnvironment(StaleEnvironment(cr, c, older, newer, lies))
    ensures Recover(cr, c, StaleEnvironment(cr, c, older, newer, lies), older.pin, older.info, blinding) ==
            Recovered(older.secret)
  {
    hide IsCrypto, WellFormed, Recover, StaleEnvironment, Unforgeable, AllServe, Acceptable, ServingSightings,
         AnyPanics;
    ThresholdBound(c);
    StaleNoPanics(cr, c, older, newer, lies, blinding);
    StaleUnforgeable(cr, c, older, newer, lies);
    StaleAllServe(cr, c, older, newer, lies);
    RobustRecovery(cr, c, older, StaleEnvironment(cr, c, older, newer, lies), ServingSightings(cr, c, older, lies),
                   blinding);
  }

  lemma StalePhase1<P(!new)>(cr: Crypto<P>, c: Configuration, older: Registration, newer: Registration, lies: nat)
    requires Acceptable(c) && older.numGuesses >= 1
    requires c.registerThreshold + c.recoverThreshold <= |c.realms| + lies
    ensures var env := StaleEnvironment(cr, c, older, newer, lies);
            IsEnvironment(env) && Phase1(c, env).Ok? && Phase1(c, env).value.0 == older.version
  {
    hide StaleEnvironment, ServingSightings, Acceptable, Phase1, Recover1OnRealm, Serves;
    ThresholdBound(c);
    var env, good := StaleEnvironment(cr, c, older, newer, lies), ServingSightings(cr, c, older, lies);
    StaleIsEnvironment(cr, c, older, newer, lies);
    StaleAllServe(cr, c, older, newer, lies);
    forall r | r in good.Keys ensures Recover1OnRealm(env, r) == Ok((older.version, r)) {
      assert r in RealmsOf(c) && Serves(cr, c, older, env, r, good[r]);
      ServesPhase1(cr, c, older, env, r, good[r]);
    }
    assert |good.Keys| == |good|;
    Phase1Finds(c, env, older.version, good.Keys);
  }

  lemma ServesPhase1<P(!new)>(cr: Crypto<P>, c: Configuration, reg: Registration, env: Environment<P>, realm: Realm,
                              seen: Sighting)
    requires Acceptable(c) && realm in c.realms && Serves(cr, c, reg, env, realm, seen)
    ensures Recover1OnRealm(env, realm) == Ok((reg.version, realm))
  {
    hide Recover1OnRealm, Holds, AnswersFrom, HasGuessLeft;
    HonestPhase1(cr, c, reg, env, realm, seen);
  }

  // ---- the run itself ----

  /** Nothing is registered at the honest realms, those behind the liars. */
  ghost function Beginning(c: Configuration, lies: nat): World {
    World(map realm | realm in c.realms && realm !in Front(c, lies) :: NotRegistered, {})
  }

  ghost function Front(c: Configuration, lies: nat): set<Realm> {
    set i | 0 <= i < Liars(c, lies) && i < |c.realms| :: c.realms[i]
  }

  lemma FrontOf(c: Configuration, lies: nat, i: nat)
    requires Acceptable(c) && i < |c.realms|
    ensures c.realms[i] in Front(c, lies) <==> i < Liars(c, lies)
  {
    if c.realms[i] in Front(c, lies) {
      var j :| 0 <= j < Liars(c, lies) && j < |c.realms| && c.realms[j] == c.realms[i];
      SamePlace(c, i, j);
    }
  }

  /** When the i-th realm stores the older registration: after it was begun. */
  function OlderAt(c: Configuration, lies: nat, i: nat): nat
    requires Liars(c, lies) <= i
  {
    1 + (i - Liars(c, lies))
  }

  /** The older registration begun and stored at all honest realms. */
  lemma OlderStored<P>(cr: Crypto<P>, c: Configuration, older: Registration, lies: nat)
    returns (worlds: seq<World>, events: seq<Event<P>>)
    requires Acceptable(c) && WellFormed(cr, c, older)
    ensures IsRun(cr, c, worlds, events) && worlds[0] == Beginning(c, lies)
    ensures worlds[|events|].states.Keys == Beginning(c, lies).states.Keys
    ensures forall i :: Liars(c, lies) <= i < |c.realms| ==>
      c.realms[i] in worlds[|events|].states && worlds[|events|].states[c.realms[i]] == Stored(cr, c, older, i)
    ensures |events| == OlderAt(c, lies, |c.realms|)
    ensures forall i :: Liars(c, lies) <= i < |c.realms| ==> events[OlderAt(c, lies, i)] == Store(c.realms[i], older)
  {
    hide WellFormed, Stored, Acceptable, Beginning;
    ThresholdBound(c);
    var w0 := Beginning(c, lies);
    HonestPlaces(c, lies);
    Alone(cr, c, lies);
    BeginEnabled(cr, c, w0, older);
    var worlds1 := Extend(cr, c, [w0], [], Enroll(older));
    BeginNext(cr, c, w0, older);
    worlds, events := StoreAll(cr, c, worlds1, [Event<P>.Enroll(older)], older, Liars(c, lies), |c.realms|);
  }

  lemma HonestPlaces(c: Configuration, lies: nat)
    requires Acceptable(c)
    ensures forall i :: Liars(c, lies) <= i < |c.realms| ==> c.realms[i] in Beginning(c, lies).states
  {
    forall i | Liars(c, lies) <= i < |c.realms| ensures c.realms[i] in Beginning(c, lies).states {
      FrontOf(c, lies, i);
      assert c.realms[i] in c.realms;
    }
  }

  lemma BeginEnabled<P>(cr: Crypto<P>, c: Configuration, w: World, reg: Registration)
    requires WellFormed(cr, c, reg)
    ensures Enabled(cr, c, w, Enroll(reg))
  {
  }

  lemma BeginNext<P>(cr: Crypto<P>, c: Configuration, w: World, reg: Registration)
    requires Acceptable(c) && OnConfiguration(c, w) && Enabled(cr, c, w, Enroll(reg))
    ensures Next(cr, c, w, Enroll(reg)).states == w.states && reg in Next(cr, c, w, Enroll(reg)).regs
  {
  }

  /** Then the newer one begun, and stored at the realms that move on. */
  lemma BothStored<P>(cr: Crypto<P>, c: Configuration, older: Registration, newer: Registration, lies: nat)
    returns (worlds: seq<World>, events: seq<Event<P>>, start: nat)
    requires Acceptable(c) && WellFormed(cr, c, older) && WellFormed(cr, c, newer)
    ensures IsRun(cr, c, worlds, events) && worlds[0] == Beginning(c, lies)
    ensures worlds[|events|].states.Keys == Beginning(c, lies).states.Keys
    ensures forall i :: Liars(c, lies) <= i < |c.realms| ==>
      c.realms[i] in worlds[|events|].states &&
      worlds[|events|].states[c.realms[i]] == View(cr, c, older, newer, lies, i)
    ensures start == OlderAt(c, lies, |c.realms|) + 1
    ensures |events| == start + (c.registerThreshold - Liars(c, lies)) && events[start - 1] == Enroll(newer)
    ensures forall i :: Liars(c, lies) <= i < |c.realms| ==> events[OlderAt(c, lies, i)] == Store(c.realms[i], older)
    ensures forall i :: Liars(c, lies) <= i < c.registerThreshold ==>
            events[start + (i - Liars(c, lies))] == Store(c.realms[i], newer)
  {
    hide WellFormed, Stored, Acceptable, Beginning, Enabled, Next;
    ThresholdBound(c);
    var worlds1, events1 := OlderStored(cr, c, older, lies);
    RunShape(cr, c, worlds1, events1);
    BeginEnabled(cr, c, worlds1[|events1|], newer);
    var worlds2 := Extend(cr, c, worlds1, events1, Enroll(newer));
    BeginNext(cr, c, worlds1[|events1|], newer);
    var events2 := events1 + [Event<P>.Enroll(newer)];
    start := |events2|;
    worlds, events := StoreAll(cr, c, worlds2, events2, newer, Liars(c, lies), c.registerThreshold);
  }

  lemma Alone<P>(cr: Crypto<P>, c: Configuration, lies: nat)
    requires Acceptable(c)
    ensures IsRun<P>(cr, c, [Beginning(c, lies)], []) && Initial(Beginning(c, lies))
  {
  }

  /** When each realm accepted the newer registration, or said so. */
  ghost function Accepting(c: Configuration, lies: nat, start: nat): map<Realm, nat>
    requires c.registerThreshold <= |c.realms|
  {
    map realm | realm in c.realms[..c.registerThreshold] ::
      if Place(c, realm).Some? && Place(c, realm).value >= Liars(c, lies)
      then start + (Place(c, realm).value - Liars(c, lies))
      else 0
  }

  lemma AcceptingCount(c: Configuration, lies: nat, start: nat)
    requires Acceptable(c)
    ensures var accepting := Accepting(c, lies, start);
            |accepting| == c.registerThreshold && accepting.Keys <= RealmsOf(c)
  {
    hide Place;
    RealmsUnique(c);
    var front := c.realms[..c.registerThreshold];
    assert Unique(front);
    UniqueCount(front);
    var accepting := Accepting(c, lies, start);
    assert accepting.Keys == (set realm | realm in front);
    assert |accepting.Keys| == |accepting|;
  }

  lemma AcceptingAt(c: Configuration, lies: nat, start: nat, realm: Realm) returns (i: nat)
    requires Acceptable(c) && realm in Accepting(c, lies, start)
    ensures i < c.registerThreshold && i < |c.realms| && c.realms[i] == realm
    ensures i >= Liars(c, lies) ==> Accepting(c, lies, start)[realm] == start + (i - Liars(c, lies))
  {
    hide Place;
    i :| 0 <= i < c.registerThreshold && c.realms[i] == realm;
    PlaceOf(c, i);
  }

  /** The realms that the newer registration never reached, and when they stored the older one. */
  ghost function Histories(c: Configuration, lies: nat, end: nat): map<Realm, History>
    requires c.registerThreshold <= |c.realms|
  {
    map realm | realm in c.realms[c.registerThreshold..] ::
      History(if Place(c, realm).Some? &&
              Place(c, realm).value >= Liars(c, lies) then OlderAt(c, lies, Place(c, realm).value) else 0,
              Moments(end, end, end, 0))
  }

  /**
   A run in which the newer registration succeeds and phase 1 afterwards finds the older one. All
   realms but at most `lies` are honest, and everything heard of them comes from their states.
   The older registration was stored in this run and is still held by the realms of `histories`.
   */
  lemma StaleRun<P(!new)>(cr: Crypto<P>, c: Configuration, older: Registration, newer: Registration, lies: nat)
    returns (worlds: seq<World>, events: seq<Event<P>>, env: Environment<P>, accepting: map<Realm, nat>,
             asked: map<Realm, nat>, histories: map<Realm, History>)
    requires Acceptable(c) && WellFormed(cr, c, older) && WellFormed(cr, c, newer) && older.numGuesses >= 1
    requires c.registerThreshold + c.recoverThreshold <= |c.realms| + lies
    ensures env == StaleEnvironment(cr, c, older, newer, lies) && IsEnvironment(env)
    ensures Succeeded(cr, c, worlds, events, env, accepting, asked, older.version, newer, lies)
    ensures |c.realms| <= |worlds[0].states| + lies
    ensures forall realm :: realm in worlds[0].states ==> HonestIn(cr, worlds, env, realm, |events|)
    ensures |histories| + lies >= c.recoverThreshold
    ensures forall realm :: realm in histories ==>
      realm in worlds[0].states &&
      StoredBefore(cr, worlds, events, env, older, realm, histories[realm].stored, histories[realm].moments)
    ensures Phase1(c, env).Ok? && Phase1(c, env).value.0 == older.version
  {
    hide WellFormed, StaleEnvironment, IsRun, Initial, Beginning, View, Stored, Phase1, Accepting, Acceptable, Heard1,
         AcceptedAt, Recover1OnRealm, IsEnvironment, HonestIn, StoredBefore, Histories;
    ThresholdBound(c);
    StalePhase1(cr, c, older, newer, lies);
    Alone(cr, c, lies);
    var start;
    worlds, events, start := BothStored(cr, c, older, newer, lies);
    RunShape(cr, c, worlds, events);
    env, accepting := StaleEnvironment(cr, c, older, newer, lies), Accepting(c, lies, start);
    asked := map realm | realm in worlds[0].states :: |events|;
    histories := Histories(c, lies, |events|);
    AcceptingCount(c, lies, start);
    HonestCount(c, lies);
    HistoriesCount(c, lies, |events|);
    forall realm | realm in worlds[0].states
      ensures HonestIn(cr, worlds, env, realm, |events|) && Heard1(worlds, env, realm, |events|)
    {
      var i := HonestPlace(c, lies, realm);
      HeardView(cr, c, older, newer, lies, worlds, events, i);
    }
    forall realm | realm in accepting && realm in asked
      ensures HonestAccepted(worlds, events, env, realm, accepting[realm], newer, asked[realm])
    {
      var i := AcceptingAt(c, lies, start, realm);
      var j := HonestPlace(c, lies, realm);
      SamePlace(c, i, j);
      StoredLast(c, lies, events, start, newer, i);
    }
    forall realm | realm in histories
      ensures realm in worlds[0].states
      ensures StoredBefore(cr, worlds, events, env, older, realm, histories[realm].stored, histories[realm].moments)
    {
      var i := HistoryAt(c, lies, |events|, realm);
      OlderHeld(cr, c, older, newer, lies, worlds, events, start, i);
    }
    FewTwoFaced(c, lies, start, worlds, env, older.version);
  }

  lemma HonestCount(c: Configuration, lies: nat)
    requires Acceptable(c)
    ensures |c.realms| <= |Beginning(c, lies).states| + lies
    ensures lies == 0 ==> Beginning(c, lies).states.Keys == RealmsOf(c)
  {
    RealmsUnique(c);
    ThresholdBound(c);
    var n := Liars(c, lies);
    var honest := c.realms[n..];
    assert Unique(honest);
    UniqueCount(honest);
    var keys := Beginning(c, lies).states.Keys;
    forall r ensures r in honest <==> r in keys {
      if r in honest {
        var k :| 0 <= k < |honest| && honest[k] == r;
        FrontOf(c, lies, n + k);
        assert c.realms[n + k] in c.realms;
      }
      if r in keys {
        var i := HonestPlace(c, lies, r);
        assert honest[i - n] == r;
      }
    }
    assert keys == (set r | r in honest);
    assert |Beginning(c, lies).states| == |keys|;
    if lies == 0 {
      assert honest == c.realms;
    }
  }

  lemma HistoriesCount(c: Configuration, lies: nat, end: nat)
    requires Acceptable(c)
    ensures |Histories(c, lies, end)| == |c.realms| - c.registerThreshold
  {
    hide Place;
    RealmsUnique(c);
    ThresholdBound(c);
    var back := c.realms[c.registerThreshold..];
    assert Unique(back);
    UniqueCount(back);
    assert Histories(c, lies, end).Keys == (set realm | realm in back);
    assert |Histories(c, lies, end).Keys| == |Histories(c, lies, end)|;
  }

  lemma HistoryAt(c: Configuration, lies: nat, end: nat, realm: Realm) returns (i: nat)
    requires Acceptable(c) && realm in Histories(c, lies, end)
    ensures Liars(c, lies) <= c.registerThreshold <= i < |c.realms| && c.realms[i] == realm
    ensures Histories(c, lies, end)[realm] == History(OlderAt(c, lies, i), Moments(end, end, end, 0))
  {
    hide Place;
    i :| c.registerThreshold <= i < |c.realms| && c.realms[i] == realm;
    PlaceOf(c, i);
  }

  /** A realm that never stored the newer registration has held the older one to the end. */
  lemma OlderHeld<P(!new)>(cr: Crypto<P>, c: Configuration, older: Registration, newer: Registration, lies: nat,
                           worlds: seq<World>, events: seq<Event<P>>, start: nat, i: nat)
    requires Acceptable(c) && older.numGuesses >= 1 && Liars(c, lies) <= c.registerThreshold <= i < |c.realms|
    requires |worlds| == |events| + 1 && worlds[|events|].states.Keys == Beginning(c, lies).states.Keys
    requires c.realms[i] in worlds[|events|].states
    requires worlds[|events|].states[c.realms[i]] == View(cr, c, older, newer, lies, i)
    requires start == OlderAt(c, lies, |c.realms|) + 1
    requires |events| == start + (c.registerThreshold - Liars(c, lies)) && events[start - 1] == Enroll(newer)
    requires forall j :: Liars(c, lies) <= j < |c.realms| ==> events[OlderAt(c, lies, j)] == Store(c.realms[j], older)
    requires forall j :: Liars(c, lies) <= j < c.registerThreshold ==>
             events[start + (j - Liars(c, lies))] == Store(c.realms[j], newer)
    ensures c.realms[i] in Beginning(c, lies).states
    ensures StoredBefore(cr, worlds, events, StaleEnvironment(cr, c, older, newer, lies), older, c.realms[i],
                         OlderAt(c, lies, i), Moments(|events|, |events|, |events|, 0))
  {
    hide Acceptable, Beginning, Stored, StaleEnvironment, Holds, AnswersFrom;
    ThresholdBound(c);
    OlderUndisturbed(c, older, newer, lies, events, start, i);
    StaleServes(cr, c, older, newer, lies, i);
    var end := |events|;
    assert SightingAt(worlds, c.realms[i], Moments(end, end, end, 0)) ==
           Sighting(Stored(cr, c, older, i), Stored(cr, c, older, i), Stored(cr, c, older, i), 0);
  }

  lemma OlderUndisturbed<P>(c: Configuration, older: Registration, newer: Registration, lies: nat,
                            events: seq<Event<P>>, start: nat, i: nat)
    requires Acceptable(c) && Liars(c, lies) <= c.registerThreshold <= i < |c.realms|
    requires start == OlderAt(c, lies, |c.realms|) + 1
    requires |events| == start + (c.registerThreshold - Liars(c, lies)) && events[start - 1] == Enroll(newer)
    requires forall j :: Liars(c, lies) <= j < |c.realms| ==> events[OlderAt(c, lies, j)] == Store(c.realms[j], older)
    requires forall j :: Liars(c, lies) <= j < c.registerThreshold ==>
             events[start + (j - Liars(c, lies))] == Store(c.realms[j], newer)
    ensures Undisturbed(events, c.realms[i], OlderAt(c, lies, i) + 1, |events|)
  {
    hide Acceptable;
    var n := Liars(c, lies);
    forall k | OlderAt(c, lies, i) + 1 <= k < |events|
      ensures events[k].Store? || events[k].Erase? ==> events[k].realm != c.realms[i]
    {
      if k < start - 1 {
        var j := k - 1 + n;
        assert events[OlderAt(c, lies, j)] == Store(c.realms[j], older);
        DifferentPlaces(c, i, j);
      } else if k >= start {
        var j := k - start + n;
        assert events[start + (j - n)] == Store(c.realms[j], newer);
        DifferentPlaces(c, i, j);
      }
    }
  }

  /**
   For every configuration that violates the condition: in such a run the older PIN recovers the
   older secret after the newer registration succeeded. Without lies all realms are honest.
   */
  lemma StaleRecovery<P(!new)>(cr: Crypto<P>, c: Configuration, older: Registration, newer: Registration, lies: nat,
                               blinding: int)
    returns (worlds: seq<World>, events: seq<Event<P>>, env: Environment<P>, accepting: map<Realm, nat>,
             asked: map<Realm, nat>, histories: map<Realm, History>)
    requires IsCrypto(cr) && Acceptable(c) && WellFormed(cr, c, older) && WellFormed(cr, c, newer)
    requires older.numGuesses >= 1 && !Same(cr.suite.field, blinding, 0)
    requires c.registerThreshold + c.recoverThreshold <= |c.realms| + lies
    ensures Succeeded(cr, c, worlds, events, env, accepting, asked, older.version, newer, lies)
    ensures |c.realms| <= |worlds[0].states| + lies
    ensures forall realm :: realm in worlds[0].states ==> HonestIn(cr, worlds, env, realm, |events|)
    ensures |histories| + lies >= c.recoverThreshold
    ensures forall realm :: realm in histories ==>
      realm in worlds[0].states &&
      StoredBefore(cr, worlds, events, env, older, realm, histories[realm].stored, histories[realm].moments)
    ensures IsEnvironment(env) && Recover(cr, c, env, older.pin, older.info, blinding) == Recovered(older.secret)
  {
    hide IsCrypto, Acceptable, WellFormed, Succeeded, HonestIn, StoredBefore, Recover, StaleEnvironment, IsEnvironment;
    worlds, events, env, accepting, asked, histories := StaleRun(cr, c, older, newer, lies);
    StaleRecovers(cr, c, older, newer, lies, blinding);
  }

  lemma HonestPlace(c: Configuration, lies: nat, realm: Realm) returns (i: nat)
    requires Acceptable(c) && realm in Beginning(c, lies).states
    ensures Liars(c, lies) <= i < |c.realms| && c.realms[i] == realm
  {
    i :| 0 <= i < |c.realms| && c.realms[i] == realm;
    FrontOf(c, lies, i);
  }

  lemma HeardView<P(!new)>(cr: Crypto<P>, c: Configuration, older: Registration, newer: Registration, lies: nat,
                     worlds: seq<World>, events: seq<Event<P>>, i: nat)
    requires Acceptable(c) && i < |c.realms| && |events| < |worlds| && c.realms[i] in worlds[|events|].states
    requires worlds[|events|].states[c.realms[i]] == View(cr, c, older, newer, lies, i)
    ensures HonestIn(cr, worlds, StaleEnvironment(cr, c, older, newer, lies), c.realms[i], |events|)
    ensures Heard1(worlds, StaleEnvironment(cr, c, older, newer, lies), c.realms[i], |events|)
  {
    hide Record, Place, Recover1Reply, Recover2Reply, Recover3Reply;
    PlaceOf(c, i);
    var env, state := StaleEnvironment(cr, c, older, newer, lies), View(cr, c, older, newer, lies, i);
    forall request ensures HeardFrom(cr, env, c.realms[i], Service(state, 0), request) {
    }
    forall request ensures Heard3(env, c.realms[i], state, request) {
    }
  }

  /** The stores of the newer registration end the run, one for each place. */
  lemma StoredLast<P>(c: Configuration, lies: nat, events: seq<Event<P>>, start: nat, newer: Registration, i: nat)
    requires Acceptable(c) && Liars(c, lies) <= i < c.registerThreshold
    requires |events| == start + (c.registerThreshold - Liars(c, lies))
    requires forall j :: Liars(c, lies) <= j < c.registerThreshold ==>
             events[start + (j - Liars(c, lies))] == Store(c.realms[j], newer)
    ensures AcceptedAt(events, c.realms[i], newer, start + (i - Liars(c, lies)))
  {
    var n := Liars(c, lies);
    forall k | start + (i - n) + 1 <= k < |events| ensures events[k].Store? && events[k].realm != c.realms[i] {
      var j := k - start + n;
      assert events[start + (j - n)] == Store(c.realms[j], newer);
      DifferentPlaces(c, i, j);
    }
  }

  lemma FewTwoFaced<P>(c: Configuration, lies: nat, start: nat, worlds: seq<World>, env: Environment<P>, older: Version)
    requires Acceptable(c) && |worlds| > 0 && worlds[0] == Beginning(c, lies)
    ensures |TwoFaced(worlds, env, Accepting(c, lies, start), older)| <= lies
  {
    hide Recover1OnRealm, Accepting;
    RealmsUnique(c);
    var front := c.realms[..Liars(c, lies)];
    assert Unique(front);
    UniqueCount(front);
    var lying := TwoFaced(worlds, env, Accepting(c, lies, start), older);
    forall r | r in lying ensures r in front {
      var i := AcceptingAt(c, lies, start, r);
      FrontOf(c, lies, i);
      assert r in c.realms;
      assert front[i] == r;
    }
    SubsetCount(lying, (set r | r in front));
  }
}
