/**
 Runs of the whole system: honest realms that follow the protocol's rules while any number of
 clients register, recover and delete in any interleaving. Realms outside `states` are the
 ones that may lie; nothing is assumed of them here.
 */
module Worlds {
  import opened Wrappers
  import opened Fields
  import opened Configurations
  import opened Requests
  import opened Registrations
  import opened Recovery
  import opened Realms

  /** The honest realms' states, and every registration begun so far. */
  datatype World = World(states: map<Realm, RealmState>, regs: set<Registration>)

  datatype Event<P> =
    | Enroll(reg: Registration)
    | Store(realm: Realm, reg: Registration)
    | Erase(realm: Realm)
    | Ask1(realm: Realm)
    | Ask2(realm: Realm, request2: Recover2Request<P>, session: nat)
    | Ask3(realm: Realm, request3: Recover3Request, session: nat)

  /** The registration request that belongs to a realm. */
  function RecordFor<P>(cr: Crypto<P>, c: Configuration, reg: Registration, realm: Realm): Register2Request
    requires |c.realms| < U32_LIMIT && Position(c.realms, realm.id).Some?
    requires Position(c.realms, realm.id).value < |c.realms|
  {
    Record(cr, c, reg, Position(c.realms, realm.id).value)
  }

  lemma RealmIndex(c: Configuration, realm: Realm) returns (i: nat)
    requires Acceptable(c) && realm in c.realms
    ensures i < |c.realms| && c.realms[i] == realm && Position(c.realms, realm.id) == Some(i)
  {
    i :| 0 <= i < |c.realms| && c.realms[i] == realm;
    PositionFinds(c.realms, realm.id);
    SameRealm(c.realms, i, Position(c.realms, realm.id).value);
  }

  /** A request reaches a realm only if some client prepared it for that realm. */
  ghost predicate Enabled<P>(cr: Crypto<P>, c: Configuration, w: World, e: Event<P>) {
    match e
    case Enroll(reg) => WellFormed(cr, c, reg)
    case Store(realm, reg) => realm in w.states && reg in w.regs
    case Erase(realm) => realm in w.states
    case Ask1(realm) => realm in w.states
    case Ask2(realm, _, _) => realm in w.states
    case Ask3(realm, _, _) => realm in w.states
  }

  ghost predicate OnConfiguration(c: Configuration, w: World) {
    forall realm :: realm in w.states ==> realm in c.realms
  }

  ghost function Next<P>(cr: Crypto<P>, c: Configuration, w: World, e: Event<P>): World
    requires Acceptable(c) && OnConfiguration(c, w) && Enabled(cr, c, w, e)
  {
    match e
    case Enroll(reg) => w.(regs := w.regs + {reg})
    case Store(realm, reg) =>
      PositionFinds(c.realms, realm.id);
      w.(states := w.states[realm := Registered(RecordFor(cr, c, reg, realm), 0)])
    case Erase(realm) => w.(states := w.states[realm := NotRegistered])
    case Ask1(realm) => w.(states := w.states[realm := AfterRecover1(w.states[realm])])
    case Ask2(realm, request, _) => w.(states := w.states[realm := AfterRecover2(w.states[realm], request)])
    case Ask3(realm, request, _) => w.(states := w.states[realm := AfterRecover3(w.states[realm], request)])
  }

  /** Consecutive worlds of a run differ by one enabled event. */
  ghost predicate IsRun<P>(cr: Crypto<P>, c: Configuration, worlds: seq<World>, events: seq<Event<P>>) {
    && Acceptable(c)
    && |worlds| == |events| + 1
    && (forall i :: 0 <= i < |worlds| ==> OnConfiguration(c, worlds[i]))
    && (forall i {:trigger StepAt(cr, c, worlds, events, i)} :: 0 <= i < |events| ==> StepAt(cr, c, worlds, events, i))
  }

  ghost predicate StepAt<P>(cr: Crypto<P>, c: Configuration, worlds: seq<World>, events: seq<Event<P>>, i: nat)
    requires Acceptable(c) && i < |events| < |worlds| && OnConfiguration(c, worlds[i])
  {
    Enabled(cr, c, worlds[i], events[i]) && worlds[i + 1] == Next(cr, c, worlds[i], events[i])
  }

  /** Nobody has registered yet. */
  ghost predicate Initial(w: World) {
    w.regs == {} && forall realm :: realm in w.states ==> w.states[realm] == NotRegistered
  }

  /** What a registered realm holds was prepared for it by one of the registrations. */
  ghost predicate FromRegistrations<P>(cr: Crypto<P>, c: Configuration, regs: set<Registration>, realm: Realm,
                                       state: RealmState)
    requires Acceptable(c) && realm in c.realms
  {
    && Consistent(state)
    && (state.Registered? ==> exists reg :: reg in regs && Holds(cr, c, reg, realm, state))
  }

  ghost predicate Holds<P>(cr: Crypto<P>, c: Configuration, reg: Registration, realm: Realm, state: RealmState)
    requires Acceptable(c) && realm in c.realms
  {
    PositionFinds(c.realms, realm.id);
    state.Registered? && state.registration == RecordFor(cr, c, reg, realm)
  }

  /** What a realm that holds a registration has of it. */
  lemma HeldRecord<P>(cr: Crypto<P>, c: Configuration, reg: Registration, realm: Realm, state: RealmState)
    requires Acceptable(c) && realm in c.realms && Holds(cr, c, reg, realm, state)
    ensures state.Registered? && state.registration.version == reg.version
    ensures state.registration.numGuesses == reg.numGuesses
    ensures state.registration.unlockKeyTag == TagFor(cr, UnlockKey(cr, c, reg), realm.id)
  {
    hide KeyShare, ScalarShare, SignPublicKey, OprfResult, UnlockKey, EncryptedSecret, CommitmentOf, TagFor,
         SecretCommitment;
    var i := RealmIndex(c, realm);
  }

  ghost predicate Invariant<P>(cr: Crypto<P>, c: Configuration, w: World)
    requires Acceptable(c) && OnConfiguration(c, w)
  {
    && (forall reg :: reg in w.regs ==> WellFormed(cr, c, reg))
    && (forall realm :: realm in w.states ==> FromRegistrations(cr, c, w.regs, realm, w.states[realm]))
  }

  lemma StateStep<P>(cr: Crypto<P>, c: Configuration, w: World, e: Event<P>, realm: Realm)
    requires Acceptable(c) && OnConfiguration(c, w) && Enabled(cr, c, w, e) && Invariant(cr, c, w)
    requires realm in Next(cr, c, w, e).states
    ensures realm in w.states && FromRegistrations(cr, c, Next(cr, c, w, e).regs, realm,
                                                   Next(cr, c, w, e).states[realm])
  {
    hide Record;
    var w' := Next(cr, c, w, e);
    assert realm in w.states && FromRegistrations(cr, c, w.regs, realm, w.states[realm]);
    if e.Store? && e.realm == realm {
      assert Holds(cr, c, e.reg, realm, w'.states[realm]);
    } else if w'.states[realm].Registered? {
      var reg :| reg in w.regs && Holds(cr, c, reg, realm, w.states[realm]);
      assert reg in w'.regs && Holds(cr, c, reg, realm, w'.states[realm]);
    }
  }

  lemma InvariantStep<P>(cr: Crypto<P>, c: Configuration, w: World, e: Event<P>)
    requires Acceptable(c) && OnConfiguration(c, w) && Enabled(cr, c, w, e) && Invariant(cr, c, w)
    ensures OnConfiguration(c, Next(cr, c, w, e)) && Invariant(cr, c, Next(cr, c, w, e))
    ensures Next(cr, c, w, e).states.Keys == w.states.Keys && w.regs <= Next(cr, c, w, e).regs
  {
    hide Record, FromRegistrations, AfterRecover1, AfterRecover2, AfterRecover3;
    var w' := Next(cr, c, w, e);
    assert w'.states.Keys == w.states.Keys;
    forall realm | realm in w'.states
      ensures realm in c.realms && FromRegistrations(cr, c, w'.regs, realm, w'.states[realm])
    {
      StateStep(cr, c, w, e, realm);
    }
  }

  /** Every state of every run is consistent with the registrations begun so far. */
  lemma {:induction false} InvariantHolds<P>(cr: Crypto<P>, c: Configuration, worlds: seq<World>,
                                             events: seq<Event<P>>, n: nat)
    requires IsRun(cr, c, worlds, events) && Initial(worlds[0]) && n < |worlds|
    ensures Invariant(cr, c, worlds[n])
    ensures worlds[n].states.Keys == worlds[0].states.Keys
  {
    if n > 0 {
      hide Next, Enabled, Invariant;
      InvariantHolds(cr, c, worlds, events, n - 1);
      assert StepAt(cr, c, worlds, events, n - 1);
      InvariantStep(cr, c, worlds[n - 1], events[n - 1]);
    }
  }

  lemma {:induction false} RegistrationsGrow<P>(cr: Crypto<P>, c: Configuration, worlds: seq<World>,
                                                events: seq<Event<P>>, m: nat, n: nat)
    requires IsRun(cr, c, worlds, events) && m <= n < |worlds|
    ensures worlds[m].regs <= worlds[n].regs
  {
    if m < n {
      hide Enabled;
      RegistrationsGrow(cr, c, worlds, events, m, n - 1);
      assert StepAt(cr, c, worlds, events, n - 1);
    }
  }

  // ---- what one recovery sees of honest realms ----

  /** A realm's state at the moments it served the three requests, and its proof randomness. */
  datatype Sighting = Sighting(state1: RealmState, state2: RealmState, state3: RealmState, betaT: int)

  /** The state in which a realm served the request of phase 2, and its proof randomness. */
  datatype Service = Service(state: RealmState, betaT: int)

  /** The client never got the realm's answer to this request, or it is the one its state calls for. */
  ghost predicate HeardFrom<P>(cr: Crypto<P>, env: Environment<P>, realm: Realm, served: Service,
                               request: Recover2Request<P>) {
    || env.answer2(realm, request).Err?
    || env.answer2(realm, request) == Ok(Recover2Response(Recover2Reply(cr.suite, served.state, request, served.betaT)))
  }

  ghost predicate Replies2<P>(cr: Crypto<P>, env: Environment<P>, realm: Realm, seen: Sighting,
                              request: Recover2Request<P>) {
    env.answer2(realm, request) == Ok(Recover2Response(Recover2Reply(cr.suite, seen.state2, request, seen.betaT)))
  }

  ghost predicate Replies3<P>(env: Environment<P>, realm: Realm, seen: Sighting, request: Recover3Request)
    requires Consistent(seen.state3)
  {
    env.answer3(realm, request) == Ok(Recover3Response(Recover3Reply(seen.state3, request)))
  }

  /** The realm's answers are those of its states. */
  ghost predicate AnswersFrom<P(!new)>(cr: Crypto<P>, env: Environment<P>, realm: Realm, seen: Sighting) {
    && Consistent(seen.state3)
    && env.answer1(realm) == Ok(Recover1Response(Recover1Reply(seen.state1)))
    && (forall request :: Replies2(cr, env, realm, seen, request))
    && (forall request :: Replies3(env, realm, seen, request))
  }
}
