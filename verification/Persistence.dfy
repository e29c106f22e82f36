/**
 Registrations over runs: once a realm has stored one it keeps serving it, whatever other clients
 do, until somebody stores another, deletes it or uses up its guesses. Hence recovery finds it.
 */
module Persistence {
  import opened Fields
  import opened Configurations
  import opened Requests
  import opened Shuffles
  import opened Join
  import opened Gathering
  import opened Registrations
  import opened Recovery
  import opened Authenticity
  import opened Guarantees
  import opened Realms
  import opened Worlds
  import opened Promises

  /** Nobody registers or deletes at this realm between two moments of the run. */
  ghost predicate Undisturbed<P>(events: seq<Event<P>>, realm: Realm, m: nat, n: nat)
    requires n <= |events|
  {
    forall k :: m <= k < n ==> (events[k].Store? || events[k].Erase? ==> events[k].realm != realm)
  }

  lemma {:induction false} Persists<P>(cr: Crypto<P>, c: Configuration, worlds: seq<World>, events: seq<Event<P>>,
                                       reg: Registration, realm: Realm, m: nat, n: nat)
    requires IsRun(cr, c, worlds, events) && m <= n <= |events| && realm in c.realms
    requires realm in worlds[m].states && Holds(cr, c, reg, realm, worlds[m].states[realm])
    requires Undisturbed(events, realm, m, n)
    requires realm in worlds[n].states && worlds[n].states[realm] != NoGuesses
    ensures Holds(cr, c, reg, realm, worlds[n].states[realm])
  {
    hide IsRun, Holds;
    if m < n {
      RunStep(cr, c, worlds, events, n - 1);
      StepKeeps(cr, c, worlds[n - 1], events[n - 1], reg, realm);
      Persists(cr, c, worlds, events, reg, realm, m, n - 1);
    }
  }

  lemma RunStep<P>(cr: Crypto<P>, c: Configuration, worlds: seq<World>, events: seq<Event<P>>, n: nat)
    requires IsRun(cr, c, worlds, events) && n < |events|
    ensures |worlds| == |events| + 1 && Acceptable(c) && OnConfiguration(c, worlds[n])
    ensures Enabled(cr, c, worlds[n], events[n]) && worlds[n + 1] == Next(cr, c, worlds[n], events[n])
  {
    assert StepAt(cr, c, worlds, events, n);
  }

  lemma StepKeeps<P>(cr: Crypto<P>, c: Configuration, w: World, e: Event<P>, reg: Registration, realm: Realm)
    requires Acceptable(c) && OnConfiguration(c, w) && Enabled(cr, c, w, e) && realm in c.realms
    requires e.Store? || e.Erase? ==> e.realm != realm
    requires realm in Next(cr, c, w, e).states && Next(cr, c, w, e).states[realm] != NoGuesses
    ensures realm in w.states && w.states[realm] != NoGuesses
    ensures Holds(cr, c, reg, realm, w.states[realm]) ==> Holds(cr, c, reg, realm, Next(cr, c, w, e).states[realm])
  {
    hide Record;
  }

  /** After a deletion a realm knows no registration until the next one is stored there. */
  lemma {:induction false} DeletionLasts<P>(cr: Crypto<P>, c: Configuration, worlds: seq<World>, events: seq<Event<P>>,
                                            realm: Realm, k: nat, n: nat)
    requires IsRun(cr, c, worlds, events) && k < n <= |events| && events[k] == Erase(realm)
    requires forall j :: k < j < n ==> (events[j].Store? ==> events[j].realm != realm)
    ensures realm in worlds[n].states && worlds[n].states[realm] == NotRegistered
    ensures Recover1Reply(worlds[n].states[realm]) == Recover1NotRegistered
  {
    hide IsRun;
    RunStep(cr, c, worlds, events, n - 1);
    if n > k + 1 {
      DeletionLasts(cr, c, worlds, events, realm, k, n - 1);
    }
  }

  /** With no guess left, a request of phase 1 or 2 uses up the registration until another is stored. */
  lemma {:induction false} UsedUpLasts<P>(cr: Crypto<P>, c: Configuration, worlds: seq<World>, events: seq<Event<P>>,
                                          realm: Realm, k: nat, n: nat)
    requires IsRun(cr, c, worlds, events) && k < n <= |events| && realm in worlds[k].states
    requires worlds[k].states[realm].Registered?
    requires worlds[k].states[realm].attempted >= worlds[k].states[realm].registration.numGuesses
    requires events[k].Ask1? || events[k].Ask2?
    requires events[k].realm == realm && Undisturbed(events, realm, k + 1, n)
    ensures realm in worlds[n].states && worlds[n].states[realm] == NoGuesses
    ensures Recover1Reply(worlds[n].states[realm]) == Recover1NoGuesses
  {
    hide IsRun;
    RunStep(cr, c, worlds, events, n - 1);
    if n > k + 1 {
      UsedUpLasts(cr, c, worlds, events, realm, k, n - 1);
    }
  }

  /** The moments of a run at which a realm served the three requests of one recovery. */
  datatype Moments = Moments(first: nat, second: nat, third: nat, betaT: int)

  ghost predicate Within(worlds: seq<World>, realm: Realm, moments: Moments) {
    && moments.first < |worlds| && realm in worlds[moments.first].states
    && moments.second < |worlds| && realm in worlds[moments.second].states
    && moments.third < |worlds| && realm in worlds[moments.third].states
  }

  ghost function SightingAt(worlds: seq<World>, realm: Realm, moments: Moments): Sighting
    requires Within(worlds, realm, moments)
  {
    Sighting(worlds[moments.first].states[realm], worlds[moments.second].states[realm],
             worlds[moments.third].states[realm], moments.betaT)
  }

  /** The realm answers all three requests, from the states it had at these moments of the run. */
  ghost predicate Answers<P(!new)>(cr: Crypto<P>, worlds: seq<World>, env: Environment<P>, realm: Realm,
                                   moments: Moments) {
    Within(worlds, realm, moments) && AnswersFrom(cr, env, realm, SightingAt(worlds, realm, moments))
  }

  /** At event k the realm stored the registration, and nobody replaced it before it was asked. */
  ghost predicate StoredBefore<P(!new)>(cr: Crypto<P>, worlds: seq<World>, events: seq<Event<P>>, env: Environment<P>,
                                        reg: Registration, realm: Realm, k: nat, moments: Moments) {
    && k < |events| < |worlds| && events[k] == Store(realm, reg)
    && k < moments.first <= |events| && k < moments.second <= |events| && k < moments.third <= |events|
    && Undisturbed(events, realm, k + 1, moments.first) && Undisturbed(events, realm, k + 1, moments.second)
    && Undisturbed(events, realm, k + 1, moments.third)
    && Answers(cr, worlds, env, realm, moments)
    && var seen := SightingAt(worlds, realm, moments);
       HasGuessLeft(seen.state1) && HasGuessLeft(seen.state2) && seen.state3 != NoGuesses
  }

  lemma StoredIsHeld<P>(cr: Crypto<P>, c: Configuration, worlds: seq<World>, events: seq<Event<P>>, reg: Registration,
                        realm: Realm, k: nat)
    requires IsRun(cr, c, worlds, events) && k < |events| && events[k] == Store(realm, reg)
    ensures realm in c.realms && reg in worlds[k].regs
    ensures realm in worlds[k + 1].states && Holds(cr, c, reg, realm, worlds[k + 1].states[realm])
  {
    hide Record;
    RunStep(cr, c, worlds, events, k);
  }

  lemma StoredServes<P(!new)>(cr: Crypto<P>, c: Configuration, worlds: seq<World>, events: seq<Event<P>>,
                              env: Environment<P>, reg: Registration, realm: Realm, k: nat, moments: Moments)
    requires IsRun(cr, c, worlds, events) && StoredBefore(cr, worlds, events, env, reg, realm, k, moments)
    ensures Acceptable(c) && realm in c.realms && reg in worlds[k].regs
    ensures Serves(cr, c, reg, env, realm, SightingAt(worlds, realm, moments))
  {
    hide IsRun, Holds, AnswersFrom;
    RunShape(cr, c, worlds, events);
    StoredIsHeld(cr, c, worlds, events, reg, realm, k);
    Persists(cr, c, worlds, events, reg, realm, k + 1, moments.first);
    Persists(cr, c, worlds, events, reg, realm, k + 1, moments.second);
    Persists(cr, c, worlds, events, reg, realm, k + 1, moments.third);
  }

  /** When a realm stored a registration and when it was asked for it. */
  datatype History = History(stored: nat, moments: Moments)

  /** A threshold of realms stored the registration, each at its own moment. */
  ghost predicate Available<P(!new)>(cr: Crypto<P>, c: Configuration, worlds: seq<World>, events: seq<Event<P>>,
                                     env: Environment<P>, reg: Registration, histories: map<Realm, History>) {
    && |histories| >= c.recoverThreshold
    && (forall realm {:trigger StoredBefore(cr, worlds, events, env, reg, realm, histories[realm].stored,
                                            histories[realm].moments)} ::
          realm in histories ==>
            StoredBefore(cr, worlds, events, env, reg, realm, histories[realm].stored, histories[realm].moments))
  }

  /**
   Robustness over all interleavings: if in a run a threshold of realms stored the registration
   and still have it with a guess left when asked, recovery with its PIN and info returns its
   secret, whatever other clients did meanwhile and whatever the remaining realms answer, unless
   one of the answers makes the client panic.
   */
  lemma RunRobustness<P(!new)>(cr: Crypto<P>, c: Configuration, worlds: seq<World>, events: seq<Event<P>>,
                               env: Environment<P>, reg: Registration, histories: map<Realm, History>, blinding: int)
    requires IsCrypto(cr) && IsEnvironment(env) && !Same(cr.suite.field, blinding, 0)
    requires IsRun(cr, c, worlds, events) && Initial(worlds[0]) &&
             Available(cr, c, worlds, events, env, reg, histories)
    requires |c.realms| < U32_LIMIT && Unforgeable(cr, c, reg, env)
    ensures Acceptable(c)
    ensures Recover(cr, c, env, reg.pin, reg.info, blinding) ==
            if AnyPanics(cr, c, env, reg, blinding) then Panicked else Recovered(reg.secret)
  {
    hide IsRun, Initial, IsCrypto, IsEnvironment, Unforgeable, StoredBefore, Serves, WellFormed, Recover, Within,
         SightingAt, Answers, Acceptable;
    RunShape(cr, c, worlds, events);
    var seen := ServedBy(cr, c, worlds, events, env, reg, histories);
    WellFormedBegun(cr, c, worlds, events, env, reg, histories);
    RobustRecovery(cr, c, reg, env, seen, blinding);
  }

  lemma ServedBy<P(!new)>(cr: Crypto<P>, c: Configuration, worlds: seq<World>, events: seq<Event<P>>,
                          env: Environment<P>, reg: Registration,
                          histories: map<Realm, History>) returns (seen: map<Realm, Sighting>)
    requires IsRun(cr, c, worlds, events) && Available(cr, c, worlds, events, env, reg, histories)
    ensures Acceptable(c) && AllServe(cr, c, reg, env, seen) && |seen| >= c.recoverThreshold
  {
    hide IsRun, StoredBefore, Serves, SightingAt, Within, Acceptable;
    RunShape(cr, c, worlds, events);
    forall realm | realm in histories
      ensures Within(worlds, realm, histories[realm].moments) && realm in RealmsOf(c)
      ensures Serves(cr, c, reg, env, realm, SightingAt(worlds, realm, histories[realm].moments))
    {
      StoredWithin(cr, worlds, events, env, reg, realm, histories[realm].stored, histories[realm].moments);
      StoredServes(cr, c, worlds, events, env, reg, realm, histories[realm].stored, histories[realm].moments);
    }
    seen := map realm | realm in histories :: SightingAt(worlds, realm, histories[realm].moments);
    assert seen.Keys == histories.Keys;
    assert |seen| == |seen.Keys| == |histories|;
  }

  lemma StoredWithin<P(!new)>(cr: Crypto<P>, worlds: seq<World>, events: seq<Event<P>>, env: Environment<P>,
                              reg: Registration, realm: Realm, k: nat, moments: Moments)
    requires StoredBefore(cr, worlds, events, env, reg, realm, k, moments)
    ensures k < |events| && Within(worlds, realm, moments)
  {
  }

  lemma WellFormedBegun<P(!new)>(cr: Crypto<P>, c: Configuration, worlds: seq<World>, events: seq<Event<P>>,
                                 env: Environment<P>, reg: Registration, histories: map<Realm, History>)
    requires IsRun(cr, c, worlds, events) && Initial(worlds[0]) &&
             Available(cr, c, worlds, events, env, reg, histories)
    ensures WellFormed(cr, c, reg)
  {
    hide IsRun, Initial, WellFormed, Serves, FromRegistrations, StoredBefore;
    RunShape(cr, c, worlds, events);
    assert |histories.Keys| == |histories| > 0;
    var realm :| realm in histories.Keys;
    var history := histories[realm];
    StoredWithin(cr, worlds, events, env, reg, realm, history.stored, history.moments);
    StoredServes(cr, c, worlds, events, env, reg, realm, history.stored, history.moments);
    InvariantHolds(cr, c, worlds, events, history.stored);
  }

  // ---- from a registration that succeeded to a recovery ----

  /** The realms that accepted a registration are as many as the join of its second phase counted. */
  lemma AcceptingCounted<P>(c: Configuration, order: seq<Realm>, answers: Realm -> Answer<P>)
    requires Acceptable(c) && multiset(order) == multiset(c.realms)
    ensures |set r | r in RealmsOf(c) && Register2OnRealm(answers(r)).Ok?| == |Oks(Registered2(Map(order, answers)))|
  {
    hide Acceptable;
    RealmsUnique(c);
    UniqueShuffle(c.realms, order);
    SameMembers(order, c.realms);
    var f := (realm: Realm) => Register2OnRealm(answers(realm));
    assert Registered2(Map(order, answers)) == Map(order, f);
    OksOfMap(order, f);
    GatherCount(order, Answered(f));
    assert Picked(order, Answered(f)) == (set r | r in RealmsOf(c) && Register2OnRealm(answers(r)).Ok?);
  }

  /**
   A registration that succeeded can be recovered: of the realms, those in `moments` answer a
   registration request with success only after they stored it, have kept it since and answer
   the recovery. The register threshold exceeds the recover threshold by the number of the others.
   */
  lemma RegisterThenRecover<P(!new)>(cr: Crypto<P>, c: Configuration, worlds: seq<World>, events: seq<Event<P>>,
                                     env: Environment<P>, reg: Registration, order: seq<Realm>,
                                     answers: Realm -> Answer<P>, stored: map<Realm, nat>,
                                     moments: map<Realm, Moments>, blinding: int)
    requires IsCrypto(cr) && IsEnvironment(env) && !Same(cr.suite.field, blinding, 0)
    requires IsRun(cr, c, worlds, events) && Initial(worlds[0])
    requires |c.realms| < U32_LIMIT && Unforgeable(cr, c, reg, env)
    requires multiset(order) == multiset(c.realms) && moments.Keys <= RealmsOf(c)
    requires |Oks(Registered2(Map(order, answers)))| >= c.registerThreshold
    requires forall realm :: realm in moments && Register2OnRealm(answers(realm)).Ok? ==>
      realm in stored && StoredBefore(cr, worlds, events, env, reg, realm, stored[realm], moments[realm])
    requires c.registerThreshold >= c.recoverThreshold + (|c.realms| - |moments|)
    ensures Acceptable(c)
    ensures Recover(cr, c, env, reg.pin, reg.info, blinding) ==
            if AnyPanics(cr, c, env, reg, blinding) then Panicked else Recovered(reg.secret)
  {
    hide IsRun, Initial, IsCrypto, IsEnvironment, Unforgeable, StoredBefore, Recover, AnyPanics, RealmsOf, Acceptable,
         Registered2, Oks;
    RunShape(cr, c, worlds, events);
    AcceptingCounted(c, order, answers);
    OtherRealms(c, moments.Keys);
    var accepting := set r | r in RealmsOf(c) && Register2OnRealm(answers(r)).Ok?;
    var steady, others := accepting * moments.Keys, RealmsOf(c) - moments.Keys;
    SubsetCount(accepting, steady + others);
    assert |moments.Keys| == |moments|;
    var histories := map realm | realm in steady :: History(stored[realm], moments[realm]);
    assert histories.Keys == steady;
    assert |histories| == |histories.Keys|;
    RunRobustness(cr, c, worlds, events, env, reg, histories, blinding);
  }
}
