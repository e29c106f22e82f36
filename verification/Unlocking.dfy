/**
 Giving guesses back: over every run, a realm counts exactly the phase 2 requests for its version
 since the last phase 3 request with the right tag. Recoveries that finish phase 3 therefore
 never use up a registration, however many there are.
 */
module Unlocking {
  import opened Configurations
  import opened Requests
  import opened Registrations
  import opened Realms
  import opened Worlds
  import opened Persistence
  import Guesses

  ghost predicate Asks<P>(e: Event<P>, realm: Realm, version: Version) {
    e.Ask2? && e.realm == realm && e.request2.version == version
  }

  /** Phase 3 with the registration's tag for this realm. */
  ghost predicate Finishes<P>(cr: Crypto<P>, c: Configuration, reg: Registration, e: Event<P>, realm: Realm) {
    e.Ask3? && e.realm == realm && e.request3.version == reg.version &&
    e.request3.unlockKeyTag == TagFor(cr, UnlockKey(cr, c, reg), realm.id)
  }

  ghost predicate ConcernsRealm<P>(e: Event<P>, realm: Realm) {
    !e.Enroll? && e.realm == realm
  }

  /** The phase 2 requests since the last one that finished, from moment m on. */
  ghost function Pending<P>(cr: Crypto<P>, c: Configuration, reg: Registration, events: seq<Event<P>>, realm: Realm,
                            m: nat, n: nat): nat
    requires m <= n <= |events|
  {
    if n == m || Finishes(cr, c, reg, events[n - 1], realm) then 0
    else Pending(cr, c, reg, events, realm, m, n - 1) + if Asks(events[n - 1], realm, reg.version) then 1 else 0
  }

  /** While no guess is left, the realm gets nothing but requests that finish a recovery. */
  ghost predicate InTime<P>(cr: Crypto<P>, c: Configuration, reg: Registration, events: seq<Event<P>>, realm: Realm,
                            m: nat, n: nat, allowed: nat)
    requires m <= n <= |events|
  {
    forall i :: m <= i < n && Pending(cr, c, reg, events, realm, m, i) >= allowed && ConcernsRealm(events[i], realm) ==>
      Finishes(cr, c, reg, events[i], realm)
  }

  /** The state of a realm that holds the registration with this many guesses attempted. */
  ghost predicate HoldsWith<P>(cr: Crypto<P>, c: Configuration, reg: Registration, realm: Realm, state: RealmState,
                               attempted: nat)
    requires Acceptable(c) && realm in c.realms
  {
    Holds(cr, c, reg, realm, state) && state.attempted == attempted
  }

  lemma CountStep<P>(cr: Crypto<P>, c: Configuration, w: World, e: Event<P>, reg: Registration, realm: Realm,
                     attempted: nat)
    requires Acceptable(c) && OnConfiguration(c, w) && Enabled(cr, c, w, e) && realm in c.realms && realm in w.states
    requires e.Store? || e.Erase? ==> e.realm != realm
    requires HoldsWith(cr, c, reg, realm, w.states[realm], attempted) && attempted <= reg.numGuesses
    requires attempted == reg.numGuesses && ConcernsRealm(e, realm) ==> Finishes(cr, c, reg, e, realm)
    ensures realm in Next(cr, c, w, e).states
    ensures var counted := if Finishes(cr, c, reg, e, realm) then 0
                           else attempted + if Asks(e, realm, reg.version) then 1 else 0;
            counted <= reg.numGuesses && HoldsWith(cr, c, reg, realm, Next(cr, c, w, e).states[realm], counted)
  {
    hide Record, TagFor, UnlockKey;
    HeldRecord(cr, c, reg, realm, w.states[realm]);
  }

  /** The count is exact, in every run and whatever other clients do meanwhile. */
  lemma {:induction false} AttemptsCounted<P>(cr: Crypto<P>, c: Configuration, worlds: seq<World>,
                                              events: seq<Event<P>>, reg: Registration, realm: Realm, m: nat, n: nat)
    requires IsRun(cr, c, worlds, events) && m <= n <= |events| && realm in c.realms
    requires realm in worlds[m].states && HoldsWith(cr, c, reg, realm, worlds[m].states[realm], 0)
    requires Undisturbed(events, realm, m, n) && InTime(cr, c, reg, events, realm, m, n, reg.numGuesses)
    ensures Pending(cr, c, reg, events, realm, m, n) <= reg.numGuesses
    ensures realm in worlds[n].states
    ensures HoldsWith(cr, c, reg, realm, worlds[n].states[realm], Pending(cr, c, reg, events, realm, m, n))
  {
    hide IsRun, HoldsWith, Finishes, Asks, ConcernsRealm;
    if m < n {
      RunStep(cr, c, worlds, events, n - 1);
      AttemptsCounted(cr, c, worlds, events, reg, realm, m, n - 1);
      CountStep(cr, c, worlds[n - 1], events[n - 1], reg, realm, Pending(cr, c, reg, events, realm, m, n - 1));
    }
  }

  /**
   Any number of recoveries that finish phase 3, one after the other, leave the registration with
   all its guesses.
   */
  lemma FinishedRecoveriesFree<P>(cr: Crypto<P>, c: Configuration, worlds: seq<World>, events: seq<Event<P>>,
                                  reg: Registration, realm: Realm, m: nat, n: nat)
    requires IsRun(cr, c, worlds, events) && m < n <= |events| && realm in c.realms && reg.numGuesses >= 1
    requires realm in worlds[m].states && HoldsWith(cr, c, reg, realm, worlds[m].states[realm], 0)
    requires Undisturbed(events, realm, m, n) && InTime(cr, c, reg, events, realm, m, n, 1)
    requires Finishes(cr, c, reg, events[n - 1], realm)
    ensures realm in worlds[n].states && HoldsWith(cr, c, reg, realm, worlds[n].states[realm], 0)
    ensures Guesses.Remaining(worlds[n].states[realm], reg.version) == reg.numGuesses
  {
    hide IsRun, Finishes, Asks, ConcernsRealm, HoldsWith;
    RunStep(cr, c, worlds, events, n - 1);
    AttemptsCounted(cr, c, worlds, events, reg, realm, m, n);
    AllRemaining(cr, c, reg, realm, worlds[n].states[realm]);
  }

  lemma AllRemaining<P>(cr: Crypto<P>, c: Configuration, reg: Registration, realm: Realm, state: RealmState)
    requires Acceptable(c) && realm in c.realms && HoldsWith(cr, c, reg, realm, state, 0)
    ensures Guesses.Remaining(state, reg.version) == reg.numGuesses
  {
    hide TagFor, UnlockKey;
    HeldRecord(cr, c, reg, realm, state);
  }
}
