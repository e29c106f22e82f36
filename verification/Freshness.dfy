/**
 Whether a successful registration leaves an older one that can still be recovered: exactly
 when the two thresholds add up to no more than the number of realms, plus those that claim to
 have accepted the newer registration and go on serving the older. The documentation's rule, a
 register threshold of at least the recover threshold, is sufficient among honest realms.
 Accepted configurations need not follow it, and `StaleRuns` shows what then can happen.
 */
module Freshness {
  import opened Wrappers
  import opened Encoding
  import opened Configurations
  import opened Requests
  import opened Gathering
  import opened Registrations
  import opened Recovery
  import opened Guarantees
  import opened Realms
  import opened Worlds
  import opened Promises
  import opened Persistence
  import opened Fields
  import opened StaleRuns

  /** No run in which all realms but at most `lies` are honest lets phase 1 find the older version. */
  ghost predicate LeavesNoStaleQuorum<P(!new)>(cr: Crypto<P>, c: Configuration, older: Version, newer: Registration,
                                               lies: nat)
    requires Acceptable(c)
  {
    forall worlds: seq<World>, events: seq<Event<P>>, env, accepting, asked ::
      Succeeded(cr, c, worlds, events, env, accepting, asked, older, newer, lies) &&
      |c.realms| <= |worlds[0].states| + lies ==>
        !(Phase1(c, env).Ok? && Phase1(c, env).value.0 == older)
  }

  /** An honest realm that accepted the newer registration does not report the older version. */
  lemma AcceptedReports<P>(cr: Crypto<P>, c: Configuration, worlds: seq<World>, events: seq<Event<P>>,
                           env: Environment<P>, realm: Realm, k: nat, m: nat, older: Version, newer: Registration)
    requires IsRun(cr, c, worlds, events) && AcceptedAt(events, realm, newer, k) && k < m
    requires Heard1(worlds, env, realm, m) && older != newer.version
    ensures Recover1OnRealm(env, realm) != Ok((older, realm))
  {
    hide IsRun, Holds, Undisturbed;
    RunShape(cr, c, worlds, events);
    StoredIsHeld(cr, c, worlds, events, newer, realm, k);
    UndisturbedPrefix(events, realm, k + 1, m, |events|);
    if worlds[m].states[realm] != NoGuesses {
      Persists(cr, c, worlds, events, newer, realm, k + 1, m);
      HeldRecord(cr, c, newer, realm, worlds[m].states[realm]);
    }
  }

  lemma UndisturbedPrefix<P>(events: seq<Event<P>>, realm: Realm, k: nat, m: nat, n: nat)
    requires m <= n <= |events| && Undisturbed(events, realm, k, n)
    ensures Undisturbed(events, realm, k, m)
  {
  }

  /** A quorum for the older version needs a threshold of realms that did not accept, or lie about it. */
  lemma FreshEnough<P(!new)>(cr: Crypto<P>, c: Configuration, worlds: seq<World>, events: seq<Event<P>>,
                             env: Environment<P>, accepting: map<Realm, nat>, asked: map<Realm, nat>, older: Version,
                             newer: Registration, lies: nat)
    requires Acceptable(c) && older != newer.version
    requires Succeeded(cr, c, worlds, events, env, accepting, asked, older, newer, lies)
    requires c.registerThreshold + c.recoverThreshold > |c.realms| + lies
    ensures !(Phase1(c, env).Ok? && Phase1(c, env).value.0 == older)
  {
    hide IsRun, Initial, Phase1, IsEnvironment, Recover1OnRealm, AcceptedAt, Heard1, Acceptable;
    RunShape(cr, c, worlds, events);
    if Phase1(c, env).Ok? && Phase1(c, env).value.0 == older {
      var group := Phase1(c, env).value.1;
      Phase1Realms(c, env);
      QuorumSize(c, env);
      UniqueCount(group);
      assert |accepting.Keys| == |accepting|;
      var others, lying := RealmsOf(c) - accepting.Keys, TwoFaced(worlds, env, accepting, older);
      forall r | r in group ensures r in others + lying {
        assert r in RealmsOf(c);
        if r in accepting && r in worlds[0].states {
          assert HonestAccepted(worlds, events, env, r, accepting[r], newer, asked[r]);
          AcceptedReports(cr, c, worlds, events, env, r, accepting[r], asked[r], older, newer);
        }
      }
      SubsetCount((set r | r in group), others + lying);
      OtherRealms(c, accepting.Keys);
    }
  }

  /** The exact condition, for configurations the client accepts. */
  lemma FreshIff<P(!new)>(cr: Crypto<P>, c: Configuration, older: Registration, newer: Registration, lies: nat)
    requires IsCrypto(cr) && Acceptable(c) && WellFormed(cr, c, older) && WellFormed(cr, c, newer)
    requires older.version != newer.version && older.numGuesses >= 1
    ensures LeavesNoStaleQuorum(cr, c, older.version, newer, lies) <==>
            c.registerThreshold + c.recoverThreshold > |c.realms| + lies
  {
    hide IsCrypto, WellFormed, IsRun, Initial, HonestAccepted, Heard1, TwoFaced, RealmsOf, IsEnvironment, Phase1,
         Acceptable;
    if c.registerThreshold + c.recoverThreshold > |c.realms| + lies {
      forall worlds: seq<World>, events: seq<Event<P>>, env, accepting, asked
        | Succeeded(cr, c, worlds, events, env, accepting, asked, older.version, newer, lies)
        ensures !(Phase1(c, env).Ok? && Phase1(c, env).value.0 == older.version)
      {
        FreshEnough(cr, c, worlds, events, env, accepting, asked, older.version, newer, lies);
      }
    } else {
      var worlds, events, env, accepting, asked, histories := StaleRun(cr, c, older, newer, lies);
    }
  }

  /** The documented requirement is enough if no realm is two-faced. */
  lemma DocumentedThresholdsFresh<P(!new)>(cr: Crypto<P>, c: Configuration, older: Registration, newer: Registration)
    requires IsCrypto(cr) && Acceptable(c) && WellFormed(cr, c, older) && WellFormed(cr, c, newer)
    requires older.version != newer.version && older.numGuesses >= 1
    requires c.registerThreshold >= c.recoverThreshold
    ensures LeavesNoStaleQuorum(cr, c, older.version, newer, 0)
  {
    hide IsCrypto, WellFormed, LeavesNoStaleQuorum;
    FreshIff(cr, c, older, newer, 0);
  }

  function Id(n: Byte): RealmId {
    [n, 0, 0, 0, 0, 0, 0, 0, 0, 0, 0, 0, 0, 0, 0, 0]
  }

  function ThreeRealms(): Configuration {
    Configuration([Realm(Id(1), None), Realm(Id(2), None), Realm(Id(3), None)], 1, 2, Standard2019)
  }

  /**
   An accepted configuration, against the documentation: in a run in which all its realms are
   honest, both registrations are stored, the newer one succeeds, and afterwards the older PIN
   still recovers the older secret from answers that all come from the realms' states.
   */
  lemma UndocumentedThresholdsAccepted<P(!new)>(cr: Crypto<P>, older: Registration, newer: Registration, blinding: int)
    returns (worlds: seq<World>, events: seq<Event<P>>, env: Environment<P>, accepting: map<Realm, nat>,
             asked: map<Realm, nat>, histories: map<Realm, History>)
    requires IsCrypto(cr) && WellFormed(cr, ThreeRealms(), older) && WellFormed(cr, ThreeRealms(), newer)
    requires older.version != newer.version && older.numGuesses >= 1 && !Same(cr.suite.field, blinding, 0)
    ensures Acceptable(ThreeRealms()) && ThreeRealms().registerThreshold < ThreeRealms().recoverThreshold
    ensures Succeeded(cr, ThreeRealms(), worlds, events, env, accepting, asked, older.version, newer, 0)
    ensures worlds[0].states.Keys == RealmsOf(ThreeRealms())
    ensures Available(cr, ThreeRealms(), worlds, events, env, older, histories)
    ensures forall realm :: realm in ThreeRealms().realms ==> HonestIn(cr, worlds, env, realm, |events|)
    ensures Recover(cr, ThreeRealms(), env, older.pin, older.info, blinding) == Recovered(older.secret)
  {
    hide IsCrypto, WellFormed, Recover, HonestIn, StoredBefore, IsRun, Initial, IsEnvironment, HonestAccepted, Heard1;
    var c := ThreeRealms();
    assert Id(1)[0] == 1 && Id(2)[0] == 2 && Id(3)[0] == 3;
    assert Acceptable(c);
    worlds, events, env, accepting, asked, histories := StaleRecovery(cr, c, older, newer, 0, blinding);
    hide Acceptable;
    RunShape(cr, c, worlds, events);
    HonestKeys(cr, c, worlds, events);
    hide RealmsOf;
    AllOfThem(c, worlds[0].states.Keys);
    assert |worlds[0].states.Keys| == |worlds[0].states|;
    forall realm | realm in c.realms ensures HonestIn(cr, worlds, env, realm, |events|) {
      InRealmsOf(c, realm);
    }
  }

  lemma HonestKeys<P>(cr: Crypto<P>, c: Configuration, worlds: seq<World>, events: seq<Event<P>>)
    requires IsRun(cr, c, worlds, events)
    ensures |worlds| > 0 && worlds[0].states.Keys <= RealmsOf(c)
  {
    assert OnConfiguration(c, worlds[0]);
  }

  lemma InRealmsOf(c: Configuration, realm: Realm)
    requires realm in c.realms
    ensures realm in RealmsOf(c)
  {
  }

  lemma AllOfThem(c: Configuration, honest: set<Realm>)
    requires Acceptable(c) && honest <= RealmsOf(c)
    ensures |honest| >= |c.realms| ==> honest == RealmsOf(c)
  {
    hide RealmsOf;
    OtherRealms(c, honest);
    var others := RealmsOf(c) - honest;
    assert RealmsOf(c) == honest + others;
    assert |others| == 0 ==> others == {};
  }
}
