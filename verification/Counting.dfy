/** Pairs of recoveries and the realms that granted them a guess, counted in two ways. */
module Counting {
  import opened Configurations
  import opened Shuffles
  import opened Gathering

  ghost function GrantedAt(grants: map<Realm, set<nat>>, realm: Realm, sessions: set<nat>): set<nat>
    requires realm in grants
  {
    sessions * grants[realm]
  }

  ghost function Total(grants: map<Realm, set<nat>>, realms: seq<Realm>, sessions: set<nat>): nat
    requires forall r :: r in realms ==> r in grants
  {
    if realms == [] then 0
    else Total(grants, realms[..|realms| - 1], sessions) + |GrantedAt(grants, realms[|realms| - 1], sessions)|
  }

  ghost function Granters(grants: map<Realm, set<nat>>, realms: seq<Realm>, session: nat): set<Realm>
    requires forall r :: r in realms ==> r in grants
  {
    set r | r in realms && session in grants[r]
  }

  lemma {:induction false} TotalAtMost(grants: map<Realm, set<nat>>, realms: seq<Realm>, sessions: set<nat>, limit: nat)
    requires forall r :: r in realms ==> r in grants && |grants[r]| <= limit
    ensures Total(grants, realms, sessions) <= |realms| * limit
  {
    if realms != [] {
      var n := |realms|;
      TotalAtMost(grants, realms[..n - 1], sessions, limit);
      SubsetCount(GrantedAt(grants, realms[n - 1], sessions), grants[realms[n - 1]]);
      assert n * limit == (n - 1) * limit + limit;
    }
  }

  lemma {:induction false} TotalStep(grants: map<Realm, set<nat>>, realms: seq<Realm>, sessions: set<nat>, session: nat)
    requires forall r :: r in realms ==> r in grants
    requires Unique(realms) && session in sessions
    ensures Total(grants, realms, sessions) ==
            Total(grants, realms, sessions - {session}) + |Granters(grants, realms, session)|
  {
    if realms != [] {
      var init, last := realms[..|realms| - 1], realms[|realms| - 1];
      TotalStep(grants, init, sessions, session);
      GrantersStep(grants, realms, session);
      if session in grants[last] {
        assert GrantedAt(grants, last, sessions) == GrantedAt(grants, last, sessions - {session}) + {session};
      } else {
        assert GrantedAt(grants, last, sessions) == GrantedAt(grants, last, sessions - {session});
      }
    }
  }

  lemma GrantersStep(grants: map<Realm, set<nat>>, realms: seq<Realm>, session: nat)
    requires realms != [] && Unique(realms) && forall r :: r in realms ==> r in grants
    ensures var init, last := realms[..|realms| - 1], realms[|realms| - 1];
            |Granters(grants, realms, session)| ==
            |Granters(grants, init, session)| + if session in grants[last] then 1 else 0
  {
    var init, last := realms[..|realms| - 1], realms[|realms| - 1];
    assert realms == init + [last] && last !in init;
    assert Granters(grants, realms, session) ==
      Granters(grants, init, session) + if session in grants[last] then {last} else {};
  }

  lemma AddOne(k: nat, threshold: nat)
    ensures (k + 1) * threshold == k * threshold + threshold
  {
  }

  lemma {:induction false} TotalAtLeast(grants: map<Realm, set<nat>>, realms: seq<Realm>, sessions: set<nat>,
                                        threshold: nat)
    requires forall r :: r in realms ==> r in grants
    requires Unique(realms) && forall s :: s in sessions ==> |Granters(grants, realms, s)| >= threshold
    ensures Total(grants, realms, sessions) >= |sessions| * threshold
    decreases |sessions|
  {
    if sessions != {} {
      var session :| session in sessions;
      TotalStep(grants, realms, sessions, session);
      TotalAtLeast(grants, realms, sessions - {session}, threshold);
      AddOne(|sessions - {session}|, threshold);
    }
  }

  /** If every realm grants at most `limit` sessions and every session is granted by `needed` realms. */
  lemma SessionsLimited(grants: map<Realm, set<nat>>, realms: seq<Realm>, sessions: set<nat>, needed: nat, limit: nat)
    requires Unique(realms) && forall r :: r in realms ==> r in grants && |grants[r]| <= limit
    requires forall s :: s in sessions ==> |Granters(grants, realms, s)| >= needed
    ensures |sessions| * needed <= |realms| * limit
  {
    TotalAtMost(grants, realms, sessions, limit);
    TotalAtLeast(grants, realms, sessions, needed);
  }

  /** A majority threshold makes the bound less than twice the limit. */
  lemma MajorityLimit(k: nat, t: nat, n: nat, g: nat)
    requires k * t <= n * g && 0 < n < 2 * t
    ensures g >= 1 ==> k < 2 * g
    ensures g == 0 ==> k == 0
  {
    assert g == 0 && k >= 1 ==> k * t >= t > 0;
    assert g >= 1 && k >= 2 * g ==> k * t >= (2 * g) * t == g * (2 * t) >= g * (n + 1) == n * g + g;
  }
}
