/**
 Client configurations: which ones are accepted, the canonical order of realms, and the
 share index each realm gets from it.
 */
module Configurations {
  import opened Wrappers
  import opened Encoding
  import opened Fields
  import opened Shamir
  import opened Shuffles

  type RealmId = id: Bytes | |id| == 16 witness [0, 0, 0, 0, 0, 0, 0, 0, 0, 0, 0, 0, 0, 0, 0, 0]

  datatype Realm = Realm(id: RealmId, publicKey: Option<Bytes>)

  datatype PinHashingMode = Standard2019 | FastInsecure

  datatype Configuration = Configuration(
    realms: seq<Realm>,
    registerThreshold: U32,
    recoverThreshold: U32,
    pinHashingMode: PinHashingMode)

  /** The panics of `CheckedConfiguration::from`. */
  datatype ConfigurationError =
    | NoRealms | DuplicateRealms | TooManyRealms | BadPublicKey
    | RecoverThresholdZero | RecoverThresholdTooHigh | RecoverThresholdNoMajority | RegisterThresholdTooHigh

  // ---- the order of realm ids ----

  /** Lexicographic order of byte strings. */
  predicate AtMost(a: Bytes, b: Bytes) {
    if a == [] then true
    else if b == [] then false
    else a[0] < b[0] || (a[0] == b[0] && AtMost(a[1..], b[1..]))
  }

  lemma {:induction false} AtMostTotal(a: Bytes, b: Bytes)
    ensures AtMost(a, b) || AtMost(b, a)
    ensures AtMost(a, b) && AtMost(b, a) ==> a == b
  {
    if a != [] && b != [] {
      AtMostTotal(a[1..], b[1..]);
      assert a == [a[0]] + a[1..] && b == [b[0]] + b[1..];
    }
  }

  lemma {:induction false} AtMostTransitive(a: Bytes, b: Bytes, c: Bytes)
    requires AtMost(a, b) && AtMost(b, c)
    ensures AtMost(a, c)
  {
    if a != [] && a[0] == b[0] && b[0] == c[0] {
      AtMostTransitive(a[1..], b[1..], c[1..]);
    }
  }

  /** Of byte strings of one length it is the order of the numbers they write: realms ascend. */
  lemma {:induction false} AtMostNumeric(a: Bytes, b: Bytes)
    requires |a| == |b|
    ensures AtMost(a, b) <==> FromBe(a) <= FromBe(b)
  {
    if a != [] {
      var p := Pow256(|a| - 1);
      assert a == [a[0]] + a[1..] && b == [b[0]] + b[1..];
      FromBeFront(a[0], a[1..]);
      FromBeFront(b[0], b[1..]);
      AtMostNumeric(a[1..], b[1..]);
      Leading(a[0], b[0], p, FromBe(a[1..]), FromBe(b[1..]));
    }
  }

  lemma Leading(x: int, y: int, p: nat, m: nat, n: nat)
    requires m < p && n < p
    ensures x < y ==> x * p + m < y * p + n
    ensures x > y ==> x * p + m > y * p + n
  {
    if x < y {
      assert (x + 1) * p <= y * p && (x + 1) * p == x * p + p;
    }
    if x > y {
      assert (y + 1) * p <= x * p && (y + 1) * p == y * p + p;
    }
  }

  ghost predicate UniqueIds(realms: seq<Realm>) {
    forall i, j :: 0 <= i < j < |realms| ==> realms[i].id != realms[j].id
  }

  lemma SameRealm(realms: seq<Realm>, i: nat, j: nat)
    requires UniqueIds(realms) && i < |realms| && j < |realms| && realms[i].id == realms[j].id
    ensures i == j
  {
  }

  ghost predicate Sorted(realms: seq<Realm>) {
    forall i, j :: 0 <= i < j < |realms| ==> AtMost(realms[i].id, realms[j].id)
  }

  /** `sort_by` on the ids. */
  function SortRealms(realms: seq<Realm>): seq<Realm> {
    if realms == [] then [] else Insert(realms[0], SortRealms(realms[1..]))
  }

  function Insert(realm: Realm, sorted: seq<Realm>): seq<Realm> {
    if sorted == [] || AtMost(realm.id, sorted[0].id) then [realm] + sorted
    else [sorted[0]] + Insert(realm, sorted[1..])
  }

  lemma {:induction false} InsertPermutes(realm: Realm, sorted: seq<Realm>)
    ensures multiset(Insert(realm, sorted)) == multiset([realm] + sorted)
  {
    hide AtMost;
    if sorted != [] && !AtMost(realm.id, sorted[0].id) {
      var first, rest := sorted[0], sorted[1..];
      InsertPermutes(realm, rest);
      assert sorted == [first] + rest;
      assert multiset([first] + Insert(realm, rest)) == multiset([realm] + sorted);
    }
  }

  lemma FrontSorted(first: Realm, rest: seq<Realm>)
    requires Sorted(rest) && forall r :: r in rest ==> AtMost(first.id, r.id)
    ensures Sorted([first] + rest)
  {
    hide AtMost;
    var all := [first] + rest;
    forall i, j | 0 <= i < j < |all| ensures AtMost(all[i].id, all[j].id) {
      assert all[j] == rest[j - 1] && rest[j - 1] in rest;
    }
  }

  lemma {:induction false} InsertSorts(realm: Realm, sorted: seq<Realm>)
    requires Sorted(sorted)
    ensures Sorted(Insert(realm, sorted))
  {
    hide AtMost;
    if sorted == [] {
    } else if AtMost(realm.id, sorted[0].id) {
      forall r | r in sorted ensures AtMost(realm.id, r.id) {
        var i :| 0 <= i < |sorted| && sorted[i] == r;
        if i > 0 { AtMostTransitive(realm.id, sorted[0].id, r.id); }
      }
      FrontSorted(realm, sorted);
    } else {
      var first, rest := sorted[0], sorted[1..];
      InsertSorts(realm, rest);
      InsertPermutes(realm, rest);
      SameMembers(Insert(realm, rest), [realm] + rest);
      AtMostTotal(first.id, realm.id);
      FrontSorted(first, Insert(realm, rest));
    }
  }

  /** Sorting permutes the realms into ascending order. */
  lemma {:induction false} SortSorts(realms: seq<Realm>)
    ensures multiset(SortRealms(realms)) == multiset(realms)
    ensures Sorted(SortRealms(realms)) && |SortRealms(realms)| == |realms|
  {
    if realms != [] {
      SortSorts(realms[1..]);
      InsertSorts(realms[0], SortRealms(realms[1..]));
      InsertPermutes(realms[0], SortRealms(realms[1..]));
      assert realms == [realms[0]] + realms[1..];
      assert multiset([realms[0]] + SortRealms(realms[1..])) == multiset(realms);
    }
    assert |multiset(SortRealms(realms))| == |SortRealms(realms)| && |multiset(realms)| == |realms|;
  }

  lemma UniqueAfterShuffle(a: seq<Realm>, b: seq<Realm>)
    requires multiset(a) == multiset(b) && UniqueIds(a)
    ensures UniqueIds(b)
  {
    assert Unique(a);
    UniqueShuffle(a, b);
    SameMembers(a, b);
    forall i, j | 0 <= i < j < |b| ensures b[i].id != b[j].id {
      assert b[i] in a && b[j] in a;
    }
  }

  lemma SameFirst(a: seq<Realm>, b: seq<Realm>)
    requires Sorted(a) && Sorted(b) && UniqueIds(a) && multiset(a) == multiset(b) && a != [] && b != []
    ensures a[0] == b[0]
  {
    assert a[0] in multiset(b) && b[0] in multiset(a);
    var i :| 0 <= i < |b| && b[i] == a[0];
    var j :| 0 <= j < |a| && a[j] == b[0];
    AtMostTotal(a[0].id, a[0].id);
    AtMostTotal(a[0].id, b[0].id);
    assert a[0].id == a[j].id;
  }

  /** There is one ascending order of a set of realms with different ids. */
  lemma {:induction false} SortedUnique(a: seq<Realm>, b: seq<Realm>)
    requires Sorted(a) && Sorted(b) && UniqueIds(a) && multiset(a) == multiset(b)
    ensures a == b
  {
    assert |multiset(a)| == |a| && |multiset(b)| == |b|;
    if a != [] {
      SameFirst(a, b);
      assert a == [a[0]] + a[1..] && b == [b[0]] + b[1..];
      assert multiset(a[1..]) == multiset(a) - multiset{a[0]};
      assert multiset(b[1..]) == multiset(b) - multiset{b[0]};
      SortedUnique(a[1..], b[1..]);
    }
  }

  // ---- acceptance ----

  ghost predicate Acceptable(c: Configuration) {
    && 0 < |c.realms| < U32_LIMIT
    && UniqueIds(c.realms)
    && (forall i :: 0 <= i < |c.realms| ==> c.realms[i].publicKey.Some? ==> |c.realms[i].publicKey.value| == 32)
    && 1 <= c.recoverThreshold <= |c.realms| < 2 * c.recoverThreshold
    && c.registerThreshold <= |c.realms|
  }

  /** What the client works with afterwards. */
  function Canonical(c: Configuration): Configuration {
    c.(realms := SortRealms(c.realms))
  }

  function Ids(realms: seq<Realm>): set<RealmId> {
    set r | r in realms :: r.id
  }

  lemma UniqueStep(init: seq<Realm>, last: Realm)
    ensures UniqueIds(init + [last]) <==> UniqueIds(init) && last.id !in Ids(init)
  {
    var all := init + [last];
    if UniqueIds(all) {
      forall i, j | 0 <= i < j < |init| ensures init[i].id != init[j].id {
        assert all[i].id != all[j].id;
      }
      forall i | 0 <= i < |init| ensures init[i].id != last.id {
        assert all[i].id != all[|init|].id;
      }
    }
    if UniqueIds(init) && last.id !in Ids(init) {
      forall i, j | 0 <= i < j < |all| ensures all[i].id != all[j].id {
        assert all[i] in init && all[i].id in Ids(init);
      }
    }
  }

  lemma {:induction false} IdsCount(realms: seq<Realm>)
    ensures |Ids(realms)| <= |realms|
    ensures |Ids(realms)| == |realms| <==> UniqueIds(realms)
  {
    if realms != [] {
      var n := |realms|;
      var init, last := realms[..n - 1], realms[n - 1];
      assert realms == init + [last];
      IdsCount(init);
      UniqueStep(init, last);
      assert Ids(realms) == Ids(init) + {last.id};
    }
  }

  /**
   `CheckedConfiguration::from`. The register threshold is only bounded above: the line that
   announces a check of it against the recover threshold tests the recover threshold again.
   */
  method Check(c: Configuration) returns (r: Result<Configuration, ConfigurationError>)
    ensures r.Ok? <==> Acceptable(c)
    ensures r.Ok? ==> r.value == Canonical(c)
    ensures r == Err(NoRealms) <==> c.realms == []
    ensures r == Err(DuplicateRealms) <==> !UniqueIds(c.realms)
    ensures r == Err(BadPublicKey) ==> exists i :: 0 <= i < |c.realms| && c.realms[i].publicKey.Some? &&
                                                   |c.realms[i].publicKey.value| != 32
    ensures r == Err(RecoverThresholdZero) ==> c.recoverThreshold == 0
    ensures r == Err(RecoverThresholdTooHigh) ==> c.recoverThreshold > |c.realms|
    ensures r == Err(RecoverThresholdNoMajority) ==> 2 * c.recoverThreshold <= |c.realms|
    ensures r == Err(RegisterThresholdTooHigh) ==> c.registerThreshold > |c.realms|
    ensures r == Err(TooManyRealms) ==> |c.realms| >= U32_LIMIT
  {
    if |c.realms| == 0 { return Err(NoRealms); }
    IdsCount(c.realms);
    if |Ids(c.realms)| != |c.realms| { return Err(DuplicateRealms); }
    if |c.realms| >= U32_LIMIT { return Err(TooManyRealms); }
    var realmCount := |c.realms|;
    for i := 0 to |c.realms|
      invariant forall j :: 0 <= j < i ==> c.realms[j].publicKey.Some? ==> |c.realms[j].publicKey.value| == 32
    {
      match c.realms[i].publicKey
      case None =>
      case Some(publicKey) =>
        if |publicKey| != 32 { return Err(BadPublicKey); }
    }
    if !(1 <= c.recoverThreshold) { return Err(RecoverThresholdZero); }
    if !(c.recoverThreshold <= realmCount) { return Err(RecoverThresholdTooHigh); }
    if !(c.recoverThreshold > realmCount / 2) { return Err(RecoverThresholdNoMajority); }
    if !(c.recoverThreshold <= realmCount) { return Err(RecoverThresholdTooHigh); }
    if !(c.registerThreshold <= realmCount) { return Err(RegisterThresholdTooHigh); }
    return Ok(Canonical(c));
  }

  // ---- share indices ----

  ghost predicate Checked(c: Configuration) {
    Acceptable(c) && Sorted(c.realms)
  }

  function Position(realms: seq<Realm>, id: RealmId): Option<nat> {
    if realms == [] then None
    else if realms[0].id == id then Some(0)
    else
      match Position(realms[1..], id)
      case None => None
      case Some(i) => Some(i + 1)
  }

  function ShareIndex(c: Configuration, id: RealmId): Option<U32> {
    match Position(c.realms, id)
    case None => None
    case Some(i) => if i + 1 < U32_LIMIT then Some(i + 1) else None
  }

  function ShareCount(c: Configuration): nat {
    |c.realms|
  }

  lemma {:induction false} PositionFinds(realms: seq<Realm>, id: RealmId)
    ensures match Position(realms, id)
            case None => forall i :: 0 <= i < |realms| ==> realms[i].id != id
            case Some(i) => i < |realms| && realms[i].id == id
  {
    if realms != [] {
      PositionFinds(realms[1..], id);
      assert realms == [realms[0]] + realms[1..];
    }
  }

  lemma CanonicalIsChecked(c: Configuration)
    requires Acceptable(c)
    ensures Checked(Canonical(c))
  {
    SortSorts(c.realms);
    UniqueAfterShuffle(c.realms, SortRealms(c.realms));
    forall i | 0 <= i < |c.realms|
      ensures SortRealms(c.realms)[i].publicKey.Some? ==> |SortRealms(c.realms)[i].publicKey.value| == 32
    {
      assert SortRealms(c.realms)[i] in multiset(c.realms);
    }
  }

  /**
   The i-th realm in canonical order gets share index i + 1, and no two realms share one.
   */
  lemma ShareIndices(c: Configuration, i: nat)
    requires Acceptable(c) && i < |c.realms|
    ensures ShareIndex(c, c.realms[i].id) == Some(i + 1)
  {
    PositionFinds(c.realms, c.realms[i].id);
  }

  /** Any reordering of the same realms yields the same canonical realms, hence the same indices. */
  lemma CanonicalOrder(c: Configuration, d: Configuration)
    requires Acceptable(c) && multiset(c.realms) == multiset(d.realms)
    ensures Canonical(c).realms == Canonical(d).realms
    ensures forall id: RealmId :: ShareIndex(Canonical(c), id) == ShareIndex(Canonical(d), id)
  {
    SortSorts(c.realms);
    SortSorts(d.realms);
    UniqueAfterShuffle(c.realms, SortRealms(c.realms));
    SortedUnique(SortRealms(c.realms), SortRealms(d.realms));
  }
}
