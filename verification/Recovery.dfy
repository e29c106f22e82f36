/**
 Recovery: three rounds of requests, each followed by a quorum decision.

 An `Environment` is everything outside the client during one recovery: the answer each realm
 would give to each request, and the order in which answers arrive. The methods follow the
 source; the ghost functions state what they compute.
 */
module Recovery {
  import opened Wrappers
  import opened Encoding
  import opened Spaces
  import opened Shamir
  import opened Oprf
  import opened Configurations
  import opened Requests
  import opened Join
  import opened Gathering
  import opened Shuffles
  import opened Registrations

  datatype RecoverError =
    | InvalidPin(guessesRemaining: U16)
    | RecoverNotRegistered
    | RecoverInvalidAuth
    | RecoverUpgradeRequired
    | RecoverRateLimitExceeded
    | RecoverAssertion
    | RecoverTransient

  /** The derived order: by variant, then by guesses remaining. */
  function RecoverRank(e: RecoverError): int {
    match e
    case InvalidPin(g) => g
    case RecoverNotRegistered => 0x1_0000
    case RecoverInvalidAuth => 0x1_0001
    case RecoverUpgradeRequired => 0x1_0002
    case RecoverRateLimitExceeded => 0x1_0003
    case RecoverAssertion => 0x1_0004
    case RecoverTransient => 0x1_0005
  }

  /** A panic has no error; what is returned for it is never looked at. */
  function RecoverFailure(e: NoAnswer): RecoverError {
    match e
    case Refused(InvalidAuth) => RecoverInvalidAuth
    case Refused(UpgradeRequired) => RecoverUpgradeRequired
    case Refused(RateLimitExceeded) => RecoverRateLimitExceeded
    case Refused(Transient) => RecoverTransient
    case Refused(Assertion) => RecoverAssertion
    case ClientPanicked => RecoverAssertion
  }

  datatype Outcome = Recovered(secret: UserSecret) | Failed(error: RecoverError) | Panicked

  datatype Environment<!P> = Environment(
    order1: seq<Realm> -> seq<Realm>,
    order2: seq<Realm> -> seq<Realm>,
    order3: seq<Realm> -> seq<Realm>,
    answer1: Realm -> Answer<P>,
    answer2: (Realm, Recover2Request<P>) -> Answer<P>,
    answer3: (Realm, Recover3Request) -> Answer<P>)

  ghost predicate Reorders(order: seq<Realm> -> seq<Realm>, realms: seq<Realm>) {
    multiset(order(realms)) == multiset(realms)
  }

  /** Arrival orders are permutations. */
  ghost predicate IsEnvironment<P>(env: Environment<P>) {
    forall realms: seq<Realm> ::
      Reorders(env.order1, realms) && Reorders(env.order2, realms) && Reorders(env.order3, realms)
  }

  // ---- one realm, one phase ----

  function Recover1OnRealm<P>(env: Environment<P>, realm: Realm): Result<(Version, Realm), RecoverError> {
    match env.answer1(realm)
    case Err(e) => Err(RecoverFailure(e))
    case Ok(Recover1Response(Recover1Ok(version))) => Ok((version, realm))
    case Ok(Recover1Response(Recover1NotRegistered)) => Err(RecoverNotRegistered)
    case Ok(Recover1Response(Recover1NoGuesses)) => Err(InvalidPin(0))
    case Ok(_) => Err(RecoverAssertion)
  }

  /** An unlock key commitment with the key that verifies its realms' public keys. */
  type Consensus = (Bytes, Bytes)

  /** The u16 subtraction wraps around, as it does without overflow checks. */
  function GuessesRemaining(numGuesses: U16, guessCount: U16): U16 {
    (numGuesses - guessCount) % 0x1_0000
  }

  function Recover2OnRealm<P>(cr: Crypto<P>, c: Configuration, env: Environment<P>, realm: Realm,
                              request: Recover2Request<P>): Result<(Consensus, (Share<P>, U16)), RecoverError> {
    match env.answer2(realm, request)
    case Err(e) => Err(RecoverFailure(e))
    case Ok(Recover2Response(Recover2Ok(signed, blindedResult, proof, commitment, numGuesses, guessCount))) =>
      // public keys of another size do not deserialize
      if |signed.publicKey| != 32 then Err(RecoverAssertion)
      else if !VerifySigned(cr, signed, realm.id) then Err(RecoverAssertion)
      else if VerifyProof(cr.suite, request.oprfBlindedInput, blindedResult, signed.publicKey, proof).Err?
      then Err(RecoverAssertion)
      else
        (match ShareIndex(c, realm.id)
         case None => Err(RecoverAssertion)
         case Some(index) =>
           Ok(((commitment, signed.verifyingKey),
               (Share(index, blindedResult), GuessesRemaining(numGuesses, guessCount)))))
    case Ok(Recover2Response(Recover2VersionMismatch)) => Err(RecoverAssertion)
    case Ok(Recover2Response(Recover2NotRegistered)) => Err(RecoverNotRegistered)
    case Ok(Recover2Response(Recover2NoGuesses)) => Err(InvalidPin(0))
    case Ok(_) => Err(RecoverAssertion)
  }

  datatype Phase3Item = Phase3Item(share: Share<int>, encryptedSecret: Bytes, commitment: Bytes, realm: Realm)

  function Recover3OnRealm<P>(cr: Crypto<P>, c: Configuration, env: Environment<P>, realm: Realm,
                              request: Recover3Request)
    : Result<Phase3Item, RecoverError>
  {
    match env.answer3(realm, request)
    case Err(e) => Err(RecoverFailure(e))
    case Ok(Recover3Response(Recover3Ok(share, encryptedSecret, commitment))) =>
      // scalars that are not canonical and ciphertexts of another size do not deserialize
      if cr.suite.field.reduce(share) != share || |encryptedSecret| != 145 then Err(RecoverAssertion)
      else
        (match ShareIndex(c, realm.id)
         case None => Err(RecoverAssertion)
         case Some(index) => Ok(Phase3Item(Share(index, share), encryptedSecret, commitment, realm)))
    case Ok(Recover3Response(Recover3NotRegistered)) => Err(RecoverNotRegistered)
    case Ok(Recover3Response(Recover3NoGuesses)) => Err(InvalidPin(0))
    case Ok(Recover3Response(BadUnlockKeyTag(guessesRemaining))) => Err(InvalidPin(guessesRemaining))
    case Ok(Recover3Response(Recover3VersionMismatch)) => Err(RecoverAssertion)
    case Ok(_) => Err(RecoverAssertion)
  }

  // ---- phase 1: which realms agree on a version ----

  ghost function Phase1Results<P>(c: Configuration, env: Environment<P>): seq<Result<(Version, Realm), RecoverError>> {
    Map(env.order1(c.realms), (realm: Realm) => Recover1OnRealm(env, realm))
  }

  ghost function Phase1<P>(c: Configuration, env: Environment<P>): Result<(Version, seq<Realm>), RecoverError>
    requires Acceptable(c) && IsEnvironment(env)
  {
    SameSize(env.order1, c.realms);
    match Joined(Phase1Results(c, env), c.recoverThreshold, RecoverRank)
    case Err(e) => Err(e)
    case Ok(items) =>
      match Quorum(items, c.recoverThreshold)
      case None => Err(RecoverNotRegistered)
      case Some(found) => Ok(found)
  }

  lemma SameSize(order: seq<Realm> -> seq<Realm>, realms: seq<Realm>)
    requires Reorders(order, realms)
    ensures |order(realms)| == |realms|
  {
    assert |multiset(order(realms))| == |order(realms)| && |multiset(realms)| == |realms|;
  }

  /** A request of phase 1 panics while the join still waits for it. */
  ghost predicate Interrupted1<P>(c: Configuration, env: Environment<P>) {
    Interrupted(Phase1Results(c, env), Map(env.order1(c.realms), (realm: Realm) => Panics(env.answer1(realm))),
                c.recoverThreshold)
  }

  /** None if the client panics. */
  method RunPhase1<P>(c: Configuration, env: Environment<P>)
    returns (r: Option<Result<(Version, seq<Realm>), RecoverError>>)
    requires Acceptable(c) && IsEnvironment(env)
    ensures r == if Interrupted1(c, env) then None else Some(Phase1(c, env))
  {
    assert Reorders(env.order1, c.realms);
    SameSize(env.order1, c.realms);
    var results := Map(env.order1(c.realms), (realm: Realm) => Recover1OnRealm(env, realm));
    var panics := Map(env.order1(c.realms), (realm: Realm) => Panics(env.answer1(realm)));
    var joined := JoinAtLeastThreshold(results, panics, c.recoverThreshold, RecoverRank);
    if joined.None? { return None; }
    if joined.value.Err? { return Some(Err(joined.value.error)); }
    var quorum := FindQuorum(joined.value.value, c.recoverThreshold);
    match quorum
    case None => return Some(Err(RecoverNotRegistered));
    case Some(found) => return Some(Ok(found));
  }

  // ---- phase 2: the unlock key ----

  ghost function Phase2Results<P>(cr: Crypto<P>, c: Configuration, env: Environment<P>, realms: seq<Realm>,
                                  request: Recover2Request<P>)
    : seq<Result<(Consensus, (Share<P>, U16)), RecoverError>>
  {
    Map(env.order2(realms), (realm: Realm) => Recover2OnRealm(cr, c, env, realm, request))
  }

  function ShareOf<P>(value: (Share<P>, U16)): Share<P> {
    value.0
  }

  function GuessesOf<P>(value: (Share<P>, U16)): int {
    value.1
  }

  /** What phase 2 concludes from the group of answers that reached the quorum. */
  function UnlockFrom<P>(cr: Crypto<P>, accessKey: Bytes, blinding: int, found: (Consensus, seq<(Share<P>, U16)>))
    : Result<Bytes, RecoverError>
    requires found.1 != []
  {
    match RecoverSecret(cr.suite.field, cr.suite.points, Map(found.1, ShareOf))
    case Err(_) => Err(RecoverAssertion)
    case Ok(blindedResult) =>
      var oprfResult := Finalize(cr.suite, accessKey, blinding, blindedResult);
      if CommitmentOf(cr, oprfResult) == found.0.0 then Ok(UnlockKeyOf(cr, oprfResult))
      else Err(InvalidPin(Min(found.1, GuessesOf).1))
  }

  ghost function Phase2<P>(cr: Crypto<P>, c: Configuration, env: Environment<P>, accessKey: Bytes, blinding: int,
                           version: Version, realms: seq<Realm>): Result<Bytes, RecoverError>
    requires IsEnvironment(env) && 0 < c.recoverThreshold <= |realms|
  {
    var request := Recover2Request(version, Start(cr.suite, accessKey, blinding));
    assert Reorders(env.order2, realms);
    SameSize(env.order2, realms);
    match Joined(Phase2Results(cr, c, env, realms, request), c.recoverThreshold, RecoverRank)
    case Err(e) => Err(e)
    case Ok(items) =>
      match Quorum(items, c.recoverThreshold)
      case None => Err(RecoverAssertion)
      case Some(found) => UnlockFrom(cr, accessKey, blinding, found)
  }

  /** A request of phase 2 panics while the join still waits for it. */
  ghost predicate Interrupted2<P>(cr: Crypto<P>, c: Configuration, env: Environment<P>, realms: seq<Realm>,
                                  request: Recover2Request<P>) {
    Interrupted(Phase2Results(cr, c, env, realms, request),
                Map(env.order2(realms), (realm: Realm) => Panics(env.answer2(realm, request))), c.recoverThreshold)
  }

  /** None if the client panics. */
  method RunPhase2<P>(cr: Crypto<P>, c: Configuration, env: Environment<P>, accessKey: Bytes, blinding: int,
                      version: Version, realms: seq<Realm>) returns (r: Option<Result<Bytes, RecoverError>>)
    requires IsEnvironment(env) && 0 < c.recoverThreshold <= |realms| < 2 * c.recoverThreshold
    ensures var request := Recover2Request(version, Start(cr.suite, accessKey, blinding));
            r == if Interrupted2(cr, c, env, realms, request) then None
                 else Some(Phase2(cr, c, env, accessKey, blinding, version, realms))
  {
    var request := Recover2Request(version, Start(cr.suite, accessKey, blinding));
    assert Reorders(env.order2, realms);
    SameSize(env.order2, realms);
    var results := Map(env.order2(realms), (realm: Realm) => Recover2OnRealm(cr, c, env, realm, request));
    var panics := Map(env.order2(realms), (realm: Realm) => Panics(env.answer2(realm, request)));
    var joined := JoinAtLeastThreshold(results, panics, c.recoverThreshold, RecoverRank);
    if joined.None? { return None; }
    if joined.value.Err? { return Some(Err(joined.value.error)); }
    var quorum := FindQuorum(joined.value.value, c.recoverThreshold);
    match quorum
    case None => return Some(Err(RecoverAssertion));
    case Some(found) => return Some(UnlockFrom(cr, accessKey, blinding, found));
  }

  // ---- phase 3: the secret ----

  ghost function Phase3Results<P>(cr: Crypto<P>, c: Configuration, env: Environment<P>, realms: seq<Realm>,
                                  version: Version, unlockKey: Bytes): seq<Result<Phase3Item, RecoverError>> {
    Map(env.order3(realms), (realm: Realm) =>
      Recover3OnRealm(cr, c, env, realm, Recover3Request(version, TagFor(cr, unlockKey, realm.id))))
  }

  /** Shares whose commitment does not verify are skipped. */
  function Verified<P>(cr: Crypto<P>, unlockKey: Bytes, item: Phase3Item): Option<(Bytes, Share<int>)> {
    if SecretCommitment(cr, unlockKey, item.realm.id, item.share.secret, item.encryptedSecret) == item.commitment
    then Some((item.encryptedSecret, item.share))
    else None
  }

  function DecryptFrom<P>(cr: Crypto<P>, seed: Bytes, found: (Bytes, seq<Share<int>>)): Outcome {
    match RecoverSecret(cr.suite.field, ScalarSpace(cr.suite.field), found.1)
    case Err(_) => Failed(RecoverAssertion)
    case Ok(scalar) =>
      match cr.unseal(EncryptionKey(cr, seed, scalar), found.0)
      case None => Panicked
      case Some(padded) =>
        match Unpad(padded)
        case None => Panicked
        case Some(secret) => Recovered(secret)
  }

  ghost function Phase3<P>(cr: Crypto<P>, c: Configuration, env: Environment<P>, seed: Bytes, version: Version,
                           realms: seq<Realm>, unlockKey: Bytes): Outcome
    requires IsEnvironment(env) && 0 < c.recoverThreshold <= |realms|
  {
    assert Reorders(env.order3, realms);
    SameSize(env.order3, realms);
    match Joined(Phase3Results(cr, c, env, realms, version, unlockKey), c.recoverThreshold, RecoverRank)
    case Err(e) => Failed(e)
    case Ok(items) =>
      match Quorum(Gather(items, (item: Phase3Item) => Verified(cr, unlockKey, item)), c.recoverThreshold)
      case None => Failed(RecoverAssertion)
      case Some(found) => DecryptFrom(cr, seed, found)
  }

  /** A request of phase 3 panics while the join still waits for it. */
  ghost predicate Interrupted3<P>(cr: Crypto<P>, c: Configuration, env: Environment<P>, realms: seq<Realm>,
                                  version: Version, unlockKey: Bytes) {
    Interrupted(Phase3Results(cr, c, env, realms, version, unlockKey),
                Map(env.order3(realms), (realm: Realm) =>
                  Panics(env.answer3(realm, Recover3Request(version, TagFor(cr, unlockKey, realm.id))))),
                c.recoverThreshold)
  }

  method RunPhase3<P>(cr: Crypto<P>, c: Configuration, env: Environment<P>, seed: Bytes, version: Version,
                      realms: seq<Realm>, unlockKey: Bytes) returns (r: Outcome)
    requires IsEnvironment(env) && 0 < c.recoverThreshold <= |realms| < 2 * c.recoverThreshold
    ensures r == if Interrupted3(cr, c, env, realms, version, unlockKey) then Panicked
                 else Phase3(cr, c, env, seed, version, realms, unlockKey)
  {
    assert Reorders(env.order3, realms);
    SameSize(env.order3, realms);
    var results := Map(env.order3(realms), (realm: Realm) =>
      Recover3OnRealm(cr, c, env, realm, Recover3Request(version, TagFor(cr, unlockKey, realm.id))));
    var panics := Map(env.order3(realms), (realm: Realm) =>
      Panics(env.answer3(realm, Recover3Request(version, TagFor(cr, unlockKey, realm.id)))));
    var joined := JoinAtLeastThreshold(results, panics, c.recoverThreshold, RecoverRank);
    if joined.None? { return Panicked; }
    if joined.value.Err? { return Failed(joined.value.error); }
    var items := joined.value.value;
    var pick := (item: Phase3Item) => Verified(cr, unlockKey, item);
    var verified: seq<(Bytes, Share<int>)> := [];
    for i := 0 to |items|
      invariant verified == Gather(items[..i], pick)
    {
      assert items[..i + 1][..i] == items[..i];
      var ourCommitment := SecretCommitment(cr, unlockKey, items[i].realm.id, items[i].share.secret,
                                            items[i].encryptedSecret);
      if ourCommitment != items[i].commitment {
        continue;
      }
      verified := verified + [(items[i].encryptedSecret, items[i].share)];
    }
    assert items[..|items|] == items;
    var quorum := FindQuorum(verified, c.recoverThreshold);
    match quorum
    case None => return Failed(RecoverAssertion);
    case Some(found) => return DecryptFrom(cr, seed, found);
  }

  // ---- one configuration, and all of them ----

  ghost function Recover<P>(cr: Crypto<P>, c: Configuration, env: Environment<P>, pin: Bytes, info: UserInfo,
                            blinding: int): Outcome
    requires Acceptable(c) && IsEnvironment(env)
  {
    if Interrupted1(c, env) then Panicked
    else
      match Phase1(c, env)
      case Err(e) => Failed(e)
      case Ok((version, realms)) =>
        QuorumSize(c, env);
        var (accessKey, seed) := HashPin(cr, c.pinHashingMode, pin, version, info);
        if Interrupted2(cr, c, env, realms,
                        Recover2Request(version, Start(cr.suite, accessKey, blinding))) then Panicked
        else
          match Phase2(cr, c, env, accessKey, blinding, version, realms)
          case Err(e) => Failed(e)
          case Ok(unlockKey) =>
            if Interrupted3(cr, c, env, realms, version, unlockKey) then Panicked
            else Phase3(cr, c, env, seed, version, realms, unlockKey)
  }

  /** Recovery gets as far as a request that panics while its phase still waits for it. */
  ghost predicate RequestPanics<P>(cr: Crypto<P>, c: Configuration, env: Environment<P>, pin: Bytes, info: UserInfo,
                                   blinding: int)
    requires Acceptable(c) && IsEnvironment(env)
  {
    || Interrupted1(c, env)
    || (Phase1(c, env).Ok? &&
        var (version, realms) := Phase1(c, env).value;
        var (accessKey, _) := HashPin(cr, c.pinHashingMode, pin, version, info);
        || Interrupted2(cr, c, env, realms, Recover2Request(version, Start(cr.suite, accessKey, blinding)))
        || (QuorumSize(c, env);
            var phase2 := Phase2(cr, c, env, accessKey, blinding, version, realms);
            phase2.Ok? && Interrupted3(cr, c, env, realms, version, phase2.value)))
  }

  lemma QuorumSize<P>(c: Configuration, env: Environment<P>)
    requires Acceptable(c) && IsEnvironment(env)
    ensures Phase1(c, env).Ok? ==> c.recoverThreshold <= |Phase1(c, env).value.1| < 2 * c.recoverThreshold
  {
    assert Reorders(env.order1, c.realms);
    SameSize(env.order1, c.realms);
  }

  method PerformRecoverWithConfiguration<P>(cr: Crypto<P>, c: Configuration, env: Environment<P>, pin: Bytes,
                                            info: UserInfo, blinding: int) returns (r: Outcome)
    requires Acceptable(c) && IsEnvironment(env)
    ensures r == Recover(cr, c, env, pin, info, blinding)
  {
    QuorumSize(c, env);
    var phase1 := RunPhase1(c, env);
    if phase1.None? { return Panicked; }
    if phase1.value.Err? { return Failed(phase1.value.error); }
    var (version, realms) := phase1.value.value;
    var (accessKey, seed) := HashPin(cr, c.pinHashingMode, pin, version, info);
    var phase2 := RunPhase2(cr, c, env, accessKey, blinding, version, realms);
    if phase2.None? { return Panicked; }
    if phase2.value.Err? { return Failed(phase2.value.error); }
    r := RunPhase3(cr, c, env, seed, version, realms, phase2.value.value);
  }

  // ---- sessions of previous configurations ----

  /** The client has a session slot for this realm, or needs none: slots are those of its current configuration. */
  predicate Slotted(current: Configuration, realm: Realm) {
    realm.publicKey.Some? ==> exists i :: 0 <= i < |current.realms| && current.realms[i].id == realm.id
  }

  function Guarded<P>(current: Configuration, realm: Realm, answer: Answer<P>): Answer<P> {
    if Slotted(current, realm) then answer else Err(ClientPanicked)
  }

  /** What is left of an environment for a client with the slots of its current configuration. */
  function Reachable<P>(current: Configuration, c: Configuration, env: Environment<P>): Environment<P> {
    if forall realm :: realm in c.realms ==> Slotted(current, realm) then env
    else env.(
      answer1 := (realm: Realm) => Guarded(current, realm, env.answer1(realm)),
      answer2 := (realm: Realm, request: Recover2Request<P>) => Guarded(current, realm, env.answer2(realm, request)),
      answer3 := (realm: Realm, request: Recover3Request) => Guarded(current, realm, env.answer3(realm, request)))
  }

  lemma ReachableIsEnvironment<P>(current: Configuration, c: Configuration, env: Environment<P>)
    requires IsEnvironment(env)
    ensures IsEnvironment(Reachable(current, c, env))
  {
    var left := Reachable(current, c, env);
    forall realms: seq<Realm>
      ensures Reorders(left.order1, realms) && Reorders(left.order2, realms) && Reorders(left.order3, realms)
    {
      assert Reorders(env.order1, realms) && Reorders(env.order2, realms) && Reorders(env.order3, realms);
    }
  }

  /**
   A previous configuration with a hardware realm that the current one lacks: the client panics
   as soon as phase 1 gets to that realm, so in every recovery in which enough realms answer.
   */
  lemma MissingSlotPanics<P>(cr: Crypto<P>, current: Configuration, c: Configuration, env: Environment<P>, realm: Realm,
                             pin: Bytes, info: UserInfo, blinding: int)
    requires Acceptable(c) && IsEnvironment(env) && realm in c.realms && !Slotted(current, realm)
    requires |Oks(Phase1Results(c, Reachable(current, c, env)))| >= c.recoverThreshold
    ensures IsEnvironment(Reachable(current, c, env))
    ensures Recover(cr, c, Reachable(current, c, env), pin, info, blinding) == Panicked
  {
    hide Phase1Results, Slotted;
    ReachableIsEnvironment(current, c, env);
    var left := Reachable(current, c, env);
    assert Reorders(left.order1, c.realms);
    SameSize(left.order1, c.realms);
    SameMembers(left.order1(c.realms), c.realms);
    var order := left.order1(c.realms);
    var panics := Map(order, (realm: Realm) => Panics(left.answer1(realm)));
    var k :| 0 <= k < |order| && order[k] == realm;
    assert panics[k];
    ResultsSize1(c, left);
    InterruptedIff(Phase1Results(c, left), panics, c.recoverThreshold);
  }

  lemma ResultsSize1<P>(c: Configuration, env: Environment<P>)
    ensures |Phase1Results(c, env)| == |env.order1(c.realms)|
  {
  }

  /** One attempt: a configuration, its surroundings and its blinding factor. */
  datatype Attempt<!P> = Attempt(configuration: Configuration, env: Environment<P>, blinding: int)

  ghost predicate AttemptOk<P>(attempt: Attempt<P>) {
    Acceptable(attempt.configuration) && IsEnvironment(attempt.env)
  }

  ghost function OutcomeOf<P>(cr: Crypto<P>, current: Configuration, attempt: Attempt<P>, pin: Bytes,
                              info: UserInfo): Outcome
    requires AttemptOk(attempt)
  {
    ReachableIsEnvironment(current, attempt.configuration, attempt.env);
    Recover(cr, attempt.configuration, Reachable(current, attempt.configuration, attempt.env), pin, info,
            attempt.blinding)
  }

  /** The k-th attempt is the first that finds a registration, or the last one. */
  ghost predicate Decides<P>(cr: Crypto<P>, attempts: seq<Attempt<P>>, k: nat, pin: Bytes, info: UserInfo, r: Outcome)
    requires k < |attempts| && forall i :: 0 <= i < |attempts| ==> AttemptOk(attempts[i])
  {
    var current := attempts[0].configuration;
    && r == OutcomeOf(cr, current, attempts[k], pin, info)
    && (r == Failed(RecoverNotRegistered) ==> k == |attempts| - 1)
    && (forall j :: 0 <= j < k ==> OutcomeOf(cr, current, attempts[j], pin, info) == Failed(RecoverNotRegistered))
  }

  /**
   Falls back to previous configurations, most recent first, as long as the answer is that
   nothing is registered. Only the current configuration has session slots.
   */
  method PerformRecover<P>(cr: Crypto<P>, current: Attempt<P>, previous: seq<Attempt<P>>, pin: Bytes, info: UserInfo)
    returns (r: Outcome)
    requires AttemptOk(current) && forall i :: 0 <= i < |previous| ==> AttemptOk(previous[i])
    ensures exists k :: 0 <= k <= |previous| && Decides(cr, [current] + previous, k, pin, info, r)
  {
    hide Recover, Acceptable, IsEnvironment, Reachable;
    var attempts := [current] + previous;
    var attempt, next := current, 0;
    while true
      invariant 0 <= next <= |previous| && attempt == attempts[next]
      invariant forall j :: 0 <= j < next ==>
        OutcomeOf(cr, current.configuration, attempts[j], pin, info) == Failed(RecoverNotRegistered)
      decreases |previous| - next
    {
      var env := Reachable(current.configuration, attempt.configuration, attempt.env);
      ReachableIsEnvironment(current.configuration, attempt.configuration, attempt.env);
      r := PerformRecoverWithConfiguration(cr, attempt.configuration, env, pin, info, attempt.blinding);
      assert r == OutcomeOf(cr, current.configuration, attempts[next], pin, info);
      if r == Failed(RecoverNotRegistered) && next < |previous| {
        attempt, next := previous[next], next + 1;
        continue;
      }
      assert Decides(cr, attempts, next, pin, info, r);
      return;
    }
  }
}
