/**
 Preparing a registration: the keys derived from the PIN, the padded and encrypted secret,
 and the request each realm receives.

 The remaining primitives (password hash, MACs, cipher, signatures) are parameters collected
 in `Crypto`; randomness drawn by the source is part of `Registration`.
 */
module Registrations {
  import opened Wrappers
  import opened Encoding
  import opened Fields
  import opened Spaces
  import opened Shamir
  import opened Oprf
  import opened Configurations
  import opened Requests
  import opened Join

  /** Functions with two results give the two halves of the source's output. */
  datatype Crypto<!P> = Crypto(
    suite: Suite<P>,
    argon2: (PinHashingMode, Bytes, Bytes) -> (Bytes, Bytes),
    digest: Bytes -> (Bytes, Bytes),
    mac16: (Bytes, Bytes) -> Bytes,
    mac32: (Bytes, Bytes) -> Bytes,
    seal: (Bytes, Bytes) -> Bytes,
    unseal: (Bytes, Bytes) -> Option<Bytes>,
    verifyingKey: Bytes -> Bytes,
    sign: (Bytes, Bytes) -> Bytes,
    verify: (Bytes, Bytes, Bytes) -> bool)

  ghost predicate CipherLaw<P>(cr: Crypto<P>, key: Bytes, plaintext: Bytes) {
    |cr.seal(key, plaintext)| == |plaintext| + 16 && cr.unseal(key, cr.seal(key, plaintext)) == Some(plaintext)
  }

  ghost predicate SignatureLaw<P>(cr: Crypto<P>, key: Bytes, message: Bytes) {
    cr.verify(cr.verifyingKey(key), message, cr.sign(key, message))
  }

  ghost predicate IsCrypto<P(!new)>(cr: Crypto<P>) {
    && IsSuite(cr.suite)
    && (forall key, plaintext :: CipherLaw(cr, key, plaintext))
    && (forall key, message :: SignatureLaw(cr, key, message))
  }

  /** The idealization of the hash functions: no collisions. */
  ghost predicate CollisionFree<P>(cr: Crypto<P>) {
    && (forall m, m' :: cr.suite.sha512(m) == cr.suite.sha512(m') ==> m == m')
    && (forall m, m' :: cr.digest(m).0 == cr.digest(m').0 ==> m == m')
    && (forall mode, pin, salt, pin', salt' ::
          cr.argon2(mode, pin, salt).0 == cr.argon2(mode, pin', salt').0 ==> pin == pin' && salt == salt')
  }

  // ---- padding ----

  const MAX_USER_SECRET_LENGTH: int := 128

  type UserSecret = s: Bytes | |s| <= 128 witness []

  type UserInfo = s: Bytes | |s| < 0x1_0000_0000 witness []

  function Zeros(n: nat): (r: Bytes)
    ensures |r| == n
  {
    seq(n, i => 0)
  }

  /** The length, the secret, and zeros up to 129 bytes. */
  function Pad(secret: UserSecret): (r: Bytes)
    ensures |r| == MAX_USER_SECRET_LENGTH + 1
  {
    [|secret|] + secret + Zeros(MAX_USER_SECRET_LENGTH - |secret|)
  }

  /** As the source pads: inserting the length in front and then resizing. */
  method PadSecret(secret: UserSecret) returns (padded: Bytes)
    ensures padded == Pad(secret) && |padded| == MAX_USER_SECRET_LENGTH + 1
  {
    padded := secret;
    padded := [|secret|] + padded;
    padded := padded + Zeros(MAX_USER_SECRET_LENGTH + 1 - |padded|);
  }

  /** None where the source panics: a wrong size, or a length byte beyond the secret. */
  function Unpad(padded: Bytes): Option<UserSecret> {
    if |padded| != MAX_USER_SECRET_LENGTH + 1 || padded[0] > MAX_USER_SECRET_LENGTH then None
    else Some(padded[1..1 + padded[0]])
  }

  lemma PadRoundTrip(secret: UserSecret)
    ensures Unpad(Pad(secret)) == Some(secret)
    ensures Pad(secret)[0] == |secret| && forall i :: |secret| < i < |Pad(secret)| ==> Pad(secret)[i] == 0
  {
    assert Pad(secret)[1..1 + |secret|] == secret;
  }

  /** What is read is what was written, up to the length that the first byte states. */
  lemma UnpadReads(padded: Bytes)
    ensures Unpad(padded).Some? <==> |padded| == 129 && padded[0] <= 128
    ensures Unpad(padded).Some? ==>
      var secret := Unpad(padded).value; padded[..1 + |secret|] == Pad(secret)[..1 + |secret|]
  {
    if Unpad(padded).Some? {
      var secret := Unpad(padded).value;
      assert padded[..1 + |secret|] == [|secret|] + secret;
      assert Pad(secret)[..1 + |secret|] == [|secret|] + secret;
    }
  }

  // ---- what a registration derives ----

  datatype Registration = Registration(
    pin: Bytes,
    secret: UserSecret,
    info: UserInfo,
    numGuesses: U16,
    version: Version,
    rootKey: int,
    keyCoefficients: seq<int>,
    signingKey: Bytes,
    scalar: int,
    scalarCoefficients: seq<int>)

  /** The random draws have the types the source gives them. */
  ghost predicate WellFormed<P>(cr: Crypto<P>, c: Configuration, reg: Registration) {
    var scalars := ScalarSpace(cr.suite.field);
    && scalars.has(reg.rootKey) && AllIn(scalars, reg.keyCoefficients)
    && scalars.has(reg.scalar) && AllIn(scalars, reg.scalarCoefficients)
    && |reg.keyCoefficients| == |reg.scalarCoefficients| == c.recoverThreshold - 1
  }

  /** Access key and encryption key seed. */
  function HashPin<P>(cr: Crypto<P>, mode: PinHashingMode, pin: Bytes, version: Version, info: UserInfo)
    : (Bytes, Bytes)
  {
    cr.argon2(mode, pin, Salt(version, info))
  }

  function OprfResult<P>(cr: Crypto<P>, c: Configuration, reg: Registration): Bytes {
    UnobliviousEvaluate(cr.suite, reg.rootKey, HashPin(cr, c.pinHashingMode, reg.pin, reg.version, reg.info).0)
  }

  function CommitmentOf<P>(cr: Crypto<P>, oprfResult: Bytes): Bytes {
    cr.digest(oprfResult).0
  }

  function UnlockKeyOf<P>(cr: Crypto<P>, oprfResult: Bytes): Bytes {
    cr.digest(oprfResult).1
  }

  function UnlockKey<P>(cr: Crypto<P>, c: Configuration, reg: Registration): Bytes {
    UnlockKeyOf(cr, OprfResult(cr, c, reg))
  }

  function EncryptionKey<P>(cr: Crypto<P>, seed: Bytes, scalar: int): Bytes {
    cr.mac32(seed, EncryptionKeyMessage(cr.suite.scalarBytes(scalar)))
  }

  function EncryptedSecret<P>(cr: Crypto<P>, c: Configuration, reg: Registration): Bytes {
    var seed := HashPin(cr, c.pinHashingMode, reg.pin, reg.version, reg.info).1;
    cr.seal(EncryptionKey(cr, seed, reg.scalar), Pad(reg.secret))
  }

  function KeyShare<P>(cr: Crypto<P>, reg: Registration, i: nat): Share<int>
    requires i + 1 < U32_LIMIT
  {
    ShareAt(ScalarSpace(cr.suite.field), reg.rootKey, reg.keyCoefficients, i + 1)
  }

  function ScalarShare<P>(cr: Crypto<P>, reg: Registration, i: nat): Share<int>
    requires i + 1 < U32_LIMIT
  {
    ShareAt(ScalarSpace(cr.suite.field), reg.scalar, reg.scalarCoefficients, i + 1)
  }

  /** `sign_public_key` */
  function SignPublicKey<P>(cr: Crypto<P>, publicKey: Bytes, realm: RealmId, signingKey: Bytes): SignedPublicKey {
    SignedPublicKey(publicKey, cr.verifyingKey(signingKey), cr.sign(signingKey, SignatureMessage(realm, publicKey)))
  }

  /** `OprfSignedPublicKey::verify` */
  predicate VerifySigned<P>(cr: Crypto<P>, signed: SignedPublicKey, realm: RealmId) {
    cr.verify(signed.verifyingKey, SignatureMessage(realm, signed.publicKey), signed.signature)
  }

  function TagFor<P>(cr: Crypto<P>, unlockKey: Bytes, realm: RealmId): Bytes {
    cr.mac16(unlockKey, TagMessage(realm))
  }

  function SecretCommitment<P>(cr: Crypto<P>, unlockKey: Bytes, realm: RealmId, share: int,
                               encryptedSecret: Bytes): Bytes {
    cr.mac16(unlockKey, CommitmentMessage(realm, cr.suite.scalarBytes(share), encryptedSecret))
  }

  /** The request sent to the i-th realm of the configuration. */
  function Record<P>(cr: Crypto<P>, c: Configuration, reg: Registration, i: nat): Register2Request
    requires i < |c.realms| < U32_LIMIT
  {
    var realm := c.realms[i].id;
    var key := KeyShare(cr, reg, i).secret;
    var share := ScalarShare(cr, reg, i).secret;
    var unlockKey := UnlockKey(cr, c, reg);
    var encrypted := EncryptedSecret(cr, c, reg);
    Register2Request(
      reg.version,
      key,
      SignPublicKey(cr, ToPublicKey(cr.suite, key), realm, reg.signingKey),
      CommitmentOf(cr, OprfResult(cr, c, reg)),
      TagFor(cr, unlockKey, realm),
      share,
      encrypted,
      SecretCommitment(cr, unlockKey, realm, share, encrypted),
      reg.numGuesses)
  }

  // ---- zipping shares to realms ----

  /** `zip` stops at the shorter of its arguments. */
  function Zip2<A, B>(a: seq<A>, b: seq<B>): seq<(A, B)> {
    var n := if |a| <= |b| then |a| else |b|;
    seq(n, i requires 0 <= i < n => (a[i], b[i]))
  }

  function Zip4<A, B, C, D>(a: seq<A>, b: seq<B>, c: seq<C>, d: seq<D>): seq<(A, B, C, D)> {
    var zipped := Zip2(Zip2(Zip2(a, b), c), d);
    seq(|zipped|, i requires 0 <= i < |zipped| =>
      var (((x, y), z), w) := zipped[i];
      (x, y, z, w))
  }

  /** `perform_register`, from the root secrets to the requests, in the order of the realms. */
  function PrepareRequests<P>(cr: Crypto<P>, c: Configuration, reg: Registration): seq<(Realm, Register2Request)>
    requires 0 < c.recoverThreshold <= |c.realms| < U32_LIMIT
    requires |reg.keyCoefficients| == |reg.scalarCoefficients| == c.recoverThreshold - 1
  {
    var scalars := ScalarSpace(cr.suite.field);
    var keys := Values(CreateShares(scalars, reg.rootKey, c.recoverThreshold, ShareCount(c), reg.keyCoefficients));
    var zipped := Zip2(keys, c.realms);
    var signed := seq(|zipped|, i requires 0 <= i < |zipped| =>
      SignPublicKey(cr, ToPublicKey(cr.suite, zipped[i].0), zipped[i].1.id, reg.signingKey));
    var shares := Values(CreateShares(scalars, reg.scalar, c.recoverThreshold, ShareCount(c), reg.scalarCoefficients));
    var oprfResult := OprfResult(cr, c, reg);
    var unlockKey := UnlockKeyOf(cr, oprfResult);
    var encrypted := EncryptedSecret(cr, c, reg);
    var parts := Zip4(c.realms, keys, signed, shares);
    seq(|parts|, i requires 0 <= i < |parts| =>
      var (realm, key, signedKey, share) := parts[i];
      (realm, Register2Request(
        reg.version, key, signedKey, CommitmentOf(cr, oprfResult), TagFor(cr, unlockKey, realm.id),
        share, encrypted, SecretCommitment(cr, unlockKey, realm.id, share, encrypted), reg.numGuesses)))
  }

  /**
   Alignment: the i-th realm gets the share whose index recovery will look up for it, and its
   signed key, tag and commitment are made for that realm and that share.
   */
  lemma RequestsAligned<P>(cr: Crypto<P>, c: Configuration, reg: Registration)
    requires Acceptable(c) && WellFormed(cr, c, reg)
    ensures |PrepareRequests(cr, c, reg)| == |c.realms|
    ensures forall i :: 0 <= i < |c.realms| ==>
      && PrepareRequests(cr, c, reg)[i] == (c.realms[i], Record(cr, c, reg, i))
      && ShareIndex(c, c.realms[i].id) == Some(KeyShare(cr, reg, i).index)
      && KeyShare(cr, reg, i).index == ScalarShare(cr, reg, i).index
  {
    forall i | 0 <= i < |c.realms|
      ensures PrepareRequests(cr, c, reg)[i] == (c.realms[i], Record(cr, c, reg, i))
      ensures ShareIndex(c, c.realms[i].id) == Some(i + 1)
    {
      ShareIndices(c, i);
    }
  }

  /** What the requests carry of the registration itself. */
  lemma RequestsCarry<P>(cr: Crypto<P>, c: Configuration, reg: Registration)
    requires Acceptable(c) && WellFormed(cr, c, reg)
    ensures |PrepareRequests(cr, c, reg)| == |c.realms|
    ensures forall i :: 0 <= i < |c.realms| ==>
      && PrepareRequests(cr, c, reg)[i].1.version == reg.version
      && PrepareRequests(cr, c, reg)[i].1.numGuesses == reg.numGuesses
  {
    hide PrepareRequests, KeyShare, ScalarShare, SignPublicKey, OprfResult, UnlockKey, EncryptedSecret, CommitmentOf,
         TagFor, SecretCommitment;
    RequestsAligned(cr, c, reg);
  }

  // ---- derived keys depend on everything they are derived from ----

  /** The idealization of a MAC: it has no collisions, over keys and messages. */
  ghost predicate MacInjective(mac: (Bytes, Bytes) -> Bytes) {
    forall k, m, k', m' :: mac(k, m) == mac(k', m') ==> k == k' && m == m'
  }

  /** Decrypting needs both the PIN's half of the key and the scalar the realms hold shares of. */
  lemma EncryptionKeysApart<P(!new)>(cr: Crypto<P>, seed: Bytes, scalar: int, seed': Bytes, scalar': int)
    requires IsCrypto(cr) && MacInjective(cr.mac32)
    requires EncryptionKey(cr, seed, scalar) == EncryptionKey(cr, seed', scalar')
    ensures seed == seed' && Same(cr.suite.field, scalar, scalar')
  {
    assert ScalarBytesLaw(cr.suite, scalar, scalar') && ScalarBytesLaw(cr.suite, scalar', scalar);
    var a, b := cr.suite.scalarBytes(scalar), cr.suite.scalarBytes(scalar');
    Widths();
    EncodeInjective(4, [USER_SECRET_ENCRYPTION_KEY, a], [USER_SECRET_ENCRYPTION_KEY, b]);
    assert [USER_SECRET_ENCRYPTION_KEY, a][1] == [USER_SECRET_ENCRYPTION_KEY, b][1];
  }

  /** Each realm has its own tag, under each unlock key. */
  lemma TagsApart<P>(cr: Crypto<P>, key: Bytes, realm: RealmId, key': Bytes, realm': RealmId)
    requires MacInjective(cr.mac16) && TagFor(cr, key, realm) == TagFor(cr, key', realm')
    ensures key == key' && realm == realm'
  {
    MacMessagesApart(realm, [], [], realm', [], []);
  }

  /** A secret commitment fixes its key, realm, share and ciphertext, and is no tag. */
  lemma SecretCommitmentsApart<P(!new)>(cr: Crypto<P>, key: Bytes, realm: RealmId, share: int, secret: Bytes,
                                        key': Bytes, realm': RealmId, share': int, secret': Bytes)
    requires IsCrypto(cr) && MacInjective(cr.mac16) && |secret| == |secret'| == 145
    ensures SecretCommitment(cr, key, realm, share, secret) == SecretCommitment(cr, key', realm', share', secret') ==>
      key == key' && realm == realm' && Same(cr.suite.field, share, share') && secret == secret'
    ensures SecretCommitment(cr, key, realm, share, secret) != TagFor(cr, key', realm')
  {
    assert ScalarBytesLaw(cr.suite, share, share') && ScalarBytesLaw(cr.suite, share', share);
    MacMessagesApart(realm, cr.suite.scalarBytes(share), secret, realm', cr.suite.scalarBytes(share'), secret');
    MacMessagesApart(realm', cr.suite.scalarBytes(share'), secret', realm, cr.suite.scalarBytes(share), secret);
  }

  /** A commitment says nothing about its unlock key, nor the key about the commitment. */
  lemma UnlockKeyIndependent<P>(cr: Crypto<P>, a: Bytes, b: Bytes) returns (left: Crypto<P>, right: Crypto<P>)
    requires a != b
    ensures left == cr.(digest := left.digest) && right == cr.(digest := right.digest)
    ensures CommitmentOf(left, a) == CommitmentOf(left, b) && UnlockKeyOf(left, a) != UnlockKeyOf(left, b)
    ensures CommitmentOf(right, a) != CommitmentOf(right, b) && UnlockKeyOf(right, a) == UnlockKeyOf(right, b)
  {
    left := cr.(digest := (m: Bytes) => ([], m));
    right := cr.(digest := (m: Bytes) => (m, []));
  }

  /** The access key says nothing about the encryption key seed, nor the seed about the access key. */
  lemma SeedIndependent<P>(cr: Crypto<P>, mode: PinHashingMode, pin: Bytes, pin': Bytes, version: Version,
                           info: UserInfo)
    returns (left: Crypto<P>, right: Crypto<P>)
    requires pin != pin'
    ensures left == cr.(argon2 := left.argon2) && right == cr.(argon2 := right.argon2)
    ensures var a, b := HashPin(left, mode, pin, version, info), HashPin(left, mode, pin', version, info);
            a.0 == b.0 && a.1 != b.1
    ensures var a, b := HashPin(right, mode, pin, version, info), HashPin(right, mode, pin', version, info);
            a.0 != b.0 && a.1 == b.1
  {
    left := cr.(argon2 := (m: PinHashingMode, p: Bytes, s: Bytes) => ([], p));
    right := cr.(argon2 := (m: PinHashingMode, p: Bytes, s: Bytes) => (p, []));
  }

  /** The idealization of the password hash: neither half of its output has collisions. */
  ghost predicate PinHashInjective<P>(cr: Crypto<P>) {
    forall mode, pin, salt, mode', pin', salt' ::
      (cr.argon2(mode, pin, salt).0 == cr.argon2(mode', pin', salt').0 ||
       cr.argon2(mode, pin, salt).1 == cr.argon2(mode', pin', salt').1) ==>
        mode == mode' && pin == pin' && salt == salt'
  }

  /** Either half of a hashed PIN fixes the mode, the PIN, the version and the user information. */
  lemma PinHashesApart<P>(cr: Crypto<P>, mode: PinHashingMode, pin: Bytes, version: Version, info: UserInfo,
                          mode': PinHashingMode, pin': Bytes, version': Version, info': UserInfo)
    requires PinHashInjective(cr)
    requires var a, b := HashPin(cr, mode, pin, version, info), HashPin(cr, mode', pin', version', info');
             a.0 == b.0 || a.1 == b.1
    ensures mode == mode' && pin == pin' && version == version' && info == info'
  {
    SaltsApart(version, info, version', info');
  }

  // ---- running a registration ----

  datatype RegisterError =
    RegisterInvalidAuth | RegisterUpgradeRequired | RegisterRateLimitExceeded | RegisterAssertion | RegisterTransient

  /** The derived order of the error type. */
  function RegisterRank(e: RegisterError): int {
    match e
    case RegisterInvalidAuth => 0
    case RegisterUpgradeRequired => 1
    case RegisterRateLimitExceeded => 2
    case RegisterAssertion => 3
    case RegisterTransient => 4
  }

  /** A panic has no error; what is returned for it is never looked at. */
  function RegisterFailure(e: NoAnswer): RegisterError {
    match e
    case Refused(InvalidAuth) => RegisterInvalidAuth
    case Refused(UpgradeRequired) => RegisterUpgradeRequired
    case Refused(RateLimitExceeded) => RegisterRateLimitExceeded
    case Refused(Transient) => RegisterTransient
    case Refused(Assertion) => RegisterAssertion
    case ClientPanicked => RegisterAssertion
  }

  function Register1OnRealm<P>(answer: Answer<P>): Result<(), RegisterError> {
    match answer
    case Err(e) => Err(RegisterFailure(e))
    case Ok(response) => if response.Register1Response? then Ok(()) else Err(RegisterAssertion)
  }

  function Register2OnRealm<P>(answer: Answer<P>): Result<(), RegisterError> {
    match answer
    case Err(e) => Err(RegisterFailure(e))
    case Ok(response) => if response.Register2Response? then Ok(()) else Err(RegisterAssertion)
  }

  datatype RegisterOutcome = RegisterSucceeded | RegisterFailed(error: RegisterError) | RegisterPanicked

  function Registered1<P>(answers: seq<Answer<P>>): (results: seq<Result<(), RegisterError>>)
    ensures |results| == |answers|
  {
    seq(|answers|, i requires 0 <= i < |answers| => Register1OnRealm(answers[i]))
  }

  function Registered2<P>(answers: seq<Answer<P>>): (results: seq<Result<(), RegisterError>>)
    ensures |results| == |answers|
  {
    seq(|answers|, i requires 0 <= i < |answers| => Register2OnRealm(answers[i]))
  }

  function PanicsIn<P>(answers: seq<Answer<P>>): (panics: seq<bool>)
    ensures |panics| == |answers|
  {
    seq(|answers|, i requires 0 <= i < |answers| => Panics(answers[i]))
  }

  ghost predicate Interrupts1<P>(c: Configuration, answers: seq<Answer<P>>) {
    Interrupted(Registered1(answers), PanicsIn(answers), c.registerThreshold)
  }

  ghost predicate Interrupts2<P>(c: Configuration, answers: seq<Answer<P>>) {
    Interrupted(Registered2(answers), PanicsIn(answers), c.registerThreshold)
  }

  /**
   The two phases of `perform_register`, given the realms' answers in the order in which they
   arrive. A register threshold of zero, which configurations allow, panics in the join, and a
   request that panics interrupts it. A failure of either phase is reported with the error that
   decided its join.
   */
  method PerformRegister<P>(c: Configuration, answers1: seq<Answer<P>>, answers2: seq<Answer<P>>)
    returns (r: RegisterOutcome)
    requires c.registerThreshold <= |c.realms| && |answers1| == |answers2| == |c.realms|
    ensures r.RegisterPanicked? <==>
      c.registerThreshold == 0 || Interrupts1(c, answers1) ||
      (|Oks(Registered1(answers1))| >= c.registerThreshold && Interrupts2(c, answers2))
    ensures r.RegisterSucceeded? <==>
      c.registerThreshold > 0 && !Interrupts1(c, answers1) && !Interrupts2(c, answers2) &&
      |Oks(Registered1(answers1))| >= c.registerThreshold && |Oks(Registered2(answers2))| >= c.registerThreshold
    ensures r.RegisterFailed? && |Oks(Registered1(answers1))| < c.registerThreshold ==>
      Joined(Registered1(answers1), c.registerThreshold, RegisterRank) == Err(r.error)
    ensures r.RegisterFailed? && |Oks(Registered1(answers1))| >= c.registerThreshold ==>
      Joined(Registered2(answers2), c.registerThreshold, RegisterRank) == Err(r.error)
  {
    if c.registerThreshold == 0 { return RegisterPanicked; }
    var joined1 := JoinAtLeastThreshold(Registered1(answers1), PanicsIn(answers1), c.registerThreshold, RegisterRank);
    if joined1.None? { return RegisterPanicked; }
    if joined1.value.Err? { return RegisterFailed(joined1.value.error); }
    var joined2 := JoinAtLeastThreshold(Registered2(answers2), PanicsIn(answers2), c.registerThreshold, RegisterRank);
    if joined2.None? { return RegisterPanicked; }
    if joined2.value.Err? { return RegisterFailed(joined2.value.error); }
    return RegisterSucceeded;
  }

  /** Only the response of its own phase counts as success. */
  lemma RegisterVerdicts<P>(answer: Answer<P>)
    ensures Register1OnRealm(answer).Ok? <==> answer.Ok? && answer.value == Register1Response
    ensures Register2OnRealm(answer).Ok? <==> answer.Ok? && answer.value == Register2Response
  {
  }

  /** What an answer means for a registration if every realm gives it. */
  ghost predicate MeansFailure<P>(answer: Answer<P>, e: RegisterError) {
    || (answer == Err(Refused(InvalidAuth)) && e == RegisterInvalidAuth)
    || (answer == Err(Refused(UpgradeRequired)) && e == RegisterUpgradeRequired)
    || (answer == Err(Refused(RateLimitExceeded)) && e == RegisterRateLimitExceeded)
    || (answer == Err(Refused(Transient)) && e == RegisterTransient)
    || (answer == Err(Refused(Assertion)) && e == RegisterAssertion)
  }

  /** Errors of the request engine keep their kind, in both phases; so do responses of a wrong kind. */
  lemma AllRefuse<P>(c: Configuration, answers: seq<Answer<P>>, answer: Answer<P>, e: RegisterError)
    requires 0 < c.registerThreshold <= |answers| && forall i :: 0 <= i < |answers| ==> answers[i] == answer
    ensures MeansFailure(answer, e) || (answer.Ok? && !answer.value.Register1Response? && e == RegisterAssertion) ==>
      Joined(Registered1(answers), c.registerThreshold, RegisterRank) == Err(e)
    ensures MeansFailure(answer, e) || (answer.Ok? && !answer.value.Register2Response? && e == RegisterAssertion) ==>
      Joined(Registered2(answers), c.registerThreshold, RegisterRank) == Err(e)
  {
    if MeansFailure(answer, e) || (answer.Ok? && !answer.value.Register1Response? && e == RegisterAssertion) {
      JoinedFails(Registered1(answers), c.registerThreshold, RegisterRank, e);
    }
    if MeansFailure(answer, e) || (answer.Ok? && !answer.value.Register2Response? && e == RegisterAssertion) {
      JoinedFails(Registered2(answers), c.registerThreshold, RegisterRank, e);
    }
  }

  /** The errors in the order in which a join prefers them. */
  lemma RegisterPreference()
    ensures RegisterRank(RegisterInvalidAuth) < RegisterRank(RegisterUpgradeRequired)
    ensures RegisterRank(RegisterUpgradeRequired) < RegisterRank(RegisterRateLimitExceeded)
    ensures RegisterRank(RegisterRateLimitExceeded) < RegisterRank(RegisterAssertion) < RegisterRank(RegisterTransient)
  {
  }
}
