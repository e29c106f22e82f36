/**
 What a client can conclude from answers that pass its checks, under ideal primitives.

 `Unforgeable` is that idealization, for one registration: whatever a realm answers, a valid
 signature under the registration's key is on a message its client signed, a valid MAC under
 its unlock key is on a message its client authenticated, and an accepted proof has a witness.
 */
module Authenticity {
  import opened Wrappers
  import opened Encoding
  import opened Fields
  import opened Spaces
  import opened Shamir
  import opened Threshold
  import opened Oprf
  import opened Configurations
  import opened Requests
  import opened Registrations
  import opened Recovery

  // ---- the idealization ----

  ghost predicate Signed<P>(cr: Crypto<P>, c: Configuration, reg: Registration, message: Bytes)
    requires |c.realms| < U32_LIMIT
  {
    exists i :: 0 <= i < |c.realms| &&
      message == SignatureMessage(c.realms[i].id, Record(cr, c, reg, i).oprfSignedPublicKey.publicKey)
  }

  /** Under one unlock key the client authenticates tags and secret commitments. */
  ghost predicate Authenticated<P>(cr: Crypto<P>, c: Configuration, reg: Registration, message: Bytes)
    requires |c.realms| < U32_LIMIT
  {
    exists i :: 0 <= i < |c.realms| &&
      (message == TagMessage(c.realms[i].id) ||
       message == CommitmentMessage(c.realms[i].id, cr.suite.scalarBytes(ScalarShare(cr, reg, i).secret),
                                    EncryptedSecret(cr, c, reg)))
  }

  ghost predicate SignatureHolds<P>(cr: Crypto<P>, c: Configuration, reg: Registration, env: Environment<P>,
                                    realm: Realm, request: Recover2Request<P>)
    requires |c.realms| < U32_LIMIT
  {
    match env.answer2(realm, request)
    case Ok(Recover2Response(Recover2Ok(signed, _, _, _, _, _))) =>
      signed.verifyingKey == cr.verifyingKey(reg.signingKey) && VerifySigned(cr, signed, realm.id) ==>
        Signed(cr, c, reg, SignatureMessage(realm.id, signed.publicKey))
    case _ => true
  }

  ghost predicate ProofHolds<P>(cr: Crypto<P>, env: Environment<P>, realm: Realm, request: Recover2Request<P>) {
    match env.answer2(realm, request)
    case Ok(Recover2Response(Recover2Ok(signed, result, proof, _, _, _))) =>
      VerifyProof(cr.suite, request.oprfBlindedInput, result, signed.publicKey, proof).Ok? ==>
        exists x :: EqualLogs(cr.suite, request.oprfBlindedInput,
                              cr.suite.decompress(signed.publicKey).value, result, x)
    case _ => true
  }

  ghost predicate CommitmentHolds<P>(cr: Crypto<P>, c: Configuration, reg: Registration, env: Environment<P>,
                                     realm: Realm, request: Recover3Request)
    requires |c.realms| < U32_LIMIT
  {
    match env.answer3(realm, request)
    case Ok(Recover3Response(Recover3Ok(share, encrypted, commitment))) =>
      commitment == SecretCommitment(cr, UnlockKey(cr, c, reg), realm.id, share, encrypted) ==>
        Authenticated(cr, c, reg, CommitmentMessage(realm.id, cr.suite.scalarBytes(share), encrypted))
    case _ => true
  }

  ghost predicate Unforgeable<P(!new)>(cr: Crypto<P>, c: Configuration, reg: Registration, env: Environment<P>)
    requires |c.realms| < U32_LIMIT
  {
    && (forall realm, request :: SignatureHolds(cr, c, reg, env, realm, request))
    && (forall realm, request :: ProofHolds(cr, env, realm, request))
    && (forall realm, request :: CommitmentHolds(cr, c, reg, env, realm, request))
  }

  // ---- what registrations contain ----

  lemma ShareValues<P(!new)>(cr: Crypto<P>, c: Configuration, reg: Registration, i: nat)
    requires IsCrypto(cr) && WellFormed(cr, c, reg) && i + 1 < U32_LIMIT
    ensures cr.suite.field.reduce(ScalarShare(cr, reg, i).secret) == ScalarShare(cr, reg, i).secret
    ensures cr.suite.field.reduce(KeyShare(cr, reg, i).secret) == KeyShare(cr, reg, i).secret
  {
    var f := cr.suite.field;
    ScalarSpaceIsSpace(f);
    FromPolynomialIn(f, ScalarSpace(f), reg.scalar, reg.scalarCoefficients, [ScalarShare(cr, reg, i)]);
    FromPolynomialIn(f, ScalarSpace(f), reg.rootKey, reg.keyCoefficients, [KeyShare(cr, reg, i)]);
    assert ScalarSpace(f).has([ScalarShare(cr, reg, i)][0].secret);
    assert ScalarSpace(f).has([KeyShare(cr, reg, i)][0].secret);
  }

  lemma EncryptedSecretSize<P(!new)>(cr: Crypto<P>, c: Configuration, reg: Registration)
    requires IsCrypto(cr)
    ensures |EncryptedSecret(cr, c, reg)| == 145
  {
    var seed := HashPin(cr, c.pinHashingMode, reg.pin, reg.version, reg.info).1;
    assert CipherLaw(cr, EncryptionKey(cr, seed, reg.scalar), Pad(reg.secret));
  }

  // ---- phase 2: accepted shares are genuine ----

  /** The i-th realm's share of the evaluation of `u` under the registration's root key. */
  function GenuineShare<P>(cr: Crypto<P>, reg: Registration, u: P, i: nat): Share<P>
    requires i + 1 < U32_LIMIT
  {
    Share(i + 1, BlindEvaluate(cr.suite, KeyShare(cr, reg, i).secret, u))
  }

  lemma SignedKeyIsGenuine<P(!new)>(cr: Crypto<P>, c: Configuration, reg: Registration, i: nat, publicKey: Bytes)
    requires IsCrypto(cr) && Acceptable(c) && i < |c.realms| && |publicKey| == 32
    requires Signed(cr, c, reg, SignatureMessage(c.realms[i].id, publicKey))
    ensures publicKey == ToPublicKey(cr.suite, KeyShare(cr, reg, i).secret)
  {
    var j :| 0 <= j < |c.realms| && SignatureMessage(c.realms[i].id, publicKey) ==
      SignatureMessage(c.realms[j].id, Record(cr, c, reg, j).oprfSignedPublicKey.publicKey);
    var key := Record(cr, c, reg, j).oprfSignedPublicKey.publicKey;
    Point(cr.suite, cr.suite.points.scale(cr.suite.base, KeyShare(cr, reg, j).secret));
    SignatureMessagesApart(c.realms[i].id, publicKey, c.realms[j].id, key);
    SameRealm(c.realms, i, j);
  }

  /** An accepted answer under the registration's verifying key carries the genuine share. */
  lemma AcceptedShareIsGenuine<P(!new)>(cr: Crypto<P>, c: Configuration, reg: Registration, env: Environment<P>,
                                        i: nat, request: Recover2Request<P>)
    requires IsCrypto(cr) && Acceptable(c) && i < |c.realms| && Unforgeable(cr, c, reg, env)
    requires Recover2OnRealm(cr, c, env, c.realms[i], request).Ok?
    requires Recover2OnRealm(cr, c, env, c.realms[i], request).value.0.1 == cr.verifyingKey(reg.signingKey)
    ensures Recover2OnRealm(cr, c, env, c.realms[i], request).value.1.0 ==
            GenuineShare(cr, reg, request.oprfBlindedInput, i)
  {
    hide Record, VerifySigned, KeyShare, IsCrypto;
    var realm, u, s := c.realms[i], request.oprfBlindedInput, cr.suite;
    assert SignatureHolds(cr, c, reg, env, realm, request);
    assert ProofHolds(cr, env, realm, request);
    var answer := env.answer2(realm, request).value.recover2;
    var key := KeyShare(cr, reg, i).secret;
    SignedKeyIsGenuine(cr, c, reg, i, answer.oprfSignedPublicKey.publicKey);
    SuiteOf(cr);
    Point(s, s.points.scale(s.base, key));
    var x :| EqualLogs(s, u, s.decompress(answer.oprfSignedPublicKey.publicKey).value, answer.oprfBlindedResult, x);
    EqualLogsIsEvaluation(s, u, answer.oprfBlindedResult, key, x);
    ShareIndices(c, i);
  }

  lemma SuiteOf<P(!new)>(cr: Crypto<P>)
    requires IsCrypto(cr)
    ensures IsSuite(cr.suite) && IsSpace(cr.suite.field, cr.suite.points) && IsField(cr.suite.field)
  {
  }

  ghost predicate AllGenuine<P>(cr: Crypto<P>, c: Configuration, reg: Registration, u: P, shares: seq<Share<P>>)
    requires |c.realms| < U32_LIMIT
  {
    forall k :: 0 <= k < |shares| ==>
      1 <= shares[k].index <= |c.realms| && shares[k] == GenuineShare(cr, reg, u, shares[k].index - 1)
  }

  /** The key shares behind genuine shares. */
  function KeysBehind<P>(cr: Crypto<P>, c: Configuration, reg: Registration,
                         shares: seq<Share<P>>): (keys: seq<Share<int>>)
    requires |c.realms| < U32_LIMIT
    requires forall k :: 0 <= k < |shares| ==> 1 <= shares[k].index <= |c.realms|
    ensures |keys| == |shares|
  {
    seq(|shares|, k requires 0 <= k < |shares| => KeyShare(cr, reg, shares[k].index - 1))
  }

  lemma KeysBehindRecover<P(!new)>(cr: Crypto<P>, c: Configuration, reg: Registration, shares: seq<Share<P>>)
    requires IsCrypto(cr) && Acceptable(c) && WellFormed(cr, c, reg)
    requires forall k :: 0 <= k < |shares| ==> 1 <= shares[k].index <= |c.realms|
    requires DistinctIndices(shares) && |shares| >= c.recoverThreshold
    ensures var keys, scalars := KeysBehind(cr, c, reg, shares), ScalarSpace(cr.suite.field);
            SharesIn(scalars, keys) && RecoverSecret(cr.suite.field, scalars, keys) == Ok(reg.rootKey)
  {
    hide RecoverSecret, IsCrypto;
    SuiteOf(cr);
    var f, keys := cr.suite.field, KeysBehind(cr, c, reg, shares);
    var scalars := ScalarSpace(f);
    ScalarSpaceIsSpace(f);
    assert FromPolynomial(scalars, reg.rootKey, reg.keyCoefficients, keys);
    FromPolynomialIn(f, scalars, reg.rootKey, reg.keyCoefficients, keys);
    assert DistinctIndices(keys);
    RecoverCreated(f, scalars, reg.rootKey, reg.keyCoefficients, keys);
  }

  /** Enough genuine shares with different indices recombine to the evaluation under the root key. */
  lemma RecoverGenuine<P(!new)>(cr: Crypto<P>, c: Configuration, reg: Registration, u: P, shares: seq<Share<P>>)
    requires IsCrypto(cr) && Acceptable(c) && WellFormed(cr, c, reg)
    requires AllGenuine(cr, c, reg, u, shares) && DistinctIndices(shares) && |shares| >= c.recoverThreshold
    ensures RecoverSecret(cr.suite.field, cr.suite.points, shares) == Ok(BlindEvaluate(cr.suite, reg.rootKey, u))
  {
    hide RecoverSecret, IsCrypto, WellFormed, Horner, SharesIn;
    SuiteOf(cr);
    var keys := KeysBehind(cr, c, reg, shares);
    KeysBehindRecover(cr, c, reg, shares);
    RecoverEvaluated(cr.suite, keys, reg.rootKey, u);
    assert EvaluateShares(cr.suite, keys, u) == shares;
  }

  // ---- phase 3: verified shares are genuine ----

  lemma AuthenticatedIsGenuine<P(!new)>(cr: Crypto<P>, c: Configuration, reg: Registration, i: nat, share: int,
                                        encrypted: Bytes)
    requires IsCrypto(cr) && Acceptable(c) && WellFormed(cr, c, reg) && i < |c.realms|
    requires cr.suite.field.reduce(share) == share && |encrypted| == 145
    requires Authenticated(cr, c, reg, CommitmentMessage(c.realms[i].id, cr.suite.scalarBytes(share), encrypted))
    ensures encrypted == EncryptedSecret(cr, c, reg) && share == ScalarShare(cr, reg, i).secret
  {
    hide ScalarShare, EncryptedSecret, CommitmentMessage, TagMessage, IsSpace;
    var message := CommitmentMessage(c.realms[i].id, cr.suite.scalarBytes(share), encrypted);
    var j :| 0 <= j < |c.realms| &&
      (message == TagMessage(c.realms[j].id) ||
       message == CommitmentMessage(c.realms[j].id, cr.suite.scalarBytes(ScalarShare(cr, reg, j).secret),
                                    EncryptedSecret(cr, c, reg)));
    var genuine := ScalarShare(cr, reg, j).secret;
    assert ScalarBytesLaw(cr.suite, share, genuine);
    assert ScalarBytesLaw(cr.suite, genuine, share);
    EncryptedSecretSize(cr, c, reg);
    MacMessagesApart(c.realms[j].id, cr.suite.scalarBytes(genuine), EncryptedSecret(cr, c, reg),
                     c.realms[i].id, cr.suite.scalarBytes(share), encrypted);
    SameRealm(c.realms, i, j);
    ShareValues(cr, c, reg, i);
  }

  /** A phase 3 answer that passes the commitment check is the one made at registration. */
  lemma VerifiedIsGenuine<P(!new)>(cr: Crypto<P>, c: Configuration, reg: Registration, env: Environment<P>,
                                   i: nat, request: Recover3Request)
    requires IsCrypto(cr) && Acceptable(c) && WellFormed(cr, c, reg) && i < |c.realms|
    requires Unforgeable(cr, c, reg, env)
    requires Recover3OnRealm(cr, c, env, c.realms[i], request).Ok?
    requires Verified(cr, UnlockKey(cr, c, reg), Recover3OnRealm(cr, c, env, c.realms[i], request).value).Some?
    ensures Verified(cr, UnlockKey(cr, c, reg), Recover3OnRealm(cr, c, env, c.realms[i], request).value) ==
            Some((EncryptedSecret(cr, c, reg), ScalarShare(cr, reg, i)))
  {
    hide ScalarShare, EncryptedSecret, UnlockKey, Authenticated, WellFormed, IsCrypto;
    var item := Recover3OnRealm(cr, c, env, c.realms[i], request).value;
    assert CommitmentHolds(cr, c, reg, env, c.realms[i], request);
    AuthenticatedIsGenuine(cr, c, reg, i, item.share.secret, item.encryptedSecret);
    ShareIndices(c, i);
    assert ScalarShare(cr, reg, i).index == i + 1 by { ScalarShareIndex(cr, reg, i); }
  }

  lemma ScalarShareIndex<P>(cr: Crypto<P>, reg: Registration, i: nat)
    requires i + 1 < U32_LIMIT
    ensures ScalarShare(cr, reg, i).index == i + 1
  {
  }

  ghost predicate AllGenuineScalars<P>(cr: Crypto<P>, c: Configuration, reg: Registration, shares: seq<Share<int>>)
    requires |c.realms| < U32_LIMIT
  {
    forall k :: 0 <= k < |shares| ==>
      1 <= shares[k].index <= |c.realms| && shares[k] == ScalarShare(cr, reg, shares[k].index - 1)
  }

  /** Enough genuine scalar shares decrypt the registered ciphertext to the registered secret. */
  lemma DecryptGenuine<P(!new)>(cr: Crypto<P>, c: Configuration, reg: Registration, shares: seq<Share<int>>)
    requires IsCrypto(cr) && Acceptable(c) && WellFormed(cr, c, reg)
    requires AllGenuineScalars(cr, c, reg, shares) && DistinctIndices(shares) && |shares| >= c.recoverThreshold
    ensures var seed := HashPin(cr, c.pinHashingMode, reg.pin, reg.version, reg.info).1;
            DecryptFrom(cr, seed, (EncryptedSecret(cr, c, reg), shares)) == Recovered(reg.secret)
  {
    hide RecoverSecret;
    var f := cr.suite.field;
    var seed := HashPin(cr, c.pinHashingMode, reg.pin, reg.version, reg.info).1;
    ScalarSpaceIsSpace(f);
    assert FromPolynomial(ScalarSpace(f), reg.scalar, reg.scalarCoefficients, shares);
    RecoverCreated(f, ScalarSpace(f), reg.scalar, reg.scalarCoefficients, shares);
    assert CipherLaw(cr, EncryptionKey(cr, seed, reg.scalar), Pad(reg.secret));
    PadRoundTrip(reg.secret);
  }
}
