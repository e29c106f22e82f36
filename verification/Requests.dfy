/** Requests to a realm and its responses. */
module Requests {
  import opened Wrappers
  import opened Encoding
  import opened Oprf

  type U16 = i: int | 0 <= i < 0x1_0000

  type Version = v: Bytes | |v| == 16 witness [0, 0, 0, 0, 0, 0, 0, 0, 0, 0, 0, 0, 0, 0, 0, 0]

  datatype SignedPublicKey = SignedPublicKey(publicKey: Bytes, verifyingKey: Bytes, signature: Bytes)

  datatype Register2Request = Register2Request(
    version: Version,
    oprfPrivateKey: int,
    oprfSignedPublicKey: SignedPublicKey,
    unlockKeyCommitment: Bytes,
    unlockKeyTag: Bytes,
    encryptionKeyScalarShare: int,
    encryptedSecret: Bytes,
    encryptedSecretCommitment: Bytes,
    numGuesses: U16)

  datatype Recover2Request<P> = Recover2Request(version: Version, oprfBlindedInput: P)

  datatype Recover3Request = Recover3Request(version: Version, unlockKeyTag: Bytes)

  datatype SecretsRequest<P> =
    | Register1
    | Register2(register2: Register2Request)
    | Recover1
    | Recover2(recover2: Recover2Request<P>)
    | Recover3(recover3: Recover3Request)
    | Delete

  predicate NeedsForwardSecrecy<P>(request: SecretsRequest<P>) {
    match request
    case Register1 => false
    case Register2(_) => true
    case Recover1 => false
    case Recover2(_) => true
    case Recover3(_) => true
    case Delete => false
  }

  datatype Recover1Response = Recover1Ok(version: Version) | Recover1NotRegistered | Recover1NoGuesses

  datatype Recover2Response<P> =
    | Recover2Ok(
        oprfSignedPublicKey: SignedPublicKey,
        oprfBlindedResult: P,
        oprfProof: Proof,
        unlockKeyCommitment: Bytes,
        numGuesses: U16,
        guessCount: U16)
    | Recover2VersionMismatch
    | Recover2NotRegistered
    | Recover2NoGuesses

  datatype Recover3Response =
    | Recover3Ok(encryptionKeyScalarShare: int, encryptedSecret: Bytes, encryptedSecretCommitment: Bytes)
    | Recover3VersionMismatch
    | Recover3NotRegistered
    | BadUnlockKeyTag(guessesRemaining: U16)
    | Recover3NoGuesses

  datatype SecretsResponse<P> =
    | Register1Response
    | Register2Response
    | Recover1Response(recover1: Recover1Response)
    | Recover2Response(recover2: Recover2Response<P>)
    | Recover3Response(recover3: Recover3Response)
    | DeleteResponse

  datatype RequestError = InvalidAuth | UpgradeRequired | RateLimitExceeded | Transient | Assertion

  /**
   Why a request has no answer: an error that the client reports, or a panic of the client while
   it makes the request. It panics if a hardware realm's response claims an impossible length, if
   a session's nonces have run out, or if the client has no slot for the realm's session.
   */
  datatype NoAnswer = Refused(error: RequestError) | ClientPanicked

  /** What `make_request` returns to the operation that issued the request. */
  type Answer<P> = Result<SecretsResponse<P>, NoAnswer>

  predicate Panics<P>(answer: Answer<P>) {
    answer.Err? && answer.error.ClientPanicked?
  }

  // ---- padded responses ----

  const MAX_SECRETS_RESPONSE_LENGTH: int := 436

  type PaddedBytes = b: Bytes | |b| == 436 witness seq(436, i => 0)

  datatype PaddedResponse = PaddedResponse(unpaddedLength: U16, paddedBytes: PaddedBytes)

  /** None where the source panics: the encoded response is too long. */
  function PadResponse(encoded: Bytes): Option<PaddedResponse> {
    if |encoded| > MAX_SECRETS_RESPONSE_LENGTH then None
    else Some(PaddedResponse(|encoded|, encoded + seq(MAX_SECRETS_RESPONSE_LENGTH - |encoded|, i => 0)))
  }

  /** None where the source panics: the length a realm sent exceeds the bytes it sent. */
  function UnpadResponse(padded: PaddedResponse): Option<Bytes> {
    if padded.unpaddedLength > MAX_SECRETS_RESPONSE_LENGTH then None
    else Some(padded.paddedBytes[..padded.unpaddedLength])
  }

  /** Padding hides the length on the wire and loses nothing. */
  lemma PaddedRoundTrip(encoded: Bytes)
    ensures PadResponse(encoded).Some? <==> |encoded| <= MAX_SECRETS_RESPONSE_LENGTH
    ensures PadResponse(encoded).Some? ==> UnpadResponse(PadResponse(encoded).value) == Some(encoded)
    ensures PadResponse(encoded).Some? ==>
      forall i :: |encoded| <= i < MAX_SECRETS_RESPONSE_LENGTH ==> PadResponse(encoded).value.paddedBytes[i] == 0
  {
  }
}
