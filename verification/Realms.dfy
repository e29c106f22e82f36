/**
 The registration state a realm keeps for one user, and how each request changes it, after
 the pseudocode of the protocol paper. The class performs the steps in place; the functions
 give the new state and the response of each step.
 */
module Realms {
  import opened Encoding
  import opened Requests
  import opened Oprf

  datatype RealmState = NotRegistered | Registered(registration: Register2Request, attempted: nat) | NoGuesses

  function AfterRecover1(state: RealmState): RealmState {
    if state.Registered? && state.attempted >= state.registration.numGuesses then NoGuesses else state
  }

  function Recover1Reply(state: RealmState): Recover1Response {
    match state
    case Registered(registration, attempted) =>
      if attempted >= registration.numGuesses then Recover1NoGuesses else Recover1Ok(registration.version)
    case NoGuesses => Recover1NoGuesses
    case NotRegistered => Recover1NotRegistered
  }

  function AfterRecover2<P>(state: RealmState, request: Recover2Request<P>): RealmState {
    if !state.Registered? then state
    else if state.attempted >= state.registration.numGuesses then NoGuesses
    else if request.version != state.registration.version then state
    else state.(attempted := state.attempted + 1)
  }

  /** `betaT` is the randomness of the proof. */
  function Recover2Reply<P>(s: Suite<P>, state: RealmState, request: Recover2Request<P>,
                            betaT: int): Recover2Response<P> {
    match state
    case Registered(r, attempted) =>
      if attempted >= r.numGuesses then Recover2NoGuesses
      else if request.version != r.version then Recover2VersionMismatch
      else
        var result := BlindEvaluate(s, r.oprfPrivateKey, request.oprfBlindedInput);
        var proof := GenerateProof(s, betaT, r.oprfPrivateKey, request.oprfBlindedInput,
                                   r.oprfSignedPublicKey.publicKey, result);
        Recover2Ok(r.oprfSignedPublicKey, result, proof, r.unlockKeyCommitment, r.numGuesses, attempted + 1)
    case NoGuesses => Recover2NoGuesses
    case NotRegistered => Recover2NotRegistered
  }

  function AfterRecover3(state: RealmState, request: Recover3Request): RealmState {
    if !state.Registered? || request.version != state.registration.version then state
    else if request.unlockKeyTag != state.registration.unlockKeyTag then
      if state.attempted == state.registration.numGuesses then NoGuesses else state
    else state.(attempted := 0)
  }

  function Recover3Reply(state: RealmState, request: Recover3Request): Recover3Response
    requires Consistent(state)
  {
    match state
    case Registered(r, attempted) =>
      if request.version != r.version then Recover3VersionMismatch
      else if request.unlockKeyTag != r.unlockKeyTag then BadUnlockKeyTag(r.numGuesses - attempted)
      else Recover3Ok(r.encryptionKeyScalarShare, r.encryptedSecret, r.encryptedSecretCommitment)
    case NoGuesses => Recover3NoGuesses
    case NotRegistered => Recover3NotRegistered
  }

  /** Attempted guesses never exceed the allowed ones. */
  predicate Consistent(state: RealmState) {
    state.Registered? ==> state.attempted <= state.registration.numGuesses
  }

  // ---- guesses ----

  /** The state after phase 2 requests for one version, one after the other. */
  function AfterGuesses<P>(state: RealmState, requests: seq<Recover2Request<P>>): RealmState {
    if requests == [] then state
    else AfterRecover2(AfterGuesses(state, requests[..|requests| - 1]), requests[|requests| - 1])
  }

  /**
   A held registration grants exactly the guesses it has left: that many phase 2 requests for its
   version, each reporting its own place in the count, and no more.
   */
  lemma {:induction false} GuessBudget<P>(s: Suite<P>, r: Register2Request, attempted: nat,
                                          requests: seq<Recover2Request<P>>, next: Recover2Request<P>, betaT: int)
    requires attempted <= r.numGuesses && next.version == r.version
    requires forall i :: 0 <= i < |requests| ==> requests[i].version == r.version
    ensures var state := AfterGuesses(Registered(r, attempted), requests);
            var reply := Recover2Reply(s, state, next, betaT);
            if attempted + |requests| < r.numGuesses then
              state == Registered(r, attempted + |requests|) && reply.Recover2Ok? &&
              reply.numGuesses == r.numGuesses && reply.guessCount == attempted + |requests| + 1
            else
              reply == Recover2NoGuesses && (state == Registered(r, r.numGuesses) || state == NoGuesses)
  {
    if requests != [] {
      GuessBudget(s, r, attempted, requests[..|requests| - 1], requests[|requests| - 1], betaT);
    }
  }

  /**
   Phase 3 with the right version and tag gives the whole allowance back, whatever was attempted
   before, and hands out the registered share and ciphertext.
   */
  lemma UnlockRestores<P>(s: Suite<P>, r: Register2Request, attempted: nat, requests: seq<Recover2Request<P>>,
                          next: Recover2Request<P>, betaT: int)
    requires attempted <= r.numGuesses && next.version == r.version
    requires forall i :: 0 <= i < |requests| ==> requests[i].version == r.version
    ensures var unlock := Recover3Request(r.version, r.unlockKeyTag);
            Recover3Reply(Registered(r, attempted), unlock) ==
              Recover3Ok(r.encryptionKeyScalarShare, r.encryptedSecret, r.encryptedSecretCommitment)
    ensures var unlock := Recover3Request(r.version, r.unlockKeyTag);
            Recover2Reply(s, AfterGuesses(AfterRecover3(Registered(r, attempted), unlock), requests), next,
                          betaT).Recover2Ok?
            <==> |requests| < r.numGuesses
  {
    GuessBudget(s, r, 0, requests, next, betaT);
  }

  /**
   Phase 3 with a wrong tag changes nothing while guesses are left and tells how many phase 2
   requests will still be granted; with none left it uses up the registration.
   */
  lemma WrongTagTells<P>(s: Suite<P>, r: Register2Request, attempted: nat, tag: Bytes,
                         requests: seq<Recover2Request<P>>, next: Recover2Request<P>, betaT: int)
    requires attempted <= r.numGuesses && next.version == r.version && tag != r.unlockKeyTag
    requires forall i :: 0 <= i < |requests| ==> requests[i].version == r.version
    ensures var wrong := Recover3Request(r.version, tag);
            var reply := Recover3Reply(Registered(r, attempted), wrong);
            var after := AfterRecover3(Registered(r, attempted), wrong);
            var answer := Recover2Reply(s, AfterGuesses(after, requests), next, betaT);
            reply.BadUnlockKeyTag? && (reply.guessesRemaining == 0 <==> after == NoGuesses) &&
            (answer.Recover2Ok? <==> |requests| < reply.guessesRemaining)
  {
    if attempted < r.numGuesses {
      GuessBudget(s, r, attempted, requests, next, betaT);
    } else {
      UsedUpStays(requests);
    }
  }

  /** Requests with another version cost nothing while guesses are left. */
  lemma OtherVersionsFree<P>(s: Suite<P>, r: Register2Request, attempted: nat, second: Recover2Request<P>,
                             third: Recover3Request, betaT: int)
    requires attempted < r.numGuesses && second.version != r.version && third.version != r.version
    ensures var state := Registered(r, attempted);
            AfterRecover1(state) == AfterRecover2(state, second) == AfterRecover3(state, third) == state &&
            Recover1Reply(state) == Recover1Ok(r.version) &&
            Recover2Reply(s, state, second, betaT) == Recover2VersionMismatch &&
            Recover3Reply(state, third) == Recover3VersionMismatch
  {
  }

  lemma {:induction false} UsedUpStays<P>(requests: seq<Recover2Request<P>>)
    ensures AfterGuesses(NoGuesses, requests) == NoGuesses
  {
    if requests != [] {
      UsedUpStays(requests[..|requests| - 1]);
    }
  }

  /** One request of a recovery. */
  datatype RecoverRequest<P> =
    | FirstRequest
    | SecondRequest(second: Recover2Request<P>)
    | ThirdRequest(third: Recover3Request)

  function AfterRequest<P>(state: RealmState, request: RecoverRequest<P>): RealmState {
    match request
    case FirstRequest => AfterRecover1(state)
    case SecondRequest(second) => AfterRecover2(state, second)
    case ThirdRequest(third) => AfterRecover3(state, third)
  }

  function AfterRequests<P>(state: RealmState, requests: seq<RecoverRequest<P>>): RealmState {
    if requests == [] then state
    else AfterRequest(AfterRequests(state, requests[..|requests| - 1]), requests[|requests| - 1])
  }

  /**
   With no guess left the first request of phase 1 or 2 uses up the registration for good: no
   sequence of recovery requests, with the right tag or not, brings anything but that answer.
   */
  lemma {:induction false} UsedUp<P>(s: Suite<P>, r: Register2Request, first: RecoverRequest<P>,
                                     requests: seq<RecoverRequest<P>>, second: Recover2Request<P>,
                                     third: Recover3Request, betaT: int)
    requires !first.ThirdRequest?
    ensures var state := AfterRequests(AfterRequest(Registered(r, r.numGuesses), first), requests);
            state == NoGuesses && Recover1Reply(state) == Recover1NoGuesses &&
            Recover2Reply(s, state, second, betaT) == Recover2NoGuesses &&
              Recover3Reply(state, third) == Recover3NoGuesses
    ensures Recover1Reply(Registered(r, r.numGuesses)) == Recover1NoGuesses
    ensures Recover2Reply(s, Registered(r, r.numGuesses), second, betaT) == Recover2NoGuesses
  {
    if requests != [] {
      UsedUp(s, r, first, requests[..|requests| - 1], second, third, betaT);
    }
  }

  /** Carrying out k phase 2 requests raises the attempted guesses by at most k. */
  lemma {:induction false} GuessesSpent<P>(state: RealmState, requests: seq<Recover2Request<P>>)
    ensures var after := AfterGuesses(state, requests);
            after.Registered? ==>
              state.Registered? && after.registration == state.registration &&
              state.attempted <= after.attempted <= state.attempted + |requests|
  {
    if requests != [] {
      GuessesSpent(state, requests[..|requests| - 1]);
    }
  }

  class RealmRecord {
    var state: RealmState

    constructor ()
      ensures state == NotRegistered
    {
      state := NotRegistered;
    }

    method Register2(request: Register2Request)
      modifies this
      ensures state == Registered(request, 0)
    {
      state := Registered(request, 0);
    }

    method Delete()
      modifies this
      ensures state == NotRegistered
    {
      state := NotRegistered;
    }

    method Recovery1() returns (response: Recover1Response)
      requires Consistent(state)
      modifies this
      ensures response == Recover1Reply(old(state)) && state == AfterRecover1(old(state))
      ensures Consistent(state)
    {
      if state.Registered? {
        if state.attempted >= state.registration.numGuesses {
          state := NoGuesses;
          return Recover1NoGuesses;
        }
        return Recover1Ok(state.registration.version);
      } else if state.NoGuesses? {
        return Recover1NoGuesses;
      } else {
        return Recover1NotRegistered;
      }
    }

    method Recovery2<P>(s: Suite<P>, request: Recover2Request<P>, betaT: int) returns (response: Recover2Response<P>)
      requires Consistent(state)
      modifies this
      ensures response == Recover2Reply(s, old(state), request, betaT)
      ensures state == AfterRecover2(old(state), request)
      ensures Consistent(state)
    {
      if state.Registered? {
        var r := state.registration;
        if state.attempted >= r.numGuesses {
          state := NoGuesses;
          return Recover2NoGuesses;
        }
        if request.version != r.version {
          return Recover2VersionMismatch;
        }
        var blindedResult := BlindEvaluate(s, r.oprfPrivateKey, request.oprfBlindedInput);
        var blindedResultProof := GenerateProof(s, betaT, r.oprfPrivateKey, request.oprfBlindedInput,
                                                r.oprfSignedPublicKey.publicKey, blindedResult);
        state := state.(attempted := state.attempted + 1);
        return Recover2Ok(r.oprfSignedPublicKey, blindedResult, blindedResultProof, r.unlockKeyCommitment,
                          r.numGuesses, state.attempted);
      } else if state.NoGuesses? {
        return Recover2NoGuesses;
      } else {
        return Recover2NotRegistered;
      }
    }

    method Recovery3(request: Recover3Request) returns (response: Recover3Response)
      requires Consistent(state)
      modifies this
      ensures response == Recover3Reply(old(state), request) && state == AfterRecover3(old(state), request)
      ensures Consistent(state)
    {
      if state.Registered? {
        var r := state.registration;
        if request.version != r.version {
          return Recover3VersionMismatch;
        }
        if request.unlockKeyTag != r.unlockKeyTag {
          var guessesRemaining := r.numGuesses - state.attempted;
          if guessesRemaining == 0 {
            state := NoGuesses;
          }
          return BadUnlockKeyTag(guessesRemaining);
        }
        state := state.(attempted := 0);
        return Recover3Ok(r.encryptionKeyScalarShare, r.encryptedSecret, r.encryptedSecretCommitment);
      } else if state.NoGuesses? {
        return Recover3NoGuesses;
      } else {
        return Recover3NotRegistered;
      }
    }
  }
}
