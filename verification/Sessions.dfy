/**
 The request engine: one hardware realm's session slot with its retry loop, the two-try loop
 for software realms, and the realm's end of the sessions.

 Everything the environment decides is an arbitrary choice: lost requests and replies, refusals,
 sessions the realm forgets, expiry, missing tokens, and cancellation at every await.
 A session's cipher is represented by its key and its two counters; ciphertexts are symbolic.
 */
module Sessions {
  import opened Wrappers
  import opened Encoding
  import opened Requests
  import Realms
  import opened Noise
  import opened NoiseFramework

  // ---- messages ----

  /** A ciphertext opens under its key, direction and nonce only. */
  datatype Ciphertext = Sealed(key: nat, toRealm: bool, nonce: nat, payload: Bytes) | Garbage

  datatype Request =
    | HandshakeMessage(id: nat, key: nat, payload: Bytes)
    | TransportMessage(id: nat, ciphertext: Ciphertext)

  /** Replies; a refused handshake is one that does not finish. */
  datatype Reply =
    | HandshakeReply(key: nat, payload: Bytes)
    | RefusedHandshake
    | TransportReply(ciphertext: Ciphertext)
    | Refusal(status: Status)

  datatype Status =
    MissingSession | SessionError | PayloadTooLarge | DecodingError | Unavailable | InvalidAuthStatus | RateLimited

  datatype RpcError = NetworkError | HttpStatus(code: nat) | SerializationError | DeserializationError

  /** `From<RpcError>` */
  function RpcFailure(e: RpcError): RequestError {
    match e
    case NetworkError => Transient
    case HttpStatus(code) =>
      if code == 401 then InvalidAuth
      else if code == 426 then UpgradeRequired
      else if code == 429 then RateLimitExceeded
      else Transient
    case SerializationError => Assertion
    case DeserializationError => Assertion
  }

  datatype Delivery = Replied(reply: Reply) | Failed(error: RpcError) | Abandoned

  /** What the environment did to one message, and whether the realm held the session it was for. */
  datatype Fate = Fate(delivered: bool, undisturbed: bool, abandoned: bool, known: bool)

  predicate Quiet(f: Fate) {
    f.delivered && f.undisturbed && !f.abandoned
  }

  /** How far one exchange with the realm got. */
  datatype Call = NoToken | Waiting | Spent | Called(delivery: Delivery, fate: Fate)

  /** Errors of the call layer, by the request error they become. */
  lemma RpcVerdicts(e: RpcError)
    ensures RpcFailure(e) == InvalidAuth <==> e == HttpStatus(401)
    ensures RpcFailure(e) == UpgradeRequired <==> e == HttpStatus(426)
    ensures RpcFailure(e) == RateLimitExceeded <==> e == HttpStatus(429)
    ensures RpcFailure(e) == Assertion <==> e == SerializationError || e == DeserializationError
    ensures RpcFailure(e) == Transient <==>
      e == NetworkError || (e.HttpStatus? && e.code != 401 && e.code != 426 && e.code != 429)
  {
  }

  // ---- the realm's end ----

  datatype RealmSession = RealmSession(key: nat, inbound: nat, outbound: nat)

  /** A request the realm has carried out, and its response. */
  datatype Processed = Processed(request: Bytes, inHandshake: bool, response: Bytes)

  class RealmServer {
    var sessions: map<nat, RealmSession>
    var wire: seq<Request>
    var processed: seq<Processed>
    var rejected: nat

    constructor ()
      ensures sessions == map[] && wire == [] && processed == [] && rejected == 0
    {
      sessions := map[];
      wire, processed, rejected := [], [], 0;
    }

    /** Between requests the realm may forget any session; those of other clients change freely. */
    method Drift(id: nat)
      modifies this`sessions
      ensures id in sessions ==> id in old(sessions) && sessions[id] == old(sessions)[id]
    {
      var others: map<nat, RealmSession> := *;
      var keeps: bool := *;
      others := map k | k in others && k != id :: others[k];
      sessions := if keeps && id in sessions then others[id := sessions[id]] else others;
    }

    method Serve(request: Request) returns (reply: Reply)
      modifies this`sessions, this`processed, this`rejected
      ensures request.HandshakeMessage? ==>
        reply.HandshakeReply? && reply.key == request.key &&
        sessions == old(sessions)[request.id := RealmSession(request.key, 0, 0)] && rejected == old(rejected) &&
        processed == old(processed) +
          if request.payload == [] then [] else [Processed(request.payload, true, reply.payload)]
      ensures request.TransportMessage? && request.id !in old(sessions) ==>
        reply == Refusal(MissingSession) && sessions == old(sessions) && processed == old(processed) &&
          rejected == old(rejected)
      ensures request.TransportMessage? && request.id in old(sessions) ==>
        var s := old(sessions)[request.id];
        if Accepts(s, request.ciphertext) then
          reply.TransportReply? && reply.ciphertext.Sealed? &&
          reply.ciphertext == Sealed(s.key, false, s.outbound, reply.ciphertext.payload) &&
          sessions == old(sessions)[request.id := RealmSession(s.key, s.inbound + 1, s.outbound + 1)] &&
          processed == old(processed) + [Processed(request.ciphertext.payload, false, reply.ciphertext.payload)] &&
          rejected == old(rejected)
        else
          reply == Refusal(SessionError) && sessions == old(sessions)[request.id := s.(inbound := s.inbound + 1)] &&
          processed == old(processed) && rejected == old(rejected) + 1
    {
      var response: Bytes := *;
      match request
      case HandshakeMessage(id, key, payload) =>
        sessions := sessions[id := RealmSession(key, 0, 0)];
        if payload != [] {
          processed := processed + [Processed(payload, true, response)];
        }
        return HandshakeReply(key, response);
      case TransportMessage(id, ciphertext) =>
        if id !in sessions { return Refusal(MissingSession); }
        var s := sessions[id];
        sessions := sessions[id := s.(inbound := s.inbound + 1)];
        if !Accepts(s, ciphertext) {
          rejected := rejected + 1;
          return Refusal(SessionError);
        }
        processed := processed + [Processed(ciphertext.payload, false, response)];
        sessions := sessions[id := RealmSession(s.key, s.inbound + 1, s.outbound + 1)];
        return TransportReply(Sealed(s.key, false, s.outbound, response));
    }
  }

  /** The ciphertext decrypts with the session's inbound cipher. */
  predicate Accepts(s: RealmSession, c: Ciphertext) {
    c.Sealed? && c.key == s.key && c.toRealm && c.nonce == s.inbound
  }

  // ---- the client's end ----

  class Session {
    const id: nat
    const key: nat
    var outbound: nat
    var inbound: nat

    constructor (id: nat, key: nat)
      ensures this.id == id && this.key == key && outbound == 0 && inbound == 0
    {
      this.id, this.key := id, key;
      outbound, inbound := 0, 0;
    }

    /** None where the cipher panics. */
    method Encrypt(payload: Bytes) returns (r: Option<Ciphertext>)
      modifies this`outbound
      ensures outbound == AfterUse(old(outbound))
      ensures r == if Usable(old(outbound)) then Some(Sealed(key, true, old(outbound), payload)) else None
    {
      var n := outbound;
      outbound := AfterUse(outbound);
      return if Usable(n) then Some(Sealed(key, true, n, payload)) else None;
    }

    /** None if decryption fails; the counter advances all the same. */
    method Decrypt(c: Ciphertext) returns (r: Option<Bytes>)
      requires Usable(inbound)
      modifies this`inbound
      ensures inbound == old(inbound) + 1
      ensures r.Some? <==> c.Sealed? && c.key == key && !c.toRealm && c.nonce == old(inbound)
      ensures r.Some? ==> r.value == c.payload
    {
      var n := inbound;
      inbound := inbound + 1;
      return if c.Sealed? && c.key == key && !c.toRealm && c.nonce == n then Some(c.payload) else None;
    }
  }

  /** The counters are equal, and the realm's match if it still holds the session. */
  ghost predicate InStep(session: Session, server: RealmServer)
    reads session, server`sessions
  {
    && session.outbound == session.inbound < RESERVED_NONCE
    && (session.id in server.sessions ==>
          server.sessions[session.id] == RealmSession(session.key, session.outbound, session.inbound))
  }

  /** How one attempt at a request ended. */
  datatype Attempt =
    | Answered(response: Bytes)
    | Erred(error: RequestError)
    | Missing
    | Cancelled
    | Panicked

  /**
   What an exchange means for the attempt, for each thing that can come back. Only a transport
   message can find its session missing; everything not listed is an assertion error.
   */
  ghost predicate Yields(call: Call, transport: bool, r: Attempt) {
    match call
    case NoToken => r == Erred(InvalidAuth)
    case Waiting => r == Cancelled
    case Spent => r == Panicked
    case Called(d, _) =>
      && (r == Cancelled <==> d == Abandoned)
      && (r.Answered? <==> d.Replied? && if transport then d.reply.TransportReply? && d.reply.ciphertext.Sealed?
                                         else d.reply.HandshakeReply?)
      && (r == Missing <==> transport && d == Replied(Refusal(MissingSession)))
      && (r == Erred(Transient) <==>
            d == Replied(Refusal(Unavailable)) || d == Failed(NetworkError) ||
            (d.Failed? && d.error.HttpStatus? && d.error.code != 401 && d.error.code != 426 && d.error.code != 429))
      && (r == Erred(InvalidAuth) <==> d == Replied(Refusal(InvalidAuthStatus)) || d == Failed(HttpStatus(401)))
      && (r == Erred(UpgradeRequired) <==> d == Failed(HttpStatus(426)))
      && (r == Erred(RateLimitExceeded) <==> d == Replied(Refusal(RateLimited)) || d == Failed(HttpStatus(429)))
      && r != Panicked
  }

  /** Nothing went wrong in n exchanges. */
  ghost predicate Undisturbed(calls: seq<Call>, n: nat) {
    |calls| == n && forall i :: 0 <= i < n ==> calls[i].Called? && Quiet(calls[i].fate) && calls[i].fate.known
  }

  /** One message that went through, for a session that the realm no longer holds. */
  ghost predicate Forgotten(calls: seq<Call>) {
    |calls| == 1 && calls[0].Called? && Quiet(calls[0].fate) && !calls[0].fate.known
  }

  /** A new session's greeting has to be empty. */
  predicate Greets(call: Call) {
    call.Called? && call.delivery.Replied? && call.delivery.reply.HandshakeReply? && call.delivery.reply.payload == []
  }

  /** What the exchanges of one attempt mean for it. */
  ghost predicate AttemptYields(calls: seq<Call>, cached: bool, forwardSecrecy: bool, r: Attempt) {
    if cached then |calls| == 1 && Yields(calls[0], true, r)
    else if !forwardSecrecy then |calls| == 1 && Yields(calls[0], false, r)
    else if |calls| == 1 then
      && !Greets(calls[0])
      && (|| (Yields(calls[0], false, r) && !r.Answered?)
          || (r == Erred(Assertion) && exists answer :: Yields(calls[0], false, Answered(answer))))
    else
      |calls| == 2 && Greets(calls[0]) &&
      if Yields(calls[1], true, Missing) then r == Erred(Assertion) else Yields(calls[1], true, r)
  }

  /** All that is said of an attempt, whether or not it could use a cached session. */
  ghost predicate CourseYields(calls: seq<Call>, mayBeCached: bool, forwardSecrecy: bool, r: Attempt) {
    exists cached :: (cached ==> mayBeCached) && CourseOf(calls, cached, forwardSecrecy, r)
  }

  ghost predicate CourseOf(calls: seq<Call>, cached: bool, forwardSecrecy: bool, r: Attempt) {
    && AttemptYields(calls, cached, forwardSecrecy, r)
    && (Undisturbed(calls, Needed(cached, forwardSecrecy)) ==> r.Answered?)
    && (Forgotten(calls) ==> cached && r == Missing)
  }

  /** How many exchanges an attempt needs. */
  function Needed(cached: bool, forwardSecrecy: bool): nat {
    if !cached && forwardSecrecy then 2 else 1
  }

  /** The loop goes on after these. */
  predicate Retryable(a: Attempt) {
    a == Erred(Transient) || a == Missing
  }

  /** The requests a single attempt may put on the wire, for a given cached session. */
  ghost predicate AttemptWire(sent: seq<Request>, cached: Option<Request>, request: Bytes, forwardSecrecy: bool) {
    || sent == []
    || (cached.Some? && sent == [cached.value])
    || (cached.None? && |sent| == 1 && sent[0].HandshakeMessage? &&
        sent[0].payload == if forwardSecrecy then [] else request)
    || (cached.None? && forwardSecrecy && |sent| == 2 && sent[0].HandshakeMessage? && sent[0].payload == [] &&
        sent[1] == TransportMessage(sent[0].id, Sealed(sent[0].key, true, 0, request)))
  }

  /** What an attempt may add to the requests carried out. */
  ghost predicate AttemptProcessed(done: seq<Processed>, request: Bytes, forwardSecrecy: bool) {
    |done| <= 1 && (done != [] ==> done[0].request == request && (forwardSecrecy ==> !done[0].inHandshake))
  }

  /** The answer is the response to this very request, carried out during this attempt. */
  ghost predicate AnswerIs(a: Attempt, done: seq<Processed>) {
    a.Answered? ==> done != [] && a.response == done[|done| - 1].response
  }

  /** A request is carried out at most once, and only if it is a complete one. */
  ghost predicate Carried(request: Request, before: seq<Processed>, after: seq<Processed>) {
    || after == before
    || (|after| == |before| + 1 && before <= after && after[|before|].inHandshake == request.HandshakeMessage? &&
        match request
        case HandshakeMessage(_, _, payload) => payload != [] && after[|before|].request == payload
        case TransportMessage(_, c) => c.Sealed? && after[|before|].request == c.payload)
  }

  /** At most one request was carried out in between, and it was this one. */
  ghost predicate Extends(before: seq<Processed>, after: seq<Processed>, request: Bytes, inHandshake: bool) {
    || after == before
    || (|after| == |before| + 1 && before <= after &&
        after[|before|].request == request && after[|before|].inHandshake == inHandshake)
  }

  /** What a request can do to its session at the realm, if the realm still holds it. */
  ghost predicate Advanced(request: Request, before: map<nat, RealmSession>, after: RealmSession) {
    match request
    case HandshakeMessage(id, key, _) => after == RealmSession(key, 0, 0) || (id in before && after == before[id])
    case TransportMessage(id, c) =>
      id in before && var s := before[id];
      || after == s
      || (if Accepts(s, c) then after == RealmSession(s.key, s.inbound + 1, s.outbound + 1)
          else after == s.(inbound := s.inbound + 1))
  }

  datatype Outcome<T> = Received(response: T) | FailedWith(error: RequestError) | WasCancelled | DidPanic

  /** Reading the padded response: it panics if the realm sent a length beyond the padding. */
  function Conclude<T>(response: Bytes, parsePadded: Bytes -> Option<PaddedResponse>,
                       parse: Bytes -> Option<T>): Outcome<T> {
    match parsePadded(response)
    case None => FailedWith(Assertion)
    case Some(padded) =>
      match UnpadResponse(padded)
      case None => DidPanic
      case Some(bytes) =>
        match parse(bytes)
        case None => FailedWith(Assertion)
        case Some(value) => Received(value)
  }

  /** What the operation that issued the request gets, unless it was cancelled. */
  function AnswerOf<P>(outcome: Outcome<SecretsResponse<P>>): Option<Answer<P>> {
    match outcome
    case Received(response) => Some(Ok(response))
    case FailedWith(e) => Some(Err(Refused(e)))
    case DidPanic => Some(Err(ClientPanicked))
    case WasCancelled => None
  }

  /** A response makes the client panic exactly if the length it claims exceeds its padded bytes. */
  lemma ImpossibleLength<P>(response: Bytes, parsePadded: Bytes -> Option<PaddedResponse>,
                            parse: Bytes -> Option<SecretsResponse<P>>)
    ensures AnswerOf(Conclude(response, parsePadded, parse)) == Some(Err(ClientPanicked)) <==>
            parsePadded(response).Some? && parsePadded(response).value.unpaddedLength > MAX_SECRETS_RESPONSE_LENGTH
    ensures parsePadded(response).None? ==>
      AnswerOf(Conclude(response, parsePadded, parse)) == Some(Err(Refused(Assertion)))
    ensures forall encoded :: parsePadded(response) == PadResponse(encoded) && parsePadded(response).Some? ==>
              AnswerOf(Conclude(response, parsePadded, parse)) != Some(Err(ClientPanicked))
  {
  }

  /** A response padded as realms pad it is read back. */
  lemma ResponseRead<T>(response: Bytes, encoded: Bytes, parsePadded: Bytes -> Option<PaddedResponse>,
                        parse: Bytes -> Option<T>)
    requires PadResponse(encoded).Some? && parsePadded(response) == PadResponse(encoded)
    ensures Conclude(response, parsePadded, parse) ==
            if parse(encoded).Some? then Received(parse(encoded).value) else FailedWith(Assertion)
  {
    PaddedRoundTrip(encoded);
  }

  /** The outcome is that of the last attempt; only a fifth retryable failure is reported as transient. */
  ghost predicate Concludes<T>(attempts: seq<Attempt>, parsePadded: Bytes -> Option<PaddedResponse>,
                               parse: Bytes -> Option<T>, r: Outcome<T>)
    requires attempts != []
  {
    match attempts[|attempts| - 1]
    case Answered(response) => r == Conclude(response, parsePadded, parse)
    case Erred(Transient) => r == WasCancelled || (|attempts| == 5 && r == FailedWith(Transient))
    case Erred(e) => r == FailedWith(e)
    case Missing => |attempts| == 5 && r == FailedWith(Transient)
    case Cancelled => r == WasCancelled
    case Panicked => r == DidPanic
  }

  function OutboundOf(slot: Option<Session>): nat
    reads if slot.Some? then {slot.value} else {}
  {
    if slot.Some? then slot.value.outbound else 0
  }

  /** The message that would use a cached session. */
  function CachedMessage(slot: Option<Session>, request: Bytes, outbound: nat): Option<Request> {
    if slot.None? then None
    else Some(TransportMessage(slot.value.id, Sealed(slot.value.key, true, outbound, request)))
  }

  /**
   What up to n attempts may put on the wire. Only the very first message can use the cached
   session; a request that needs forward secrecy is never in a handshake, and goes out only over
   the cached session or right after the handshake that opened its session.
   */
  ghost predicate Disciplined(sent: seq<Request>, cached: Option<Request>, request: Bytes, forwardSecrecy: bool,
                              n: nat) {
    |sent| <= 2 * n && forall i :: 0 <= i < |sent| ==> MessageAllowed(sent, i, cached, request, forwardSecrecy)
  }

  ghost predicate MessageAllowed(sent: seq<Request>, i: nat, cached: Option<Request>, request: Bytes,
                                 forwardSecrecy: bool)
    requires i < |sent|
  {
    match sent[i]
    case HandshakeMessage(_, _, payload) => payload == if forwardSecrecy then [] else request
    case TransportMessage(_, _) =>
      || (i == 0 && cached == Some(sent[i]))
      || (forwardSecrecy && i > 0 && sent[i - 1].HandshakeMessage? &&
          sent[i] == TransportMessage(sent[i - 1].id, Sealed(sent[i - 1].key, true, 0, request)))
  }

  /** At most one execution for each attempt, each of this request. */
  ghost predicate CarriedOut(done: seq<Processed>, request: Bytes, forwardSecrecy: bool, n: nat) {
    |done| <= n && forall i :: 0 <= i < |done| ==>
      done[i].request == request && (forwardSecrecy ==> !done[i].inHandshake)
  }

  function Executed<P>(done: seq<Processed>, decode: Bytes -> Recover2Request<P>): (requests: seq<Recover2Request<P>>)
    ensures |requests| == |done|
  {
    seq(|done|, i requires 0 <= i < |done| => decode(done[i].request))
  }

  /** A phase 2 request with n attempts costs a realm at most n guesses, five over the retry loop. */
  lemma GuessesOfRequest<P>(state: Realms.RealmState, done: seq<Processed>, message: Bytes, forwardSecrecy: bool,
                            n: nat, decode: Bytes -> Recover2Request<P>)
    requires CarriedOut(done, message, forwardSecrecy, n)
    ensures var after := Realms.AfterGuesses(state, Executed(done, decode));
            after.Registered? ==>
              state.Registered? && after.registration == state.registration && after.attempted <= state.attempted + n
  {
    Realms.GuessesSpent(state, Executed(done, decode));
  }

  lemma WireGrows(sent: seq<Request>, more: seq<Request>, cached: Option<Request>, offered: Option<Request>,
                  request: Bytes, forwardSecrecy: bool, n: nat)
    requires Disciplined(sent, cached, request, forwardSecrecy, n) &&
             AttemptWire(more, offered, request, forwardSecrecy)
    requires offered.Some? ==> sent == [] && offered == cached && offered.value.TransportMessage?
    ensures Disciplined(sent + more, cached, request, forwardSecrecy, n + 1)
  {
    var all := sent + more;
    forall i | 0 <= i < |all| ensures MessageAllowed(all, i, cached, request, forwardSecrecy) {
      if i < |sent| {
        assert MessageAllowed(sent, i, cached, request, forwardSecrecy) && all[i] == sent[i];
      } else {
        assert all[i] == more[i - |sent|];
      }
    }
  }

  /** What handshakes carry, for each kind of request. */
  lemma HandshakesCarry<P>(request: SecretsRequest<P>, sent: seq<Request>, cached: Option<Request>, message: Bytes,
                           n: nat)
    requires Disciplined(sent, cached, message, NeedsForwardSecrecy(request), n)
    ensures request.Register2? || request.Recover2? || request.Recover3? ==>
      forall i :: 0 <= i < |sent| && sent[i].HandshakeMessage? ==> sent[i].payload == []
    ensures request.Register1? || request.Recover1? || request.Delete? ==>
      forall i :: 0 <= i < |sent| && sent[i].HandshakeMessage? ==> sent[i].payload == message
  {
    forall i | 0 <= i < |sent| && sent[i].HandshakeMessage?
      ensures sent[i].payload == if NeedsForwardSecrecy(request) then [] else message
    {
      assert MessageAllowed(sent, i, cached, message, NeedsForwardSecrecy(request));
    }
  }

  /**
   A request survives a realm that forgot its session: if the first attempt used the cached
   session and found it gone, and nothing disturbs the second, that one is answered.
   */
  lemma ForgottenIsRetried<T>(attempts: seq<Attempt>, courses: seq<seq<Call>>, forwardSecrecy: bool,
                              parsePadded: Bytes -> Option<PaddedResponse>, parse: Bytes -> Option<T>, r: Outcome<T>)
    requires 0 < |attempts| == |courses| && forall i :: 0 <= i < |attempts| - 1 ==> Retryable(attempts[i])
    requires forall i :: 0 <= i < |attempts| ==> CourseYields(courses[i], i == 0, forwardSecrecy, attempts[i])
    requires Concludes(attempts, parsePadded, parse, r) && Forgotten(courses[0])
    ensures |attempts| >= 2
    ensures Undisturbed(courses[1], Needed(false, forwardSecrecy)) ==>
      |attempts| == 2 && attempts[1].Answered? && r == Conclude(attempts[1].response, parsePadded, parse)
  {
    hide AttemptYields, Undisturbed, Forgotten, Conclude;
    assert CourseYields(courses[0], true, forwardSecrecy, attempts[0]);
    assert attempts[0] == Missing;
    if Undisturbed(courses[1], Needed(false, forwardSecrecy)) {
      assert CourseYields(courses[1], false, forwardSecrecy, attempts[1]);
    }
  }

  lemma NothingYet(cached: Option<Request>, request: Bytes, forwardSecrecy: bool)
    ensures Disciplined([], cached, request, forwardSecrecy, 0) && CarriedOut([], request, forwardSecrecy, 0)
  {
  }

  lemma CachedIsTransport(slot: Option<Session>, request: Bytes, outbound: nat)
    ensures slot.None? ==> CachedMessage(slot, request, outbound) == None
    ensures slot.Some? ==>
      CachedMessage(slot, request, outbound).Some? && CachedMessage(slot, request, outbound).value.TransportMessage?
  {
  }

  lemma AnswerLast(a: Attempt, done: seq<Processed>, more: seq<Processed>)
    requires AnswerIs(a, more)
    ensures AnswerIs(a, done + more)
  {
  }

  lemma CarriedGrows(done: seq<Processed>, more: seq<Processed>, request: Bytes, forwardSecrecy: bool, n: nat)
    requires CarriedOut(done, request, forwardSecrecy, n) && AttemptProcessed(more, request, forwardSecrecy)
    ensures CarriedOut(done + more, request, forwardSecrecy, n + 1)
  {
  }

  class HardwareRealm {
    const server: RealmServer
    var slot: Option<Session>

    constructor (server: RealmServer)
      ensures Valid() && slot == None && this.server == server
    {
      this.server := server;
      slot := None;
    }

    ghost predicate Valid()
      reads this, server`sessions, if slot.Some? then {slot.value} else {}
    {
      slot.Some? ==> InStep(slot.value, server)
    }

    /** The authentication token: there, missing, or abandoned while waiting. */
    method GetToken() returns (r: Option<Attempt>, ghost call: Option<Call>)
      ensures r == None || r == Some(Erred(InvalidAuth)) || r == Some(Cancelled)
      ensures r.None? <==> call.None?
      ensures call.Some? ==> (call.value.NoToken? || call.value.Waiting?) && Yields(call.value, true, r.value)
    {
      var waiting: bool := *;
      if !waiting { return Some(Cancelled), Some(Waiting); }
      var there: bool := *;
      if !there { return Some(Erred(InvalidAuth)), Some(NoToken); }
      return None, None;
    }

    /** A request is delivered at most once; its reply may be lost or replaced by a refusal. */
    method Send(request: Request) returns (r: Delivery, ghost fate: Fate)
      modifies server
      ensures r == Abandoned <==> fate.abandoned
      ensures request.HandshakeMessage? ==> fate.known
      ensures fate.known ==> request.HandshakeMessage? || request.id in old(server.sessions)
      ensures Quiet(fate) && request.HandshakeMessage? ==> r.Replied? && r.reply.HandshakeReply?
      ensures Quiet(fate) && request.TransportMessage? && !fate.known ==> r == Replied(Refusal(MissingSession))
      ensures (Quiet(fate) && request.TransportMessage? && fate.known &&
               Accepts(old(server.sessions)[request.id], request.ciphertext)) ==>
          r.Replied? && r.reply.TransportReply? && r.reply.ciphertext.Sealed?
      ensures server.wire == old(server.wire) + [request]
      ensures Carried(request, old(server.processed), server.processed)
      ensures request.id in server.sessions ==> Advanced(request, old(server.sessions), server.sessions[request.id])
      ensures r.Replied? && r.reply.HandshakeReply? ==>
        request.HandshakeMessage? && r.reply.key == request.key &&
        request.id in server.sessions && server.sessions[request.id] == RealmSession(request.key, 0, 0) &&
        server.processed == old(server.processed) +
          if request.payload == [] then [] else [Processed(request.payload, true, r.reply.payload)]
      ensures r.Replied? && r.reply.TransportReply? && r.reply.ciphertext.Sealed? ==>
        request.TransportMessage? && request.id in old(server.sessions) &&
        var s := old(server.sessions)[request.id];
        Accepts(s, request.ciphertext) &&
        r.reply.ciphertext == Sealed(s.key, false, s.outbound, r.reply.ciphertext.payload) &&
        (request.id in server.sessions ==>
         server.sessions[request.id] == RealmSession(s.key, s.inbound + 1, s.outbound + 1)) &&
        server.processed == old(server.processed) +
          [Processed(request.ciphertext.payload, false, r.reply.ciphertext.payload)]
      ensures server.rejected == old(server.rejected) ||
        (request.TransportMessage? && request.id in old(server.sessions) &&
         !Accepts(old(server.sessions)[request.id], request.ciphertext))
    {
      server.wire := server.wire + [request];
      server.Drift(request.id);
      var delivered: bool := *;
      var undisturbed: bool := *;
      var cancelled: bool := *;
      fate := Fate(delivered, undisturbed, cancelled, request.HandshakeMessage? || request.id in server.sessions);
      var reply: Delivery := Failed(NetworkError);
      if delivered {
        var served := server.Serve(request);
        reply := Replied(served);
      }
      if cancelled { return Abandoned, fate; }
      if delivered && undisturbed { return reply, fate; }
      r := Disturbance();
    }

    /** Anything but a message sealed by the realm. */
    method Disturbance() returns (r: Delivery)
      ensures !r.Abandoned?
      ensures r.Replied? ==> !r.reply.HandshakeReply? && (r.reply.TransportReply? ==> r.reply.ciphertext == Garbage)
    {
      var error: RpcError := *;
      var status: Status := *;
      var kind: nat := *;
      match kind
      case 0 => return Failed(error);
      case 1 => return Replied(Refusal(status));
      case 2 => return Replied(RefusedHandshake);
      case _ => return Replied(TransportReply(Garbage));
    }

    method MakeHandshakeRequest(request: Bytes) returns (r: Attempt, session: Option<Session>, ghost call: Call)
      modifies server
      ensures Yields(call, false, r) && call != Spent
      ensures call.Called? ==> call.fate.known && (Quiet(call.fate) ==> r.Answered?)
      ensures r.Answered? ==> call.delivery.reply.payload == r.response
      ensures session.Some? <==> r.Answered?
      ensures session.Some? ==> fresh(session.value) && InStep(session.value, server) && session.value.outbound == 0
      ensures server.wire == old(server.wire) ||
              (|server.wire| == |old(server.wire)| + 1 && old(server.wire) <= server.wire &&
               var sent := server.wire[|old(server.wire)|];
               sent.HandshakeMessage? && sent.payload == request &&
               (session.Some? ==> sent.id == session.value.id && sent.key == session.value.key))
      ensures session.Some? ==> server.wire != old(server.wire)
      ensures Extends(old(server.processed), server.processed, request, true)
      ensures r.Answered? && request != [] ==>
              server.processed == old(server.processed) + [Processed(request, true, r.response)]
      ensures request == [] ==> server.processed == old(server.processed)
      ensures server.rejected == old(server.rejected)
      ensures r != Missing && r != Panicked
    {
      var key: nat := *;
      var id: nat := *;
      ghost var fate, stopped;
      var token, delivery;
      token, stopped := GetToken();
      if token.Some? { return token.value, None, stopped.value; }
      delivery, fate := Send(HandshakeMessage(id, key, request));
      call := Called(delivery, fate);
      match delivery
      case Abandoned => return Cancelled, None, call;
      case Failed(e) => return Erred(RpcFailure(e)), None, call;
      case Replied(HandshakeReply(_, response)) =>
        var created := new Session(id, key);
        return Answered(response), Some(created), call;
      case Replied(RefusedHandshake) => return Erred(Assertion), None, call;
      case Replied(TransportReply(_)) => return Erred(Assertion), None, call;
      case Replied(Refusal(status)) =>
        match status
        case MissingSession => return Erred(Assertion), None, call;
        case SessionError => return Erred(Assertion), None, call;
        case PayloadTooLarge => return Erred(Assertion), None, call;
        case DecodingError => return Erred(Assertion), None, call;
        case Unavailable => return Erred(Transient), None, call;
        case InvalidAuthStatus => return Erred(InvalidAuth), None, call;
        case RateLimited => return Erred(RateLimitExceeded), None, call;
    }

    /** A session that answered is in step again, whatever happened to the others. */
    method MakeTransportRequest(session: Session, request: Bytes) returns (r: Attempt, ghost call: Call)
      requires InStep(session, server)
      modifies session, server
      ensures Yields(call, true, r) && (call == Spent ==> !Usable(old(session.outbound)))
      ensures call.Called? && Quiet(call.fate) ==> if call.fate.known then r.Answered? else r == Missing
      ensures r.Answered? ==> InStep(session, server)
      ensures server.wire == old(server.wire) ||
              server.wire == old(server.wire) +
                [TransportMessage(session.id, Sealed(session.key, true, old(session.outbound), request))]
      ensures Extends(old(server.processed), server.processed, request, false)
      ensures r.Answered? ==> server.processed == old(server.processed) + [Processed(request, false, r.response)]
      ensures server.rejected == old(server.rejected)
    {
      ghost var fate, stopped;
      var token, delivery;
      token, stopped := GetToken();
      if token.Some? { return token.value, stopped.value; }
      var ciphertext := session.Encrypt(request);
      if ciphertext.None? { return Panicked, Spent; }
      delivery, fate := Send(TransportMessage(session.id, ciphertext.value));
      call := Called(delivery, fate);
      match delivery
      case Abandoned => return Cancelled, call;
      case Failed(e) => return Erred(RpcFailure(e)), call;
      case Replied(TransportReply(reply)) =>
        var response := session.Decrypt(reply);
        return if response.Some? then Answered(response.value) else Erred(Assertion), call;
      case Replied(HandshakeReply(_, _)) => return Erred(Assertion), call;
      case Replied(RefusedHandshake) => return Erred(Assertion), call;
      case Replied(Refusal(status)) =>
        match status
        case MissingSession => return Missing, call;
        case SessionError => return Erred(Assertion), call;
        case PayloadTooLarge => return Erred(Assertion), call;
        case DecodingError => return Erred(Assertion), call;
        case Unavailable => return Erred(Transient), call;
        case InvalidAuthStatus => return Erred(InvalidAuth), call;
        case RateLimited => return Erred(RateLimitExceeded), call;
    }

    /** One attempt, over the cached session or a new one. */
    method TryMakeRequest(cached: Option<Session>, request: Bytes, needsForwardSecrecy: bool)
      returns (r: Attempt, session: Option<Session>, ghost calls: seq<Call>)
      requires cached.Some? ==> InStep(cached.value, server)
      requires request != []
      modifies server, if cached.Some? then {cached.value} else {}
      ensures session.Some? <==> r.Answered?
      ensures session.Some? ==> InStep(session.value, server) && (session == cached || fresh(session.value))
      ensures old(server.wire) <= server.wire && old(server.processed) <= server.processed
      ensures AttemptWire(server.wire[|old(server.wire)|..],
                          if cached.None? then None
                          else Some(TransportMessage(
                            cached.value.id, Sealed(cached.value.key, true, old(cached.value.outbound), request))),
                          request, needsForwardSecrecy)
      ensures AttemptProcessed(server.processed[|old(server.processed)|..], request, needsForwardSecrecy)
      ensures AnswerIs(r, server.processed[|old(server.processed)|..])
      ensures server.rejected == old(server.rejected)
      ensures AttemptYields(calls, cached.Some?, needsForwardSecrecy, r)
      ensures Undisturbed(calls, Needed(cached.Some?, needsForwardSecrecy)) ==> r.Answered?
      ensures Forgotten(calls) ==> cached.Some? && r == Missing
    {
      ghost var call;
      if cached.Some? {
        r, call := MakeTransportRequest(cached.value, request);
        calls := [call];
        session := if r.Answered? then cached else None;
      } else if needsForwardSecrecy {
        r, session, call := MakeHandshakeRequest([]);
        calls := [call];
        if !r.Answered? { return; }
        if r.response != [] {
          assert Yields(call, false, Answered(r.response));
          return Erred(Assertion), None, calls;
        }
        r, call := MakeTransportRequest(session.value, request);
        calls := calls + [call];
        if r == Missing { r := Erred(Assertion); }
        session := if r.Answered? then session else None;
      } else {
        r, session, call := MakeHandshakeRequest(request);
        calls := [call];
      }
    }

    /**
     One round of the loop: takes the session out of the slot unless it has expired, tries, and
     puts it back if that worked.
     */
    method Round(request: Bytes, needsForwardSecrecy: bool) returns (r: Attempt, ghost offered: Option<Request>,
                                                                     ghost calls: seq<Call>, ghost expired: bool)
      requires Valid() && request != []
      modifies this, server, if slot.Some? then {slot.value} else {}
      ensures Valid() && (slot.Some? <==> r.Answered?) && (slot == None || slot == old(slot) || fresh(slot.value))
      ensures offered.Some? ==> offered == CachedMessage(old(slot), request, old(OutboundOf(slot)))
      ensures old(server.wire) <= server.wire && old(server.processed) <= server.processed
      ensures AttemptWire(server.wire[|old(server.wire)|..], offered, request, needsForwardSecrecy)
      ensures AttemptProcessed(server.processed[|old(server.processed)|..], request, needsForwardSecrecy)
      ensures AnswerIs(r, server.processed[|old(server.processed)|..])
      ensures server.rejected == old(server.rejected)
      ensures offered.Some? ==> old(slot).Some?
      ensures CourseYields(calls, old(slot).Some? && !expired, needsForwardSecrecy, r)
      ensures expired ==> offered == None
    {
      hide AttemptWire, AttemptProcessed, AnswerIs, AttemptYields, Undisturbed, Forgotten;
      var session := slot;
      slot := None;
      var outlived: bool := *;
      expired := outlived;
      if outlived { session := None; }
      offered := CachedMessage(session, request, OutboundOf(session));
      r, slot, calls := TryMakeRequest(session, request, needsForwardSecrecy);
      assert CourseOf(calls, session.Some?, needsForwardSecrecy, r);
    }

    /**
     Up to five attempts, the first over the cached session unless that has expired. The slot is empty while an attempt
     is under way, so whatever interrupts it leaves no session.
     */
    method SendWithRetries<T>(message: Bytes, needsForwardSecrecy: bool,
                              parsePadded: Bytes -> Option<PaddedResponse>, parse: Bytes -> Option<T>)
      returns (r: Outcome<T>, ghost attempts: seq<Attempt>, ghost courses: seq<seq<Call>>, ghost expired: bool)
      requires Valid() && message != []
      modifies this, server, if slot.Some? then {slot.value} else {}
      ensures Valid() && (slot == None || slot == old(slot) || fresh(slot.value))
      ensures old(server.wire) <= server.wire && old(server.processed) <= server.processed
      ensures Disciplined(server.wire[|old(server.wire)|..],
                          if expired then None else CachedMessage(old(slot), message, old(OutboundOf(slot))),
                          message, needsForwardSecrecy, |attempts|)
      ensures CarriedOut(server.processed[|old(server.processed)|..], message, needsForwardSecrecy, |attempts|)
      ensures attempts != [] ==> AnswerIs(attempts[|attempts| - 1], server.processed[|old(server.processed)|..])
      ensures server.rejected == old(server.rejected)
      ensures |attempts| <= 5 && (forall i :: 0 <= i < |attempts| - 1 ==> Retryable(attempts[i]))
      ensures attempts != [] ==> Concludes(attempts, parsePadded, parse, r)
      ensures attempts != [] ==> (slot.Some? <==> attempts[|attempts| - 1].Answered?)
      ensures attempts == [] ==> r == WasCancelled
      ensures |courses| == |attempts|
      ensures forall i :: 0 <= i < |attempts| ==>
              CourseYields(courses[i], i == 0 && old(slot).Some? && !expired, needsForwardSecrecy, attempts[i])
    {
      hide Disciplined, CarriedOut, AttemptWire, AttemptProcessed, Conclude, InStep, CachedMessage, CourseYields;
      attempts, courses, expired := [], [], false;
      ghost var cached := CachedMessage(slot, message, OutboundOf(slot));
      NothingYet(cached, message, needsForwardSecrecy);
      assert server.wire[|server.wire|..] == [] && server.processed[|server.processed|..] == [];
      var locked: bool := *;
      if !locked { return WasCancelled, [], [], false; }
      for attempt := 1 to 6
        invariant |attempts| == attempt - 1 && forall i :: 0 <= i < |attempts| ==> Retryable(attempts[i])
        invariant Valid()
        invariant if attempt == 1 then slot == old(slot) && OutboundOf(slot) == old(OutboundOf(slot)) else slot == None
        invariant attempt == 1 ==> server.wire == old(server.wire) && !expired
        invariant cached == if expired then None else CachedMessage(old(slot), message, old(OutboundOf(slot)))
        invariant old(server.wire) <= server.wire && old(server.processed) <= server.processed
        invariant Disciplined(server.wire[|old(server.wire)|..], cached, message, needsForwardSecrecy, attempt - 1)
        invariant CarriedOut(server.processed[|old(server.processed)|..], message, needsForwardSecrecy, attempt - 1)
        invariant attempts != [] ==> AnswerIs(attempts[|attempts| - 1], server.processed[|old(server.processed)|..])
        invariant server.rejected == old(server.rejected)
        invariant |courses| == |attempts|
        invariant forall i :: 0 <= i < |attempts| ==>
          CourseYields(courses[i], i == 0 && old(slot).Some? && !expired, needsForwardSecrecy, attempts[i])
      {
        ghost var wire, processed := server.wire[|old(server.wire)|..], server.processed[|old(server.processed)|..];
        ghost var wireSize, processedSize := |server.wire|, |server.processed|;
        ghost var was := slot;
        ghost var outbound := OutboundOf(slot);
        var attempted, offered, calls, outlived := Round(message, needsForwardSecrecy);
        if attempt == 1 {
          expired := outlived;
          if outlived {
            cached := None;
            NothingYet(cached, message, needsForwardSecrecy);
            assert wire == [];
          }
        }
        attempts, courses := attempts + [attempted], courses + [calls];
        CachedIsTransport(was, message, outbound);
        WireGrows(wire, server.wire[wireSize..], cached, offered, message, needsForwardSecrecy, attempt - 1);
        CarriedGrows(processed, server.processed[processedSize..], message, needsForwardSecrecy, attempt - 1);
        AnswerLast(attempted, processed, server.processed[processedSize..]);
        assert server.wire[|old(server.wire)|..] == wire + server.wire[wireSize..];
        assert server.processed[|old(server.processed)|..] == processed + server.processed[processedSize..];
        match attempted
        case Answered(response) => return Conclude(response, parsePadded, parse), attempts, courses, expired;
        case Erred(e) =>
          if e != Transient { return FailedWith(e), attempts, courses, expired; }
          var sleeping: bool := *;
          if !sleeping { return WasCancelled, attempts, courses, expired; }
        case Missing =>
        case Cancelled => return WasCancelled, attempts, courses, expired;
        case Panicked => return DidPanic, attempts, courses, expired;
      }
      return FailedWith(Transient), attempts, courses, expired;
    }

    /** A request to a hardware realm; its kind decides whether it may travel in a handshake. */
    method MakeHardwareRealmRequest<P>(request: SecretsRequest<P>, encode: SecretsRequest<P> -> Option<Bytes>,
                                       parsePadded: Bytes -> Option<PaddedResponse>,
                                       parse: Bytes -> Option<SecretsResponse<P>>)
      returns (r: Outcome<SecretsResponse<P>>, ghost attempts: seq<Attempt>, ghost courses: seq<seq<Call>>,
               ghost expired: bool)
      requires Valid() && encode(request) != Some([])
      modifies this, server, if slot.Some? then {slot.value} else {}
      ensures Valid() && (slot == None || slot == old(slot) || fresh(slot.value))
      ensures old(server.wire) <= server.wire && old(server.processed) <= server.processed
      ensures encode(request).None? ==> r == FailedWith(Assertion) && attempts == []
      ensures encode(request).Some? ==>
        Disciplined(server.wire[|old(server.wire)|..],
                    if expired then None else CachedMessage(old(slot), encode(request).value, old(OutboundOf(slot))),
                    encode(request).value, NeedsForwardSecrecy(request), |attempts|)
      ensures encode(request).Some? ==>
        CarriedOut(server.processed[|old(server.processed)|..], encode(request).value, NeedsForwardSecrecy(request),
                   |attempts|)
      ensures attempts != [] ==> AnswerIs(attempts[|attempts| - 1], server.processed[|old(server.processed)|..])
      ensures server.rejected == old(server.rejected)
      ensures |attempts| <= 5 && (forall i :: 0 <= i < |attempts| - 1 ==> Retryable(attempts[i]))
      ensures attempts != [] ==> Concludes(attempts, parsePadded, parse, r)
      ensures attempts != [] ==> (slot.Some? <==> attempts[|attempts| - 1].Answered?)
      ensures attempts == [] ==> r == FailedWith(Assertion) || r == WasCancelled
      ensures request.Register2? || request.Recover2? || request.Recover3? ==>
        forall i :: |old(server.wire)| <= i < |server.wire| && server.wire[i].HandshakeMessage? ==>
          server.wire[i].payload == []
      ensures request.Register1? || request.Recover1? || request.Delete? ==>
        forall i :: |old(server.wire)| <= i < |server.wire| && server.wire[i].HandshakeMessage? ==>
          Some(server.wire[i].payload) == encode(request)
      ensures |courses| == |attempts|
      ensures forall i :: 0 <= i < |attempts| ==>
        CourseYields(courses[i], i == 0 && old(slot).Some? && !expired, NeedsForwardSecrecy(request), attempts[i])
    {
      hide Disciplined, CarriedOut, InStep, CachedMessage, Concludes, AnswerIs, NeedsForwardSecrecy, CourseYields;
      var encoded := encode(request);
      if encoded.None? { return FailedWith(Assertion), [], [], false; }
      ghost var start := |server.wire|;
      ghost var cached := CachedMessage(slot, encoded.value, OutboundOf(slot));
      r, attempts, courses, expired := SendWithRetries(encoded.value, NeedsForwardSecrecy(request), parsePadded, parse);
      if expired { cached := None; }
      HandshakesCarry(request, server.wire[start..], cached, encoded.value, |attempts|);
      assert forall i :: start <= i < |server.wire| ==> server.wire[i] == server.wire[start..][i - start];
    }
  }

  // ---- software realms ----

  datatype Exchange<T> = Response(value: T) | NoResponse(error: RpcError) | Interrupted

  class SoftwareRealm<T(0)> {
    var sent: nat
    var processed: seq<(Bytes, T)>

    constructor ()
      ensures processed == [] && sent == 0
    {
      sent, processed := 0, [];
    }

    /** Delivered at most once; the response may be lost or replaced by an error. */
    method Send(request: Bytes) returns (r: Exchange<T>)
      modifies this
      ensures sent == old(sent) + 1
      ensures processed == old(processed) ||
              (|processed| == |old(processed)| + 1 && old(processed) <= processed &&
               processed[|old(processed)|].0 == request)
      ensures r.Response? ==> processed == old(processed) + [(request, r.value)]
    {
      sent := sent + 1;
      var delivered: bool := *;
      var response: T := *;
      if delivered { processed := processed + [(request, response)]; }
      var fate: nat := *;
      var error: RpcError := *;
      if fate == 0 { return Interrupted; }
      return if fate == 1 && delivered then Response(response) else NoResponse(error);
    }

    /** Two tries, the second only after a transient failure of the first. */
    method MakeRequest(request: Bytes) returns (r: Outcome<T>, ghost errors: seq<RpcError>)
      modifies this
      ensures old(sent) <= sent <= old(sent) + 2
      ensures sent == old(sent) + 2 ==> errors != [] && RpcFailure(errors[0]) == Transient
      ensures |errors| <= sent - old(sent)
      ensures old(processed) <= processed && |processed| - |old(processed)| <= sent - old(sent)
      ensures forall i :: |old(processed)| <= i < |processed| ==> processed[i].0 == request
      ensures r.Received? ==> processed != [] && processed[|processed| - 1] == (request, r.response)
      ensures r.Received? ==> sent == old(sent) + |errors| + 1
      ensures r.FailedWith? && errors == [] ==> sent == old(sent) && r.error == InvalidAuth
      ensures r.FailedWith? && errors != [] ==>
        r.error == RpcFailure(errors[|errors| - 1]) && (r.error == Transient ==> |errors| == 2)
      ensures !r.DidPanic?
    {
      errors := [];
      var waiting: bool := *;
      if !waiting { return WasCancelled, []; }
      var token: bool := *;
      if !token { return FailedWith(InvalidAuth), []; }
      for attempt := 0 to 2
        invariant |errors| == attempt && sent == old(sent) + attempt
        invariant forall i :: 0 <= i < |errors| ==> RpcFailure(errors[i]) == Transient
        invariant old(processed) <= processed && |processed| <= |old(processed)| + attempt
        invariant forall i :: |old(processed)| <= i < |processed| ==> processed[i].0 == request
      {
        var exchange := Send(request);
        match exchange
        case Interrupted => return WasCancelled, errors;
        case Response(value) => return Received(value), errors;
        case NoResponse(e) =>
          errors := errors + [e];
          if RpcFailure(e) != Transient { return FailedWith(RpcFailure(e)), errors; }
          var sleeping: bool := *;
          if !sleeping { return WasCancelled, errors; }
      }
      return FailedWith(Transient), errors;
    }
  }
}
