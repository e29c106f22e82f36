/**
 Noise NK as the client and the server of the repository run it: objects whose fields are
 overwritten step by step, and one handshake class for each role with the pattern written out.
 Each method is proved to do what the generic rules do with the NK pattern.
 */
module Noise {
  import opened Wrappers
  import opened Encoding
  import opened NoiseFramework

  /** The results of a cipher operation; it panics when its nonces have run out. */
  datatype CipherResult = CipherOk(bytes: Bytes) | CipherError | NonceExhausted

  function FromOption(o: Option<Bytes>): CipherResult {
    match o
    case None => CipherError
    case Some(bytes) => CipherOk(bytes)
  }

  /** The 64-bit counter after one use: incremented, unless that overflows. */
  function AfterUse(n: nat): nat {
    if n == RESERVED_NONCE then n else n + 1
  }

  /** Whether this counter can be used: neither it nor its successor is 2^64 - 1. */
  predicate Usable(n: nat) {
    n + 1 < RESERVED_NONCE
  }

  function Sealing(p: Primitives, key: Bytes, n: nat, ad: Bytes, plaintext: Bytes): CipherResult {
    if Usable(n) then FromOption(p.seal(key, NonceBytes(n), ad, plaintext)) else NonceExhausted
  }

  function Opening(p: Primitives, key: Bytes, n: nat, ad: Bytes, ciphertext: Bytes): CipherResult {
    if Usable(n) then FromOption(p.open(key, NonceBytes(n), ad, ciphertext)) else NonceExhausted
  }

  class CipherState {
    const key: Bytes
    var nonce: nat

    constructor (key: Bytes)
      ensures this.key == key && nonce == 0
    {
      this.key := key;
      nonce := 0;
    }

    /** None where the source panics. */
    method NextNonce() returns (r: Option<Bytes>)
      requires nonce <= RESERVED_NONCE
      modifies this
      ensures nonce == AfterUse(old(nonce)) <= RESERVED_NONCE
      ensures r == if Usable(old(nonce)) then Some(NonceBytes(old(nonce))) else None
    {
      var padded := [0, 0, 0, 0] + LittleEndian(8, nonce);
      if nonce == RESERVED_NONCE { return None; }
      nonce := nonce + 1;
      if nonce == RESERVED_NONCE { return None; }
      return Some(padded);
    }

    method EncryptWithAd(p: Primitives, plaintext: Bytes, ad: Bytes) returns (r: CipherResult)
      requires nonce <= RESERVED_NONCE
      modifies this
      ensures nonce == AfterUse(old(nonce)) <= RESERVED_NONCE
      ensures r == Sealing(p, key, old(nonce), ad, plaintext)
    {
      var next := NextNonce();
      if next.None? { return NonceExhausted; }
      return FromOption(p.seal(key, next.value, ad, plaintext));
    }

    /** Even a failed decryption uses up its nonce. */
    method DecryptWithAd(p: Primitives, ciphertext: Bytes, ad: Bytes) returns (r: CipherResult)
      requires nonce <= RESERVED_NONCE
      modifies this
      ensures nonce == AfterUse(old(nonce)) <= RESERVED_NONCE
      ensures r == Opening(p, key, old(nonce), ad, ciphertext)
    {
      var next := NextNonce();
      if next.None? { return NonceExhausted; }
      return FromOption(p.open(key, next.value, ad, ciphertext));
    }
  }

  class HandshakeHash {
    var value: Bytes

    constructor (value: Bytes)
      ensures this.value == value
    {
      this.value := value;
    }

    method MixHash(p: Primitives, data: Bytes)
      modifies this
      ensures value == p.hash(old(value) + data)
    {
      value := p.hash(value + data);
    }
  }

  datatype Role = Client | Server

  class ChainingKey {
    var value: Bytes

    constructor (value: Bytes)
      ensures this.value == value
    {
      this.value := value;
    }

    method MixKey(p: Primitives, dh: Bytes) returns (cipher: CipherState)
      modifies this
      ensures fresh(cipher) && cipher.nonce == 0
      ensures (value, cipher.key) == p.hkdf(old(value), dh)
    {
      var (ck, k) := p.hkdf(value, dh);
      value := ck;
      cipher := new CipherState(k);
    }

    method Split(p: Primitives, role: Role) returns (transport: Transport)
      ensures fresh(transport) && transport.Valid() && fresh(transport.inbound) && fresh(transport.outbound)
      ensures transport.inbound.nonce == 0 && transport.outbound.nonce == 0
      ensures role == Client ==> (transport.outbound.key, transport.inbound.key) == p.hkdf(value, [])
      ensures role == Server ==> (transport.inbound.key, transport.outbound.key) == p.hkdf(value, [])
    {
      var (k1, k2) := p.hkdf(value, []);
      var first := new CipherState(k1);
      var second := new CipherState(k2);
      match role
      case Server => transport := new Transport(first, second);
      case Client => transport := new Transport(second, first);
    }
  }

  class Transport {
    const inbound: CipherState
    const outbound: CipherState

    constructor (inbound: CipherState, outbound: CipherState)
      ensures this.inbound == inbound && this.outbound == outbound
    {
      this.inbound := inbound;
      this.outbound := outbound;
    }

    ghost predicate Valid()
      reads inbound, outbound
    {
      inbound != outbound && inbound.nonce <= RESERVED_NONCE && outbound.nonce <= RESERVED_NONCE
    }

    method Decrypt(p: Primitives, ciphertext: Bytes) returns (r: CipherResult)
      requires Valid()
      modifies inbound
      ensures Valid() && inbound.nonce == AfterUse(old(inbound.nonce))
      ensures r == Opening(p, inbound.key, old(inbound.nonce), [], ciphertext)
    {
      r := inbound.DecryptWithAd(p, ciphertext, []);
    }

    method Encrypt(p: Primitives, plaintext: Bytes) returns (r: CipherResult)
      requires Valid()
      modifies outbound
      ensures Valid() && outbound.nonce == AfterUse(old(outbound.nonce))
      ensures r == Sealing(p, outbound.key, old(outbound.nonce), [], plaintext)
    {
      r := outbound.EncryptWithAd(p, plaintext, []);
    }
  }

  /** `HandshakeHash::new`: the hash of the 33-byte protocol name. */
  method Begin(p: Primitives) returns (h: HandshakeHash, ck: ChainingKey)
    ensures fresh(h) && fresh(ck)
    ensures h.value == ck.value == InitializeSymmetric(p, PROTOCOL_NAME).h
  {
    assert |PROTOCOL_NAME| == 33;
    h := new HandshakeHash(p.hash(PROTOCOL_NAME));
    ck := new ChainingKey(p.hash(PROTOCOL_NAME));
  }

  datatype HandshakeRequest = HandshakeRequest(clientEphemeralPublic: Bytes, payloadCiphertext: Bytes)

  datatype HandshakeResponse = HandshakeResponse(serverEphemeralPublic: Bytes, payloadCiphertext: Bytes)

  datatype HandshakeError = InvalidKey | Decryption | Encryption

  /** The generic states of the two parties before the first message. */
  function ClientStart(p: Primitives, prologue: Bytes, serverPublic: Bytes): HandshakeState {
    InitializeNK(p, true, prologue, None, serverPublic)
  }

  function ServerStart(p: Primitives, prologue: Bytes, serverSecret: Bytes, serverPublic: Bytes): HandshakeState {
    InitializeNK(p, false, prologue, Some(serverSecret), serverPublic)
  }

  // ---- the pattern's messages, unrolled ----

  /** Mixing in an ephemeral key and then one DH output. */
  function Keyed(p: Primitives, s: SymmetricState, public: Bytes, material: Bytes): SymmetricState {
    MixKey(p, MixHash(p, s, public), material)
  }

  lemma WriteRequest(p: Primitives, hs: HandshakeState, ephemeral: Bytes, payload: Bytes)
    requires hs.initiator && hs.rs.Some?
    ensures var keyed := Keyed(p, hs.symmetric, p.publicKey(ephemeral), p.dh(ephemeral, hs.rs.value));
            WriteMessage(p, hs, NK_REQUEST, ephemeral, payload) ==
            match EncryptAndHash(p, keyed, payload)
            case None => None
            case Some((symmetric, ciphertext)) =>
              Some((hs.(e := Some(ephemeral), symmetric := symmetric), p.publicKey(ephemeral) + ciphertext))
  {
    hide EncryptAndHash;
    assert NK_REQUEST[0] == E && NK_REQUEST[1..] == [ES];
    var (first, public) := WriteToken(p, hs, E, ephemeral).value;
    OneToken(p, first, ES, ephemeral, []);
    assert public + [] == public;
  }

  lemma OneToken(p: Primitives, hs: HandshakeState, token: Token, ephemeral: Bytes, message: Bytes)
    requires token != E && token != S
    ensures MixToken(p, hs, token).None? ==>
            WriteTokens(p, hs, [token], ephemeral).None? && ReadTokens(p, hs, [token], message).None?
    ensures MixToken(p, hs, token).Some? ==>
            WriteTokens(p, hs, [token], ephemeral) == Some((MixToken(p, hs, token).value, [])) &&
            ReadTokens(p, hs, [token], message) == Some((MixToken(p, hs, token).value, message))
  {
    hide MixToken;
    assert [token][1..] == [];
    if MixToken(p, hs, token).Some? {
      var hs' := MixToken(p, hs, token).value;
      var none: Bytes := [];
      assert none + none == none;
      assert WriteTokens(p, hs', [], ephemeral) == Some((hs', none));
      assert WriteToken(p, hs, token, ephemeral) == Some((hs', []));
    }
  }

  lemma ReadRequest(p: Primitives, hs: HandshakeState, public: Bytes, ciphertext: Bytes)
    requires !hs.initiator && hs.s.Some? && |public| == KEY_LENGTH
    ensures var keyed := Keyed(p, hs.symmetric, public, p.dh(hs.s.value, public));
            ReadMessage(p, hs, NK_REQUEST, public + ciphertext) ==
            match DecryptAndHash(p, keyed, ciphertext)
            case None => None
            case Some((symmetric, payload)) => Some((hs.(re := Some(public), symmetric := symmetric), payload))
  {
    hide DecryptAndHash;
    assert NK_REQUEST[0] == E && NK_REQUEST[1..] == [ES];
    assert (public + ciphertext)[..KEY_LENGTH] == public && (public + ciphertext)[KEY_LENGTH..] == ciphertext;
    OneToken(p, ReadToken(p, hs, E, public + ciphertext).value.0, ES, [], ciphertext);
  }

  lemma WriteResponse(p: Primitives, hs: HandshakeState, ephemeral: Bytes, payload: Bytes)
    requires hs.re.Some?
    ensures var keyed := Keyed(p, hs.symmetric, p.publicKey(ephemeral), p.dh(ephemeral, hs.re.value));
            WriteMessage(p, hs, NK_RESPONSE, ephemeral, payload) ==
            match EncryptAndHash(p, keyed, payload)
            case None => None
            case Some((symmetric, ciphertext)) =>
              Some((hs.(e := Some(ephemeral), symmetric := symmetric), p.publicKey(ephemeral) + ciphertext))
  {
    hide EncryptAndHash;
    assert NK_RESPONSE[0] == E && NK_RESPONSE[1..] == [EE];
    var (first, public) := WriteToken(p, hs, E, ephemeral).value;
    OneToken(p, first, EE, ephemeral, []);
    assert public + [] == public;
  }

  lemma ReadResponse(p: Primitives, hs: HandshakeState, public: Bytes, ciphertext: Bytes)
    requires hs.e.Some? && |public| == KEY_LENGTH
    ensures var keyed := Keyed(p, hs.symmetric, public, p.dh(hs.e.value, public));
            ReadMessage(p, hs, NK_RESPONSE, public + ciphertext) ==
            match DecryptAndHash(p, keyed, ciphertext)
            case None => None
            case Some((symmetric, payload)) => Some((hs.(re := Some(public), symmetric := symmetric), payload))
  {
    hide DecryptAndHash;
    assert NK_RESPONSE[0] == E && NK_RESPONSE[1..] == [EE];
    assert (public + ciphertext)[..KEY_LENGTH] == public && (public + ciphertext)[KEY_LENGTH..] == ciphertext;
    OneToken(p, ReadToken(p, hs, E, public + ciphertext).value.0, EE, [], ciphertext);
  }

  // ---- the client ----

  class ClientHandshake {
    const ephemeral: Bytes
    const h: HandshakeHash
    const ck: ChainingKey

    constructor (ephemeral: Bytes, h: HandshakeHash, ck: ChainingKey)
      ensures this.ephemeral == ephemeral && this.h == h && this.ck == ck
    {
      this.ephemeral := ephemeral;
      this.h := h;
      this.ck := ck;
    }

    /** This handshake has reached the generic state. */
    ghost predicate At(hs: HandshakeState)
      reads h, ck
    {
      hs.initiator && hs.e == Some(ephemeral) && hs.symmetric.h == h.value && hs.symmetric.ck == ck.value
    }

    /** Reads the response exactly as the generic rules do, although the last MixHash is omitted. */
    method Finish(p: Primitives, response: HandshakeResponse, ghost hs: HandshakeState)
      returns (r: Result<(Transport, Bytes), HandshakeError>)
      requires At(hs)
      modifies h, ck
      ensures |response.serverEphemeralPublic| != KEY_LENGTH ==> r == Err(InvalidKey)
      ensures |response.serverEphemeralPublic| == KEY_LENGTH ==>
        match ReadMessage(p, hs, NK_RESPONSE, response.serverEphemeralPublic + response.payloadCiphertext)
        case None => r == Err(Decryption)
        case Some((hs', payload)) =>
          r.Ok? && r.value.1 == payload && fresh(r.value.0) && r.value.0.Valid() &&
          fresh(r.value.0.inbound) && fresh(r.value.0.outbound) &&
          (r.value.0.outbound.key, r.value.0.inbound.key) == Split(p, hs'.symmetric) &&
          r.value.0.outbound.nonce == 0 && r.value.0.inbound.nonce == 0
    {
      if |response.serverEphemeralPublic| != KEY_LENGTH { return Err(InvalidKey); }
      h.MixHash(p, response.serverEphemeralPublic);
      var cipher := ck.MixKey(p, p.dh(ephemeral, response.serverEphemeralPublic));
      var result := cipher.DecryptWithAd(p, response.payloadCiphertext, h.value);
      ReadResponse(p, hs, response.serverEphemeralPublic, response.payloadCiphertext);
      if !result.CipherOk? { return Err(Decryption); }
      var transport := ck.Split(p, Client);
      return Ok((transport, result.bytes));
    }
  }

  /** Writes the request exactly as the generic rules do. */
  method StartClient(p: Primitives, ephemeral: Bytes, serverPublic: Bytes, prologue: Bytes, payload: Bytes)
    returns (r: Result<(ClientHandshake, HandshakeRequest), HandshakeError>)
    ensures match WriteMessage(p, ClientStart(p, prologue, serverPublic), NK_REQUEST, ephemeral, payload)
            case None => r == Err(Encryption)
            case Some((hs, message)) =>
              r.Ok? && message == r.value.1.clientEphemeralPublic + r.value.1.payloadCiphertext &&
              r.value.1.clientEphemeralPublic == p.publicKey(ephemeral) &&
              fresh(r.value.0) && fresh(r.value.0.h) && fresh(r.value.0.ck) && r.value.0.At(hs)
  {
    var public := p.publicKey(ephemeral);
    var h, ck := Begin(p);
    h.MixHash(p, prologue);
    h.MixHash(p, serverPublic);
    h.MixHash(p, public);
    var cipher := ck.MixKey(p, p.dh(ephemeral, serverPublic));
    var sealed := cipher.EncryptWithAd(p, payload, h.value);
    WriteRequest(p, ClientStart(p, prologue, serverPublic), ephemeral, payload);
    if !sealed.CipherOk? { return Err(Encryption); }
    h.MixHash(p, sealed.bytes);
    var handshake := new ClientHandshake(ephemeral, h, ck);
    return Ok((handshake, HandshakeRequest(public, sealed.bytes)));
  }

  // ---- the server ----

  class ServerHandshake {
    const cipher: CipherState
    const h: HandshakeHash
    const ck: ChainingKey
    const ephemeralPublic: Bytes

    constructor (cipher: CipherState, h: HandshakeHash, ck: ChainingKey, ephemeralPublic: Bytes)
      ensures this.cipher == cipher && this.h == h && this.ck == ck && this.ephemeralPublic == ephemeralPublic
    {
      this.cipher := cipher;
      this.h := h;
      this.ck := ck;
      this.ephemeralPublic := ephemeralPublic;
    }

    /** This handshake has read the request, and has already mixed in the response's tokens. */
    ghost predicate At(p: Primitives, hs: HandshakeState, ephemeral: Bytes)
      reads cipher, h, ck
    {
      hs.re.Some? && ephemeralPublic == p.publicKey(ephemeral) && cipher.nonce == 0 &&
      var keyed := Keyed(p, hs.symmetric, p.publicKey(ephemeral), p.dh(ephemeral, hs.re.value));
      keyed.h == h.value && keyed.ck == ck.value && keyed.key == Some(cipher.key)
    }

    method Finish(p: Primitives, payload: Bytes, ghost hs: HandshakeState, ghost ephemeral: Bytes)
      returns (r: Result<(Transport, HandshakeResponse), HandshakeError>)
      requires At(p, hs, ephemeral)
      modifies cipher
      ensures match WriteMessage(p, hs, NK_RESPONSE, ephemeral, payload)
              case None => r == Err(Encryption)
              case Some((hs', message)) =>
                r.Ok? && message == r.value.1.serverEphemeralPublic + r.value.1.payloadCiphertext &&
                r.value.1.serverEphemeralPublic == p.publicKey(ephemeral) &&
                fresh(r.value.0) && r.value.0.Valid() &&
                fresh(r.value.0.inbound) && fresh(r.value.0.outbound) &&
                (r.value.0.inbound.key, r.value.0.outbound.key) == Split(p, hs'.symmetric) &&
                r.value.0.outbound.nonce == 0 && r.value.0.inbound.nonce == 0
    {
      WriteResponse(p, hs, ephemeral, payload);
      var sealed := cipher.EncryptWithAd(p, payload, h.value);
      if !sealed.CipherOk? { return Err(Encryption); }
      var transport := ck.Split(p, Server);
      return Ok((transport, HandshakeResponse(ephemeralPublic, sealed.bytes)));
    }
  }

  /** Reads the request exactly as the generic rules do. */
  method StartServer(p: Primitives, ephemeral: Bytes, serverSecret: Bytes, serverPublic: Bytes, prologue: Bytes,
                     request: HandshakeRequest)
    returns (r: Result<(ServerHandshake, Bytes), HandshakeError>)
    ensures |request.clientEphemeralPublic| != KEY_LENGTH ==> r == Err(InvalidKey)
    ensures |request.clientEphemeralPublic| == KEY_LENGTH ==>
      match ReadMessage(p, ServerStart(p, prologue, serverSecret, serverPublic), NK_REQUEST,
                        request.clientEphemeralPublic + request.payloadCiphertext)
      case None => r == Err(Decryption)
      case Some((hs, payload)) =>
        r.Ok? && r.value.1 == payload && fresh(r.value.0) && fresh(r.value.0.cipher) && r.value.0.At(p, hs, ephemeral)
  {
    if |request.clientEphemeralPublic| != KEY_LENGTH { return Err(InvalidKey); }
    var h, ck := Begin(p);
    h.MixHash(p, prologue);
    h.MixHash(p, serverPublic);
    h.MixHash(p, request.clientEphemeralPublic);
    var cipher := ck.MixKey(p, p.dh(serverSecret, request.clientEphemeralPublic));
    var result := cipher.DecryptWithAd(p, request.payloadCiphertext, h.value);
    ReadRequest(p, ServerStart(p, prologue, serverSecret, serverPublic), request.clientEphemeralPublic,
                request.payloadCiphertext);
    if !result.CipherOk? { return Err(Decryption); }
    h.MixHash(p, request.payloadCiphertext);
    var ephemeralPublic := p.publicKey(ephemeral);
    h.MixHash(p, ephemeralPublic);
    cipher := ck.MixKey(p, p.dh(ephemeral, request.clientEphemeralPublic));
    var handshake := new ServerHandshake(cipher, h, ck, ephemeralPublic);
    return Ok((handshake, result.bytes));
  }

  // ---- both together ----

  /** The transport keys of a whole generic handshake; None if one of its two messages cannot be encrypted. */
  function HandshakeKeys(p: Primitives, prologue: Bytes, clientEphemeral: Bytes, serverSecret: Bytes,
                         serverEphemeral: Bytes, request: Bytes, response: Bytes): Option<(Bytes, Bytes)> {
    match WriteMessage(p, ClientStart(p, prologue, p.publicKey(serverSecret)), NK_REQUEST, clientEphemeral, request)
    case None => None
    case Some((_, message)) =>
      match ReadMessage(p, ServerStart(p, prologue, serverSecret, p.publicKey(serverSecret)), NK_REQUEST, message)
      case None => None
      case Some((server, _)) =>
        match WriteMessage(p, server, NK_RESPONSE, serverEphemeral, response)
        case None => None
        case Some((finished, _)) => Some(Split(p, finished.symmetric))
  }

  /** Two ends that have sent nothing yet, with these keys for the client's and the server's messages. */
  ghost predicate JustConnected(client: Transport, server: Transport, keys: (Bytes, Bytes))
    reads client.inbound, client.outbound, server.inbound, server.outbound
  {
    && client.Valid() && server.Valid()
    && {client.inbound, client.outbound} !! {server.inbound, server.outbound}
    && client.outbound.key == server.inbound.key == keys.0 && server.outbound.key == client.inbound.key == keys.1
    && client.outbound.nonce == client.inbound.nonce == server.outbound.nonce == server.inbound.nonce == 0
  }

  /**
   A handshake between the two implementations: it fails exactly if one of the two messages
   cannot be encrypted; otherwise each side reads what the other wrote and the ends are connected.
   */
  method Connect(p: Primitives, prologue: Bytes, clientEphemeral: Bytes, serverSecret: Bytes, serverEphemeral: Bytes,
                 request: Bytes, response: Bytes)
    returns (r: Result<(Transport, Transport, Bytes, Bytes), HandshakeError>)
    requires Lawful(p)
    ensures match HandshakeKeys(p, prologue, clientEphemeral, serverSecret, serverEphemeral, request, response)
            case None => r == Err(Encryption)
            case Some(keys) =>
              r.Ok? && r.value.2 == request && r.value.3 == response && JustConnected(r.value.0, r.value.1, keys)
  {
    assert KeyLaw(p, clientEphemeral) && KeyLaw(p, serverEphemeral);
    ghost var c0 := ClientStart(p, prologue, p.publicKey(serverSecret));
    ghost var s0 := ServerStart(p, prologue, serverSecret, p.publicKey(serverSecret));
    var started := StartClient(p, clientEphemeral, p.publicKey(serverSecret), prologue, request);
    if started.Err? { return Err(started.error); }
    HandshakeAgrees(p, prologue, serverSecret, clientEphemeral, serverEphemeral, request, response);
    hide Lawful, ReadMessage, WriteMessage, InitializeNK, Split;
    ghost var (c1, message1) := WriteMessage(p, c0, NK_REQUEST, clientEphemeral, request).value;
    var (client, message) := started.value;
    var received := StartServer(p, serverEphemeral, serverSecret, p.publicKey(serverSecret), prologue, message);
    ghost var (s1, _) := ReadMessage(p, s0, NK_REQUEST, message1).value;
    var (server, read) := received.value;
    var replied := server.Finish(p, response, s1, serverEphemeral);
    if replied.Err? { return Err(replied.error); }
    var (serverTransport, reply) := replied.value;
    var finished := client.Finish(p, reply, c1);
    var (clientTransport, answer) := finished.value;
    return Ok((clientTransport, serverTransport, read, answer));
  }
}
