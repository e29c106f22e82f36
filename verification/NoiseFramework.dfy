/**
 The handshake rules of the Noise Protocol Framework (sections 5.1 to 5.3), for any message
 pattern built from the tokens e, s, ee, es, se and ss, and the NK pattern of section 7.5.

 Two parties that run matching handshake states agree: each message read gives the payload
 written, and both end with the same transport keys.
 */
module NoiseFramework {
  import opened Wrappers
  import opened Encoding

  /** The DH, cipher and hash functions of a protocol name, with 32-byte hashes and keys. */
  datatype Primitives = Primitives(
    hash: Bytes -> Bytes,
    hkdf: (Bytes, Bytes) -> (Bytes, Bytes),
    publicKey: Bytes -> Bytes,
    dh: (Bytes, Bytes) -> Bytes,
    seal: (Bytes, Bytes, Bytes, Bytes) -> Option<Bytes>,
    open: (Bytes, Bytes, Bytes, Bytes) -> Option<Bytes>)

  const HASH_LENGTH: int := 32
  const KEY_LENGTH: int := 32
  const TAG_LENGTH: int := 16

  ghost predicate AgreementLaw(p: Primitives, a: Bytes, b: Bytes) {
    p.dh(a, p.publicKey(b)) == p.dh(b, p.publicKey(a))
  }

  ghost predicate KeyLaw(p: Primitives, secret: Bytes) {
    |p.publicKey(secret)| == KEY_LENGTH
  }

  ghost predicate AeadLaw(p: Primitives, key: Bytes, nonce: Bytes, ad: Bytes, plaintext: Bytes) {
    match p.seal(key, nonce, ad, plaintext)
    case None => true
    case Some(ciphertext) =>
      |ciphertext| == |plaintext| + TAG_LENGTH && p.open(key, nonce, ad, ciphertext) == Some(plaintext)
  }

  ghost predicate Lawful(p: Primitives) {
    && (forall a, b :: AgreementLaw(p, a, b))
    && (forall secret :: KeyLaw(p, secret))
    && (forall key, nonce, ad, plaintext :: AeadLaw(p, key, nonce, ad, plaintext))
  }

  // ---- section 5.1 and 12.3: nonces ----

  function LittleEndian(width: nat, n: nat): (r: Bytes)
    ensures |r| == width
  {
    if width == 0 then [] else [n % 256] + LittleEndian(width - 1, n / 256)
  }

  lemma {:induction false} LittleEndianInjective(width: nat, m: nat, n: nat)
    requires m < Pow256(width) && n < Pow256(width)
    requires LittleEndian(width, m) == LittleEndian(width, n)
    ensures m == n
  {
    if width > 0 {
      assert LittleEndian(width, m)[1..] == LittleEndian(width - 1, m / 256);
      assert LittleEndian(width, n)[1..] == LittleEndian(width - 1, n / 256);
      LittleEndianInjective(width - 1, m / 256, n / 256);
      assert LittleEndian(width, m)[0] == m % 256 && LittleEndian(width, n)[0] == n % 256;
    }
  }

  function FromLittleEndian(bytes: Bytes): nat {
    if bytes == [] then 0 else bytes[0] + 256 * FromLittleEndian(bytes[1..])
  }

  /** The least significant byte comes first. */
  lemma {:induction false} LittleEndianRoundTrip(width: nat, n: nat)
    requires n < Pow256(width)
    ensures FromLittleEndian(LittleEndian(width, n)) == n
  {
    if width > 0 {
      LittleEndianRoundTrip(width - 1, n / 256);
      assert LittleEndian(width, n)[1..] == LittleEndian(width - 1, n / 256);
    }
  }

  /** 2^64 - 1, which Noise reserves. */
  const RESERVED_NONCE: nat := 0xFFFF_FFFF_FFFF_FFFF

  /** Four zero bytes and the 64-bit counter. */
  function NonceBytes(n: nat): Bytes {
    [0, 0, 0, 0] + LittleEndian(8, n)
  }

  lemma LittleEndianStep(width: nat, n: nat)
    requires width > 0
    ensures LittleEndian(width, n) == [n % 256] + LittleEndian(width - 1, n / 256)
  {
  }

  lemma {:induction false} LittleEndianZero(width: nat)
    ensures LittleEndian(width, 0) == Zeros(width)
  {
    if width > 0 {
      LittleEndianZero(width - 1);
    }
  }

  /** The nonces of the counters 0, 1 and 256. */
  lemma FirstNonces()
    ensures NonceBytes(0) == [0, 0, 0, 0, 0, 0, 0, 0, 0, 0, 0, 0]
    ensures NonceBytes(1) == [0, 0, 0, 0, 1, 0, 0, 0, 0, 0, 0, 0]
    ensures NonceBytes(256) == [0, 0, 0, 0, 0, 1, 0, 0, 0, 0, 0, 0]
  {
    hide LittleEndian;
    LittleEndianZero(8);
    LittleEndianZero(7);
    LittleEndianZero(6);
    LittleEndianStep(8, 1);
    LittleEndianStep(8, 256);
    LittleEndianStep(7, 1);
  }

  lemma NoncesApart(m: nat, n: nat)
    requires m <= RESERVED_NONCE && n <= RESERVED_NONCE && NonceBytes(m) == NonceBytes(n)
    ensures m == n
  {
    assert NonceBytes(m)[4..] == LittleEndian(8, m) && NonceBytes(n)[4..] == LittleEndian(8, n);
    assert Pow256(8) == RESERVED_NONCE + 1;
    LittleEndianInjective(8, m, n);
  }

  // ---- section 5.2: the symmetric state ----

  datatype SymmetricState = SymmetricState(ck: Bytes, h: Bytes, key: Option<Bytes>, n: nat)

  function Zeros(n: nat): Bytes {
    seq(n, i => 0)
  }

  /** A name that fits a hash is padded, a longer one is hashed. */
  function InitializeSymmetric(p: Primitives, name: Bytes): SymmetricState {
    var h := if |name| <= HASH_LENGTH then name + Zeros(HASH_LENGTH - |name|) else p.hash(name);
    SymmetricState(h, h, None, 0)
  }

  function MixKey(p: Primitives, s: SymmetricState, material: Bytes): SymmetricState {
    var (ck, key) := p.hkdf(s.ck, material);
    s.(ck := ck, key := Some(key), n := 0)
  }

  function MixHash(p: Primitives, s: SymmetricState, data: Bytes): SymmetricState {
    s.(h := p.hash(s.h + data))
  }

  function EncryptAndHash(p: Primitives, s: SymmetricState, plaintext: Bytes): Option<(SymmetricState, Bytes)> {
    match s.key
    case None => Some((MixHash(p, s, plaintext), plaintext))
    case Some(key) =>
      match p.seal(key, NonceBytes(s.n), s.h, plaintext)
      case None => None
      case Some(ciphertext) => Some((MixHash(p, s, ciphertext).(n := s.n + 1), ciphertext))
  }

  function DecryptAndHash(p: Primitives, s: SymmetricState, ciphertext: Bytes): Option<(SymmetricState, Bytes)> {
    match s.key
    case None => Some((MixHash(p, s, ciphertext), ciphertext))
    case Some(key) =>
      match p.open(key, NonceBytes(s.n), s.h, ciphertext)
      case None => None
      case Some(plaintext) => Some((MixHash(p, s, ciphertext).(n := s.n + 1), plaintext))
  }

  /** The keys of the initiator's and the responder's direction. */
  function Split(p: Primitives, s: SymmetricState): (Bytes, Bytes) {
    p.hkdf(s.ck, [])
  }

  // ---- section 5.3: the handshake state ----

  datatype Token = E | S | EE | ES | SE | SS

  datatype HandshakeState = HandshakeState(
    symmetric: SymmetricState,
    initiator: bool,
    s: Option<Bytes>,
    e: Option<Bytes>,
    rs: Option<Bytes>,
    re: Option<Bytes>)

  function Agreed(p: Primitives, secret: Option<Bytes>, public: Option<Bytes>): Option<Bytes> {
    if secret.Some? && public.Some? then Some(p.dh(secret.value, public.value)) else None
  }

  /** The DH output a token calls for, seen from one side. */
  function TokenSecret(p: Primitives, hs: HandshakeState, token: Token): Option<Bytes>
    requires token != E && token != S
  {
    match token
    case EE => Agreed(p, hs.e, hs.re)
    case ES => if hs.initiator then Agreed(p, hs.e, hs.rs) else Agreed(p, hs.s, hs.re)
    case SE => if hs.initiator then Agreed(p, hs.s, hs.re) else Agreed(p, hs.e, hs.rs)
    case SS => Agreed(p, hs.s, hs.rs)
  }

  function MixToken(p: Primitives, hs: HandshakeState, token: Token): Option<HandshakeState>
    requires token != E && token != S
  {
    match TokenSecret(p, hs, token)
    case None => None
    case Some(material) => Some(hs.(symmetric := MixKey(p, hs.symmetric, material)))
  }

  /** One token of WriteMessage, with the bytes it appends. `ephemeral` is the generated key. */
  function WriteToken(p: Primitives, hs: HandshakeState, token: Token,
                      ephemeral: Bytes): Option<(HandshakeState, Bytes)> {
    match token
    case E =>
      var public := p.publicKey(ephemeral);
      Some((hs.(e := Some(ephemeral), symmetric := MixHash(p, hs.symmetric, public)), public))
    case S =>
      if hs.s.None? then None
      else (match EncryptAndHash(p, hs.symmetric, p.publicKey(hs.s.value))
            case None => None
            case Some((symmetric, ciphertext)) => Some((hs.(symmetric := symmetric), ciphertext)))
    case _ =>
      match MixToken(p, hs, token)
      case None => None
      case Some(hs') => Some((hs', []))
  }

  function WriteTokens(p: Primitives, hs: HandshakeState, tokens: seq<Token>,
                       ephemeral: Bytes): Option<(HandshakeState, Bytes)>
    decreases |tokens|
  {
    if tokens == [] then Some((hs, []))
    else
      match WriteToken(p, hs, tokens[0], ephemeral)
      case None => None
      case Some((next, bytes)) =>
        match WriteTokens(p, next, tokens[1..], ephemeral)
        case None => None
        case Some((last, rest)) => Some((last, bytes + rest))
  }

  function WriteMessage(p: Primitives, hs: HandshakeState, tokens: seq<Token>, ephemeral: Bytes, payload: Bytes)
    : Option<(HandshakeState, Bytes)>
  {
    match WriteTokens(p, hs, tokens, ephemeral)
    case None => None
    case Some((next, bytes)) =>
      match EncryptAndHash(p, next.symmetric, payload)
      case None => None
      case Some((symmetric, ciphertext)) => Some((next.(symmetric := symmetric), bytes + ciphertext))
  }

  /** One token of ReadMessage, with the rest of the message. */
  function ReadToken(p: Primitives, hs: HandshakeState, token: Token, message: Bytes): Option<(HandshakeState, Bytes)> {
    match token
    case E =>
      if |message| < KEY_LENGTH then None
      else
        var public := message[..KEY_LENGTH];
        Some((hs.(re := Some(public), symmetric := MixHash(p, hs.symmetric, public)), message[KEY_LENGTH..]))
    case S =>
      var length := if hs.symmetric.key.Some? then KEY_LENGTH + TAG_LENGTH else KEY_LENGTH;
      if |message| < length then None
      else (match DecryptAndHash(p, hs.symmetric, message[..length])
            case None => None
            case Some((symmetric, public)) =>
              Some((hs.(rs := Some(public), symmetric := symmetric), message[length..])))
    case _ =>
      match MixToken(p, hs, token)
      case None => None
      case Some(hs') => Some((hs', message))
  }

  function ReadTokens(p: Primitives, hs: HandshakeState, tokens: seq<Token>,
                      message: Bytes): Option<(HandshakeState, Bytes)>
    decreases |tokens|
  {
    if tokens == [] then Some((hs, message))
    else
      match ReadToken(p, hs, tokens[0], message)
      case None => None
      case Some((next, rest)) => ReadTokens(p, next, tokens[1..], rest)
  }

  function ReadMessage(p: Primitives, hs: HandshakeState, tokens: seq<Token>,
                       message: Bytes): Option<(HandshakeState, Bytes)> {
    match ReadTokens(p, hs, tokens, message)
    case None => None
    case Some((next, ciphertext)) =>
      match DecryptAndHash(p, next.symmetric, ciphertext)
      case None => None
      case Some((symmetric, payload)) => Some((next.(symmetric := symmetric), payload))
  }

  // ---- agreement, for every pattern ----

  function Published(p: Primitives, secret: Option<Bytes>): Option<Bytes> {
    match secret
    case None => None
    case Some(value) => Some(p.publicKey(value))
  }

  /** A known public key belongs to the secret that the other side holds. */
  ghost predicate Known(p: Primitives, public: Option<Bytes>, secret: Option<Bytes>) {
    public.Some? ==> public == Published(p, secret)
  }

  /** The two sides of one handshake between messages. */
  ghost predicate Mirror(p: Primitives, a: HandshakeState, b: HandshakeState) {
    && a.symmetric == b.symmetric && a.initiator != b.initiator
    && Known(p, a.rs, b.s) && Known(p, b.rs, a.s)
    && a.re == Published(p, b.e) && b.re == Published(p, a.e)
  }

  /** The token is a DH with the writer's static key. */
  predicate NeedsStatic(token: Token, writerInitiates: bool) {
    match token
    case ES => !writerInitiates
    case SE => writerInitiates
    case SS => true
    case _ => false
  }

  /** The reader has the writer's static key wherever a token needs it (section 7.3). */
  predicate ValidTokens(tokens: seq<Token>, writerInitiates: bool, known: bool) {
    tokens == [] ||
    ((NeedsStatic(tokens[0], writerInitiates) ==> known) &&
     ValidTokens(tokens[1..], writerInitiates, known || tokens[0] == S))
  }

  lemma SymmetricAgrees(p: Primitives, s: SymmetricState, plaintext: Bytes)
    requires Lawful(p) && EncryptAndHash(p, s, plaintext).Some?
    ensures var (s', ciphertext) := EncryptAndHash(p, s, plaintext).value;
            DecryptAndHash(p, s, ciphertext) == Some((s', plaintext)) &&
            |ciphertext| == |plaintext| + if s.key.Some? then TAG_LENGTH else 0
  {
    if s.key.Some? {
      assert AeadLaw(p, s.key.value, NonceBytes(s.n), s.h, plaintext);
    }
  }

  /** Both sides of a DH token mix in the same secret. */
  lemma SecretAgrees(p: Primitives, w: HandshakeState, r: HandshakeState, token: Token)
    requires Lawful(p) && Mirror(p, w, r) && token != E && token != S
    requires NeedsStatic(token, w.initiator) ==> r.rs.Some?
    requires TokenSecret(p, w, token).Some?
    ensures TokenSecret(p, r, token) == TokenSecret(p, w, token)
  {
    forall a, b ensures p.dh(a, p.publicKey(b)) == p.dh(b, p.publicKey(a)) {
      assert AgreementLaw(p, a, b);
    }
  }

  lemma TokenAgrees(p: Primitives, w: HandshakeState, r: HandshakeState, token: Token, ephemeral: Bytes, rest: Bytes)
    requires Lawful(p) && Mirror(p, w, r) && (NeedsStatic(token, w.initiator) ==> r.rs.Some?)
    requires WriteToken(p, w, token, ephemeral).Some?
    ensures var (w', bytes) := WriteToken(p, w, token, ephemeral).value;
            ReadToken(p, r, token, bytes + rest).Some? &&
            var (r', rest') := ReadToken(p, r, token, bytes + rest).value;
            rest' == rest && Mirror(p, w', r') && w'.initiator == w.initiator &&
            (r'.rs.Some? <==> r.rs.Some? || token == S)
  {
    var (w', bytes) := WriteToken(p, w, token, ephemeral).value;
    match token
    case E =>
      assert KeyLaw(p, ephemeral);
      assert (bytes + rest)[..KEY_LENGTH] == bytes && (bytes + rest)[KEY_LENGTH..] == rest;
    case S =>
      assert KeyLaw(p, w.s.value);
      SymmetricAgrees(p, w.symmetric, p.publicKey(w.s.value));
      assert (bytes + rest)[..|bytes|] == bytes && (bytes + rest)[|bytes|..] == rest;
    case _ =>
      SecretAgrees(p, w, r, token);
      assert bytes + rest == rest;
  }

  lemma {:induction false} TokensAgree(p: Primitives, w: HandshakeState, r: HandshakeState, tokens: seq<Token>,
                                       ephemeral: Bytes, rest: Bytes)
    requires Lawful(p) && Mirror(p, w, r) && ValidTokens(tokens, w.initiator, r.rs.Some?)
    requires WriteTokens(p, w, tokens, ephemeral).Some?
    ensures var (w', bytes) := WriteTokens(p, w, tokens, ephemeral).value;
            ReadTokens(p, r, tokens, bytes + rest).Some? &&
            var (r', rest') := ReadTokens(p, r, tokens, bytes + rest).value;
            rest' == rest && Mirror(p, w', r')
    decreases |tokens|
  {
    hide Lawful, Mirror, WriteToken, ReadToken;
    var (w', bytes) := WriteTokens(p, w, tokens, ephemeral).value;
    if tokens == [] {
      assert bytes + rest == rest;
    } else {
      var (next, first) := WriteToken(p, w, tokens[0], ephemeral).value;
      var (_, others) := WriteTokens(p, next, tokens[1..], ephemeral).value;
      assert bytes + rest == first + (others + rest);
      TokenAgrees(p, w, r, tokens[0], ephemeral, others + rest);
      TokensAgree(p, next, ReadToken(p, r, tokens[0], bytes + rest).value.0, tokens[1..], ephemeral, rest);
    }
  }

  /** Reading a message gives the payload written, and the two sides stay in step. */
  lemma MessageAgrees(p: Primitives, w: HandshakeState, r: HandshakeState, tokens: seq<Token>, ephemeral: Bytes,
                      payload: Bytes)
    requires Lawful(p) && Mirror(p, w, r) && ValidTokens(tokens, w.initiator, r.rs.Some?)
    requires WriteMessage(p, w, tokens, ephemeral, payload).Some?
    ensures var (w', message) := WriteMessage(p, w, tokens, ephemeral, payload).value;
            ReadMessage(p, r, tokens, message).Some? &&
            var (r', read) := ReadMessage(p, r, tokens, message).value;
            read == payload && Mirror(p, w', r')
  {
    hide Lawful, WriteTokens, ReadTokens, EncryptAndHash, DecryptAndHash;
    var (next, _) := WriteTokens(p, w, tokens, ephemeral).value;
    var (_, ciphertext) := EncryptAndHash(p, next.symmetric, payload).value;
    TokensAgree(p, w, r, tokens, ephemeral, ciphertext);
    SymmetricAgrees(p, next.symmetric, payload);
  }

  // ---- section 7.5: NK ----

  /** "Noise_NK_25519_ChaChaPoly_BLAKE2s" */
  const PROTOCOL_NAME: Bytes :=
    [78, 111, 105, 115, 101, 95, 78, 75, 95, 50, 53, 53, 49, 57, 95, 67, 104, 97, 67, 104, 97, 80, 111, 108, 121, 95,
     66, 76, 65, 75, 69, 50, 115]

  const NK_REQUEST: seq<Token> := [E, ES]
  const NK_RESPONSE: seq<Token> := [E, EE]

  /** Prologue and pre-message of NK: the responder's static key is known beforehand. */
  function InitializeNK(p: Primitives, initiator: bool, prologue: Bytes, s: Option<Bytes>,
                        serverPublic: Bytes): HandshakeState {
    var symmetric := MixHash(p, MixHash(p, InitializeSymmetric(p, PROTOCOL_NAME), prologue), serverPublic);
    HandshakeState(symmetric, initiator, s, None, if initiator then Some(serverPublic) else None, None)
  }

  /**
   A whole NK handshake succeeds whenever both sides can encrypt: the server reads the request
   payload, the client reads the response payload, and the transport keys are equal.
   */
  lemma HandshakeAgrees(p: Primitives, prologue: Bytes, serverSecret: Bytes, clientEphemeral: Bytes,
                        serverEphemeral: Bytes, request: Bytes, response: Bytes)
    requires Lawful(p)
    requires var c0 := InitializeNK(p, true, prologue, None, p.publicKey(serverSecret));
             WriteMessage(p, c0, NK_REQUEST, clientEphemeral, request).Some?
    ensures var c0 := InitializeNK(p, true, prologue, None, p.publicKey(serverSecret));
            var s0 := InitializeNK(p, false, prologue, Some(serverSecret), p.publicKey(serverSecret));
            var (c1, message1) := WriteMessage(p, c0, NK_REQUEST, clientEphemeral, request).value;
            ReadMessage(p, s0, NK_REQUEST, message1).Some? &&
            var (s1, read1) := ReadMessage(p, s0, NK_REQUEST, message1).value;
            read1 == request &&
            (WriteMessage(p, s1, NK_RESPONSE, serverEphemeral, response).Some? ==>
              var (s2, message2) := WriteMessage(p, s1, NK_RESPONSE, serverEphemeral, response).value;
              ReadMessage(p, c1, NK_RESPONSE, message2).Some? &&
              var (c2, read2) := ReadMessage(p, c1, NK_RESPONSE, message2).value;
              read2 == response && Split(p, c2.symmetric) == Split(p, s2.symmetric))
  {
    hide Lawful, WriteMessage, ReadMessage;
    var c0 := InitializeNK(p, true, prologue, None, p.publicKey(serverSecret));
    var s0 := InitializeNK(p, false, prologue, Some(serverSecret), p.publicKey(serverSecret));
    assert ValidTokens(NK_REQUEST, true, false);
    MessageAgrees(p, c0, s0, NK_REQUEST, clientEphemeral, request);
    var (c1, message1) := WriteMessage(p, c0, NK_REQUEST, clientEphemeral, request).value;
    var (s1, _) := ReadMessage(p, s0, NK_REQUEST, message1).value;
    InitiatorKept(p, c0, NK_REQUEST, clientEphemeral, request);
    if WriteMessage(p, s1, NK_RESPONSE, serverEphemeral, response).Some? {
      assert ValidTokens(NK_RESPONSE, false, c1.rs.Some?);
      MessageAgrees(p, s1, c1, NK_RESPONSE, serverEphemeral, response);
    }
  }

  lemma {:induction false} TokensKeepRole(p: Primitives, hs: HandshakeState, tokens: seq<Token>, ephemeral: Bytes)
    requires WriteTokens(p, hs, tokens, ephemeral).Some?
    ensures WriteTokens(p, hs, tokens, ephemeral).value.0.initiator == hs.initiator
    decreases |tokens|
  {
    if tokens != [] {
      TokensKeepRole(p, WriteToken(p, hs, tokens[0], ephemeral).value.0, tokens[1..], ephemeral);
    }
  }

  lemma InitiatorKept(p: Primitives, hs: HandshakeState, tokens: seq<Token>, ephemeral: Bytes, payload: Bytes)
    requires WriteMessage(p, hs, tokens, ephemeral, payload).Some?
    ensures WriteMessage(p, hs, tokens, ephemeral, payload).value.0.initiator == hs.initiator
  {
    hide WriteTokens;
    TokensKeepRole(p, hs, tokens, ephemeral);
  }
}
