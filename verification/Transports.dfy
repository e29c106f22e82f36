/**
 Messages after the handshake: any interleaving of the two directions in which each direction
 delivers its messages in order. A direction is one key with the sender's and the receiver's
 counter; its operations are those of `Noise.CipherState`.
 */
module Transports {
  import opened Wrappers
  import opened Encoding
  import opened NoiseFramework
  import opened Noise

  /** One direction: what was encrypted, what is under way, what was read. */
  datatype Direction = Direction(
    key: Bytes,
    outbound: nat,
    inbound: nat,
    underWay: seq<Bytes>,
    sent: seq<Bytes>,
    read: seq<Bytes>,
    nonces: seq<Bytes>)

  function Fresh(key: Bytes): Direction {
    Direction(key, 0, 0, [], [], [], [])
  }

  datatype Operation = Send(plaintext: Bytes) | Receive

  /** None if the operation fails: encryption or decryption error, or no nonce left. */
  function Step(p: Primitives, d: Direction, op: Operation): Option<Direction> {
    match op
    case Send(plaintext) =>
      (match Sealing(p, d.key, d.outbound, [], plaintext)
       case CipherOk(ciphertext) =>
         Some(d.(outbound := AfterUse(d.outbound), underWay := d.underWay + [ciphertext], sent := d.sent + [plaintext],
                 nonces := d.nonces + [NonceBytes(d.outbound)]))
       case _ => None)
    case Receive =>
      if d.underWay == [] then Some(d)
      else
        match Opening(p, d.key, d.inbound, [], d.underWay[0])
        case CipherOk(plaintext) =>
          Some(d.(inbound := AfterUse(d.inbound), underWay := d.underWay[1..], read := d.read + [plaintext]))
        case _ => None
  }

  /** A connection: from client to server and from server to client. */
  datatype Connection = Connection(toServer: Direction, toClient: Direction)

  /** An operation on one of the two directions. */
  datatype Event = Event(toServer: bool, operation: Operation)

  function Happen(p: Primitives, c: Connection, e: Event): Option<Connection> {
    match Step(p, if e.toServer then c.toServer else c.toClient, e.operation)
    case None => None
    case Some(d) => Some(if e.toServer then c.(toServer := d) else c.(toClient := d))
  }

  function Run(p: Primitives, c: Connection, events: seq<Event>): Option<Connection> {
    if events == [] then Some(c)
    else
      match Run(p, c, events[..|events| - 1])
      case None => None
      case Some(before) => Happen(p, before, events[|events| - 1])
  }

  /** The i-th message under way is the encryption of the i-th unread one under its own nonce. */
  ghost predicate Aligned(p: Primitives, d: Direction) {
    && d.inbound == |d.read|
    && d.outbound == |d.sent| == |d.nonces| == |d.read| + |d.underWay| < RESERVED_NONCE
    && d.read == d.sent[..|d.read|]
    && (forall i :: 0 <= i < |d.nonces| ==> d.nonces[i] == NonceBytes(i))
    && (forall i :: 0 <= i < |d.underWay| ==>
          p.seal(d.key, NonceBytes(|d.read| + i), [], d.sent[|d.read| + i]) == Some(d.underWay[i]))
  }

  lemma SendAligned(p: Primitives, d: Direction, plaintext: Bytes)
    requires Aligned(p, d) && Step(p, d, Send(plaintext)).Some?
    ensures Aligned(p, Step(p, d, Send(plaintext)).value)
  {
    hide NonceBytes;
    var d' := Step(p, d, Send(plaintext)).value;
    assert d'.sent[..|d.read|] == d.sent[..|d.read|];
  }

  /** A message that arrives is decrypted to the next unread plaintext: it cannot fail. */
  lemma ReceiveAligned(p: Primitives, d: Direction)
    requires Lawful(p) && Aligned(p, d)
    ensures Step(p, d, Receive).Some? && Aligned(p, Step(p, d, Receive).value)
    ensures d.underWay != [] ==> Step(p, d, Receive).value.read == d.read + [d.sent[|d.read|]]
  {
    hide NonceBytes;
    if d.underWay != [] {
      assert AeadLaw(p, d.key, NonceBytes(|d.read|), [], d.sent[|d.read|]);
      var d' := Step(p, d, Receive).value;
      assert d.sent[..|d.read| + 1] == d.sent[..|d.read|] + [d.sent[|d.read|]];
      forall i | 0 <= i < |d'.underWay|
        ensures p.seal(d'.key, NonceBytes(|d'.read| + i), [], d'.sent[|d'.read| + i]) == Some(d'.underWay[i])
      {
        assert d'.underWay[i] == d.underWay[i + 1];
      }
    }
  }

  lemma {:induction false} RunAligned(p: Primitives, clientKey: Bytes, serverKey: Bytes, events: seq<Event>)
    requires Lawful(p)
    requires Run(p, Connection(Fresh(clientKey), Fresh(serverKey)), events).Some?
    ensures var c := Run(p, Connection(Fresh(clientKey), Fresh(serverKey)), events).value;
            Aligned(p, c.toServer) && Aligned(p, c.toClient) &&
            c.toServer.key == clientKey && c.toClient.key == serverKey
  {
    hide Lawful, Aligned, Step;
    if events == [] {
      FreshAligned(p, clientKey);
      FreshAligned(p, serverKey);
    } else {
      RunAligned(p, clientKey, serverKey, events[..|events| - 1]);
      var before := Run(p, Connection(Fresh(clientKey), Fresh(serverKey)), events[..|events| - 1]).value;
      var e := events[|events| - 1];
      StepAligned(p, if e.toServer then before.toServer else before.toClient, e.operation);
    }
  }

  lemma FreshAligned(p: Primitives, key: Bytes)
    ensures Aligned(p, Fresh(key))
  {
  }

  lemma StepAligned(p: Primitives, d: Direction, op: Operation)
    requires Lawful(p) && Aligned(p, d) && Step(p, d, op).Some?
    ensures Aligned(p, Step(p, d, op).value) && Step(p, d, op).value.key == d.key
  {
    match op
    case Send(plaintext) => SendAligned(p, d, plaintext);
    case Receive => ReceiveAligned(p, d);
  }

  /**
   After any interleaving: what each side has read is, in order, what the other sent so far;
   everything else sent is under way; and the next message under way will be read as it was sent.
   */
  lemma TransportRoundTrip(p: Primitives, clientKey: Bytes, serverKey: Bytes, events: seq<Event>, toServer: bool)
    requires Lawful(p)
    requires Run(p, Connection(Fresh(clientKey), Fresh(serverKey)), events).Some?
    ensures var c := Run(p, Connection(Fresh(clientKey), Fresh(serverKey)), events).value;
            var d := if toServer then c.toServer else c.toClient;
            d.read <= d.sent && |d.sent| == |d.read| + |d.underWay| && Happen(p, c, Event(toServer, Receive)).Some? &&
            (d.underWay != [] ==>
              var c' := Happen(p, c, Event(toServer, Receive)).value;
              (if toServer then c'.toServer else c'.toClient).read == d.sent[..|d.read| + 1])
  {
    hide Lawful, Step, NonceBytes;
    RunAligned(p, clientKey, serverKey, events);
    var c := Run(p, Connection(Fresh(clientKey), Fresh(serverKey)), events).value;
    ReceiveAligned(p, if toServer then c.toServer else c.toClient);
  }

  /** No nonce is used twice under a key, and none is 2^64 - 1. */
  lemma NoncesDistinct(p: Primitives, clientKey: Bytes, serverKey: Bytes, events: seq<Event>, toServer: bool)
    requires Lawful(p)
    requires Run(p, Connection(Fresh(clientKey), Fresh(serverKey)), events).Some?
    ensures var c := Run(p, Connection(Fresh(clientKey), Fresh(serverKey)), events).value;
            var nonces := (if toServer then c.toServer else c.toClient).nonces;
            (forall i, j :: 0 <= i < j < |nonces| ==> nonces[i] != nonces[j]) &&
            (forall i :: 0 <= i < |nonces| ==> nonces[i] != NonceBytes(RESERVED_NONCE))
  {
    hide Lawful, NonceBytes;
    RunAligned(p, clientKey, serverKey, events);
    var c := Run(p, Connection(Fresh(clientKey), Fresh(serverKey)), events).value;
    var nonces := (if toServer then c.toServer else c.toClient).nonces;
    forall i, j | 0 <= i < j < |nonces| ensures nonces[i] != nonces[j] {
      if nonces[i] == nonces[j] { NoncesApart(i, j); }
    }
    forall i | 0 <= i < |nonces| ensures nonces[i] != NonceBytes(RESERVED_NONCE) {
      if nonces[i] == NonceBytes(RESERVED_NONCE) { NoncesApart(i, RESERVED_NONCE); }
    }
  }

  /** An operation fails only where the sender cannot encrypt: its message is refused or its nonces are used up. */
  lemma FailsOnlyWhenSending(p: Primitives, clientKey: Bytes, serverKey: Bytes, events: seq<Event>, e: Event)
    requires Lawful(p)
    requires Run(p, Connection(Fresh(clientKey), Fresh(serverKey)), events).Some?
    ensures var c := Run(p, Connection(Fresh(clientKey), Fresh(serverKey)), events).value;
            var d := if e.toServer then c.toServer else c.toClient;
            Happen(p, c, e).None? <==>
              e.operation.Send? &&
              (|d.sent| + 1 >= RESERVED_NONCE || p.seal(d.key, NonceBytes(|d.sent|), [], e.operation.plaintext).None?)
  {
    hide Lawful, NonceBytes;
    RunAligned(p, clientKey, serverKey, events);
    var c := Run(p, Connection(Fresh(clientKey), Fresh(serverKey)), events).value;
    ReceiveAligned(p, if e.toServer then c.toServer else c.toClient);
  }

  // ---- the transports of a completed handshake ----

  lemma {:induction false} RunFails(p: Primitives, c: Connection, events: seq<Event>, n: nat)
    requires n <= |events| && Run(p, c, events[..n]).None?
    ensures Run(p, c, events).None?
    decreases |events|
  {
    if n < |events| {
      assert events[..|events| - 1][..n] == events[..n];
      RunFails(p, c, events[..|events| - 1], n);
    } else {
      assert events[..n] == events;
    }
  }

  /** The ciphers' counters are those of the connection. */
  ghost predicate Counts(client: Transport, server: Transport, c: Connection)
    reads client.inbound, client.outbound, server.inbound, server.outbound
  {
    && client.Valid() && server.Valid()
    && client.outbound.key == server.inbound.key == c.toServer.key
    && server.outbound.key == client.inbound.key == c.toClient.key
    && client.outbound.nonce == c.toServer.outbound && server.inbound.nonce == c.toServer.inbound
    && server.outbound.nonce == c.toClient.outbound && client.inbound.nonce == c.toClient.inbound
  }

  /** One operation, by the cipher objects of the two ends. */
  method Perform(p: Primitives, client: Transport, server: Transport, c: Connection,
                 e: Event) returns (r: Option<Connection>)
    requires Counts(client, server, c) && {client.inbound, client.outbound} !! {server.inbound, server.outbound}
    modifies client.inbound, client.outbound, server.inbound, server.outbound
    ensures r == Happen(p, c, e)
    ensures r.Some? ==> Counts(client, server, r.value)
  {
    var d := if e.toServer then c.toServer else c.toClient;
    var done: CipherResult := CipherError;
    match e.operation {
      case Send(plaintext) =>
        if e.toServer {
          done := client.Encrypt(p, plaintext);
        } else {
          done := server.Encrypt(p, plaintext);
        }
        if !done.CipherOk? { return None; }
        d := d.(outbound := AfterUse(d.outbound), underWay := d.underWay + [done.bytes], sent := d.sent + [plaintext],
                nonces := d.nonces + [NonceBytes(d.outbound)]);
      case Receive =>
        if d.underWay == [] { return Some(c); }
        if e.toServer {
          done := server.Decrypt(p, d.underWay[0]);
        } else {
          done := client.Decrypt(p, d.underWay[0]);
        }
        if !done.CipherOk? { return None; }
        d := d.(inbound := AfterUse(d.inbound), underWay := d.underWay[1..], read := d.read + [done.bytes]);
    }
    return Some(if e.toServer then c.(toServer := d) else c.(toClient := d));
  }

  /**
   The transports of a handshake that has just completed carry out any interleaving exactly as
   the runs above, so the round trip holds for the implementations' own objects.
   */
  method Exchange(p: Primitives, client: Transport, server: Transport, ghost keys: (Bytes, Bytes), events: seq<Event>)
    returns (r: Option<Connection>)
    requires JustConnected(client, server, keys)
    modifies client.inbound, client.outbound, server.inbound, server.outbound
    ensures r == Run(p, Connection(Fresh(keys.0), Fresh(keys.1)), events)
    ensures Lawful(p) && r.Some? ==>
      r.value.toServer.read <= r.value.toServer.sent && r.value.toClient.read <= r.value.toClient.sent
  {
    var connection := Connection(Fresh(client.outbound.key), Fresh(server.outbound.key));
    ghost var start := connection;
    for i := 0 to |events|
      invariant Run(p, start, events[..i]) == Some(connection) && Counts(client, server, connection)
    {
      var next := Perform(p, client, server, connection, events[i]);
      assert events[..i + 1][..i] == events[..i];
      if next.None? {
        RunFails(p, start, events, i + 1);
        return None;
      }
      connection := next.value;
    }
    assert events[..|events|] == events;
    if Lawful(p) {
      TransportRoundTrip(p, start.toServer.key, start.toClient.key, events, true);
      TransportRoundTrip(p, start.toServer.key, start.toClient.key, events, false);
    }
    return Some(connection);
  }
}
