/**
 Byte strings and the length-prefixed concatenation every MAC, salt and signature input uses.
 A list of fields can be read back from its encoding, so different lists never collide.
 */
module Encoding {

  type Byte = b: int | 0 <= b < 256

  type Bytes = seq<Byte>

  function Pow256(width: nat): (p: int)
    ensures p >= 1
  {
    if width == 0 then 1 else 256 * Pow256(width - 1)
  }

  /** The digit of weight 256^k. */
  function Digit(n: nat, k: nat): Byte {
    if k == 0 then n % 256 else Digit(n / 256, k - 1)
  }

  /** Big-endian bytes of an integer that fits (`to_be2`, `to_be4`). */
  function ToBe(width: nat, n: nat): (r: Bytes)
    ensures |r| == width
  {
    seq(width, i requires 0 <= i < width => Digit(n, width - 1 - i))
  }

  function FromBe(bytes: Bytes): nat {
    if bytes == [] then 0 else 256 * FromBe(bytes[..|bytes| - 1]) + bytes[|bytes| - 1]
  }

  lemma ToBeStep(width: nat, n: nat)
    requires width > 0
    ensures ToBe(width, n) == ToBe(width - 1, n / 256) + [n % 256]
  {
    assert ToBe(width, n)[width - 1] == Digit(n, 0);
    forall i | 0 <= i < width - 1 ensures ToBe(width, n)[i] == ToBe(width - 1, n / 256)[i] {
      assert Digit(n, width - 1 - i) == Digit(n / 256, width - 1 - i - 1);
    }
  }

  lemma {:induction false} BeRoundTrip(width: nat, n: nat)
    requires n < Pow256(width)
    ensures FromBe(ToBe(width, n)) == n
  {
    if width > 0 {
      BeRoundTrip(width - 1, n / 256);
      ToBeStep(width, n);
    }
  }

  function Prefixed(width: nat, field: Bytes): Bytes {
    ToBe(width, |field|) + field
  }

  /** Each field behind its length, one after the other. */
  function Encode(width: nat, fields: seq<Bytes>): Bytes {
    if fields == [] then [] else Prefixed(width, fields[0]) + Encode(width, fields[1..])
  }

  ghost predicate FieldsFit(width: nat, fields: seq<Bytes>) {
    forall i :: 0 <= i < |fields| ==> |fields[i]| < Pow256(width)
  }

  lemma FieldPrefix(width: nat, a: Bytes, b: Bytes, x: Bytes, y: Bytes)
    requires |a| < Pow256(width) && |b| < Pow256(width)
    requires Prefixed(width, a) + x == Prefixed(width, b) + y
    ensures a == b && x == y
  {
    var s, t := Prefixed(width, a) + x, Prefixed(width, b) + y;
    assert s[..width] == ToBe(width, |a|) && t[..width] == ToBe(width, |b|);
    BeRoundTrip(width, |a|);
    BeRoundTrip(width, |b|);
    assert s[width..][..|a|] == a && t[width..][..|b|] == b;
    assert s[width..][|a|..] == x && t[width..][|b|..] == y;
  }

  /** Lists of fields of any length that encode alike are equal. */
  lemma {:induction false} EncodeInjective(width: nat, a: seq<Bytes>, b: seq<Bytes>)
    requires width > 0 && FieldsFit(width, a) && FieldsFit(width, b)
    requires Encode(width, a) == Encode(width, b)
    ensures a == b
  {
    if a != [] && b != [] {
      FieldPrefix(width, a[0], b[0], Encode(width, a[1..]), Encode(width, b[1..]));
      EncodeInjective(width, a[1..], b[1..]);
      assert a == [a[0]] + a[1..] && b == [b[0]] + b[1..];
    }
  }

  /** Two strings that end in parts of one fixed length are equal only part by part. */
  lemma SuffixSplit(a: Bytes, b: Bytes, x: Bytes, y: Bytes)
    requires a + x == b + y && |x| == |y|
    ensures a == b && x == y
  {
    assert (a + x)[..|a|] == a && (b + y)[..|b|] == b;
    assert (a + x)[|a|..] == x && (b + y)[|b|..] == y;
  }

  // ---- the messages of the protocol ----

  /** A byte-string literal. */
  function Ascii(text: string): (r: Bytes)
    ensures |r| == |text|
  {
    seq(|text|, i requires 0 <= i < |text| => text[i] as int % 256)
  }

  const UNLOCK_KEY_TAG: Bytes := Ascii("Unlock Key Tag")
  const ENCRYPTED_USER_SECRET_COMMITMENT: Bytes := Ascii("Encrypted User Secret Commitment")
  const USER_SECRET_ENCRYPTION_KEY: Bytes := Ascii("User Secret Encryption Key")

  function TagMessage(realm: Bytes): Bytes {
    Encode(4, [UNLOCK_KEY_TAG, realm])
  }

  function CommitmentMessage(realm: Bytes, share: Bytes, encryptedSecret: Bytes): Bytes {
    Encode(4, [ENCRYPTED_USER_SECRET_COMMITMENT, realm, share, encryptedSecret])
  }

  function EncryptionKeyMessage(scalar: Bytes): Bytes {
    Encode(4, [USER_SECRET_ENCRYPTION_KEY, scalar])
  }

  function SignatureMessage(realm: Bytes, publicKey: Bytes): Bytes {
    Encode(2, [realm, publicKey])
  }

  function Salt(version: Bytes, info: Bytes): Bytes {
    Encode(4, [version, info])
  }

  const FOUR_BYTES: int := 0x1_0000_0000
  const TWO_BYTES: int := 0x1_0000

  lemma Widths()
    ensures Pow256(4) == FOUR_BYTES && Pow256(2) == TWO_BYTES
  {
    assert Pow256(1) == 256 * Pow256(0);
    assert Pow256(2) == 256 * Pow256(1);
    assert Pow256(3) == 256 * Pow256(2);
  }

  /** The four-byte messages of one unlock key never collide, whichever of the two forms they have. */
  lemma MacMessagesApart(realm: Bytes, share: Bytes, secret: Bytes, realm': Bytes, share': Bytes, secret': Bytes)
    requires |realm| < FOUR_BYTES && |share| < FOUR_BYTES && |secret| < FOUR_BYTES
    requires |realm'| < FOUR_BYTES && |share'| < FOUR_BYTES && |secret'| < FOUR_BYTES
    ensures CommitmentMessage(realm, share, secret) == CommitmentMessage(realm', share', secret') ==>
              realm == realm' && share == share' && secret == secret'
    ensures TagMessage(realm) == TagMessage(realm') ==> realm == realm'
    ensures TagMessage(realm) != CommitmentMessage(realm', share', secret')
  {
    Widths();
    var c, c' := [ENCRYPTED_USER_SECRET_COMMITMENT, realm, share, secret],
        [ENCRYPTED_USER_SECRET_COMMITMENT, realm', share', secret'];
    var t, t' := [UNLOCK_KEY_TAG, realm], [UNLOCK_KEY_TAG, realm'];
    if Encode(4, c) == Encode(4, c') {
      EncodeInjective(4, c, c');
      assert c[1] == c'[1] && c[2] == c'[2] && c[3] == c'[3];
    }
    if Encode(4, t) == Encode(4, t') {
      EncodeInjective(4, t, t');
      assert t[1] == t'[1];
    }
    if Encode(4, t) == Encode(4, c') {
      EncodeInjective(4, t, c');
    }
  }

  lemma SaltsApart(version: Bytes, info: Bytes, version': Bytes, info': Bytes)
    requires |version| < FOUR_BYTES && |info| < FOUR_BYTES && |version'| < FOUR_BYTES && |info'| < FOUR_BYTES
    requires Salt(version, info) == Salt(version', info')
    ensures version == version' && info == info'
  {
    Widths();
    EncodeInjective(4, [version, info], [version', info']);
    assert [version, info][0] == [version', info'][0] && [version, info][1] == [version', info'][1];
  }

  lemma SignatureMessagesApart(realm: Bytes, key: Bytes, realm': Bytes, key': Bytes)
    requires |realm| < TWO_BYTES && |key| < TWO_BYTES && |realm'| < TWO_BYTES && |key'| < TWO_BYTES
    requires SignatureMessage(realm, key) == SignatureMessage(realm', key')
    ensures realm == realm' && key == key'
  {
    Widths();
    EncodeInjective(2, [realm, key], [realm', key']);
    assert [realm, key][0] == [realm', key'][0] && [realm, key][1] == [realm', key'][1];
  }

  // ---- the messages, byte by byte ----

  function Small(width: nat, n: Byte): (r: Bytes)
    requires width > 0
  {
    seq(width - 1, i => 0) + [n]
  }

  lemma {:induction false} SmallIs(width: nat, n: Byte)
    requires width > 0
    ensures ToBe(width, n) == Small(width, n)
  {
    ToBeStep(width, n);
    NoDigits(width - 1);
  }

  lemma {:induction false} NoDigits(width: nat)
    ensures ToBe(width, 0) == seq(width, i => 0)
  {
    if width > 0 {
      ToBeStep(width, 0);
      NoDigits(width - 1);
    }
  }

  lemma Fields2(width: nat, a: Bytes, b: Bytes)
    ensures Encode(width, [a, b]) == ToBe(width, |a|) + a + ToBe(width, |b|) + b
  {
    assert [a, b][1..] == [b];
    assert Encode(width, [b]) == Prefixed(width, b) + Encode(width, []);
    assert Encode(width, [a, b]) == Prefixed(width, a) + Encode(width, [b]);
  }

  lemma Fields4(width: nat, a: Bytes, b: Bytes, c: Bytes, d: Bytes)
    ensures Encode(width, [a, b, c, d]) ==
            ToBe(width, |a|) + a + ToBe(width, |b|) + b + ToBe(width, |c|) + c + ToBe(width, |d|) + d
  {
    assert [a, b, c, d][1..] == [b, c, d] && [b, c, d][1..] == [c, d];
    Fields2(width, c, d);
    assert Encode(width, [b, c, d]) == Prefixed(width, b) + Encode(width, [c, d]);
    assert Encode(width, [a, b, c, d]) == Prefixed(width, a) + Encode(width, [b, c, d]);
  }

  /**
   What is hashed, authenticated or signed, as it is laid out in memory: each field after its
   length in big-endian bytes.
   */
  lemma Layouts(realm: Bytes, version: Bytes, info: Bytes, share: Bytes, secret: Bytes, key: Bytes)
    requires |realm| == |version| == 16 && |share| == |key| == 32 && |secret| == 145 && |info| < 256
    ensures TagMessage(realm) == [0, 0, 0, 14] + UNLOCK_KEY_TAG + [0, 0, 0, 16] + realm
    ensures CommitmentMessage(realm, share, secret) ==
            [0, 0, 0, 32] + ENCRYPTED_USER_SECRET_COMMITMENT + [0, 0, 0, 16] + realm + [0, 0, 0, 32] + share +
            [0, 0, 0, 145] + secret
    ensures EncryptionKeyMessage(share) == [0, 0, 0, 26] + USER_SECRET_ENCRYPTION_KEY + [0, 0, 0, 32] + share
    ensures SignatureMessage(realm, key) == [0, 16] + realm + [0, 32] + key
    ensures Salt(version, info) == [0, 0, 0, 16] + version + [0, 0, 0, |info|] + info
  {
    hide Encode, ToBe;
    assert |UNLOCK_KEY_TAG| == 14 && |ENCRYPTED_USER_SECRET_COMMITMENT| == 32 && |USER_SECRET_ENCRYPTION_KEY| == 26;
    FourBytes(14);
    FourBytes(16);
    FourBytes(26);
    FourBytes(32);
    FourBytes(145);
    FourBytes(|info|);
    SmallIs(2, 16);
    SmallIs(2, 32);
    assert Small(2, 16) == [0, 16] && Small(2, 32) == [0, 32];
    Fields2(4, UNLOCK_KEY_TAG, realm);
    Fields4(4, ENCRYPTED_USER_SECRET_COMMITMENT, realm, share, secret);
    Fields2(4, USER_SECRET_ENCRYPTION_KEY, share);
    Fields2(2, realm, key);
    Fields2(4, version, info);
  }

  lemma FourBytes(n: Byte)
    ensures ToBe(4, n) == [0, 0, 0, n]
  {
    hide ToBe;
    SmallIs(4, n);
    assert Small(4, n) == [0, 0, 0, n];
  }

  // ---- big-endian order ----

  lemma {:induction false} FromBeFront(x: Byte, rest: Bytes)
    ensures FromBe([x] + rest) == x * Pow256(|rest|) + FromBe(rest) && FromBe(rest) < Pow256(|rest|)
  {
    if rest == [] {
      assert [x] + rest == [x] && [x][..0] == [];
    } else {
      var init, last := rest[..|rest| - 1], rest[|rest| - 1];
      FromBeFront(x, init);
      assert ([x] + rest)[..|rest|] == [x] + init;
      var p := Pow256(|rest| - 1);
      assert 256 * (x * p + FromBe(init)) == x * (256 * p) + 256 * FromBe(init);
    }
  }
}
