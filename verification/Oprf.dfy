/**
 The 2HashDH oblivious PRF, its threshold form, and the Chaum-Pedersen proof that a server
 used the key behind its public key.

 Group and hash functions are parameters, collected in `Suite`; `IsSuite` states what is used
 of them. Random scalars are arguments.
 */
module Oprf {
  import opened Wrappers
  import opened Fields
  import opened Spaces
  import opened Shamir
  import opened Threshold
  import opened Encoding

  datatype Suite<!P> = Suite(
    field: Fields.Field,
    points: Space<P>,
    base: P,
    hashToPoint: Bytes -> P,
    sha512: Bytes -> Bytes,
    hashToScalar: Bytes -> int,
    compress: P -> Bytes,
    decompress: Bytes -> Option<P>,
    scalarBytes: int -> Bytes)

  ghost predicate PointLaw<P>(s: Suite<P>, p: P) {
    s.points.has(p) && |s.compress(p)| == 32 && s.decompress(s.compress(p)) == Some(p)
  }

  ghost predicate HashToScalarLaw<P>(s: Suite<P>, message: Bytes) {
    s.field.reduce(s.hashToScalar(message)) == s.hashToScalar(message)
  }

  ghost predicate ScalarBytesLaw<P>(s: Suite<P>, a: int, b: int) {
    |s.scalarBytes(a)| == 32 && (s.scalarBytes(a) == s.scalarBytes(b) ==> Same(s.field, a, b))
  }

  ghost predicate IsSuite<P(!new)>(s: Suite<P>) {
    && IsSpace(s.field, s.points)
    && s.base != s.points.zero
    && (forall p :: PointLaw(s, p))
    && (forall message :: HashToScalarLaw(s, message))
    && (forall a, b :: ScalarBytesLaw(s, a, b))
  }

  lemma Point<P(!new)>(s: Suite<P>, p: P)
    requires IsSuite(s)
    ensures s.points.has(p) && |s.compress(p)| == 32 && s.decompress(s.compress(p)) == Some(p)
  {
    assert PointLaw(s, p);
  }

  // ---- the PRF ----

  function HashToOutput<P>(s: Suite<P>, input: Bytes, result: P): Bytes {
    s.sha512(Ascii("Juicebox_OPRF_2023_1;") + input + s.compress(result))
  }

  function UnobliviousEvaluate<P>(s: Suite<P>, key: int, input: Bytes): Bytes {
    HashToOutput(s, input, s.points.scale(s.hashToPoint(input), key))
  }

  /** The blinded input sent to the server. */
  function Start<P>(s: Suite<P>, input: Bytes, blinding: int): P {
    s.points.scale(s.hashToPoint(input), blinding)
  }

  function BlindEvaluate<P>(s: Suite<P>, key: int, blindedInput: P): P {
    s.points.scale(blindedInput, key)
  }

  function Unblind<P>(s: Suite<P>, blinding: int, blindedOutput: P): P {
    s.points.scale(blindedOutput, s.field.invert(blinding))
  }

  function Finalize<P>(s: Suite<P>, input: Bytes, blinding: int, blindedOutput: P): Bytes {
    HashToOutput(s, input, Unblind(s, blinding, blindedOutput))
  }

  function ToPublicKey<P>(s: Suite<P>, key: int): Bytes {
    s.compress(s.points.scale(s.base, key))
  }

  /** The output hash separates inputs and results, although the input's length is left out. */
  lemma OutputsApart<P(!new)>(s: Suite<P>, input: Bytes, result: P, input': Bytes, result': P)
    requires IsSuite(s)
    requires forall m, m' :: s.sha512(m) == s.sha512(m') ==> m == m'
    requires HashToOutput(s, input, result) == HashToOutput(s, input', result')
    ensures input == input' && result == result'
  {
    var prefix := Ascii("Juicebox_OPRF_2023_1;");
    Point(s, result);
    Point(s, result');
    SuffixSplit(prefix + input, prefix + input', s.compress(result), s.compress(result'));
    SuffixSplit([], [], prefix + input, prefix + input');
    assert (prefix + input)[|prefix|..] == input && (prefix + input')[|prefix|..] == input';
  }

  /**
   Unblinding a blinded evaluation gives the direct one unless the blinding factor was zero
   and the result is not the identity.
   */
  lemma UnblindCorrect<P(!new)>(s: Suite<P>, input: Bytes, key: int, blinding: int)
    requires IsSuite(s)
    ensures var direct := s.points.scale(s.hashToPoint(input), key);
            Unblind(s, blinding, BlindEvaluate(s, key, Start(s, input, blinding))) == direct
            <==> !Same(s.field, blinding, 0) || direct == s.points.zero
  {
    var f, m, h := s.field, s.points, s.hashToPoint(input);
    var i := f.invert(blinding);
    Point(s, h);
    Inverse(f, blinding);
    Scaled(f, m, h, blinding, key);
    Scaled(f, m, h, blinding * key, i);
    var exponent := (blinding * key) * i;
    if Same(f, blinding, 0) {
      assert exponent == 0;
      Scaled(f, m, h, 0, 0);
    } else {
      SameScale(f, key, blinding * i, 1);
      assert exponent == key * (blinding * i);
      Scaled(f, m, h, exponent, key);
    }
  }

  // ---- the threshold form ----

  /** Each key share applied to one blinded input, under the index of the share. */
  function EvaluateShares<P>(s: Suite<P>, keys: seq<Share<int>>, blindedInput: P): seq<Share<P>> {
    seq(|keys|, i requires 0 <= i < |keys| => Share(keys[i].index, BlindEvaluate(s, keys[i].secret, blindedInput)))
  }

  /** Recombining evaluations under key shares is evaluation under the recombined key. */
  lemma RecoverEvaluated<P(!new)>(s: Suite<P>, keys: seq<Share<int>>, key: int, blindedInput: P)
    requires IsSuite(s)
    requires SharesIn(ScalarSpace(s.field), keys)
    requires RecoverSecret(s.field, ScalarSpace(s.field), keys) == Ok(key)
    ensures RecoverSecret(s.field, s.points, EvaluateShares(s, keys, blindedInput)) ==
            Ok(BlindEvaluate(s, key, blindedInput))
  {
    hide RecoverSecret;
    var f, xs, ks := s.field, Points(keys), Values(keys);
    RecoverRefusesDuplicates(f, ScalarSpace(f), keys);
    Point(s, blindedInput);
    assert Zip(xs, ks) == keys;
    assert Zip(xs, Multiples(s.points, blindedInput, ks)) == EvaluateShares(s, keys, blindedInput);
    RecoverMultiples(f, s.points, blindedInput, xs, ks);
  }

  /**
   Splitting the root key, evaluating enough shares on a blinded input, interpolating and
   finalizing gives what the root key gives directly.
   */
  lemma ThresholdOprf<P(!new)>(s: Suite<P>, input: Bytes, blinding: int, root: int, threshold: U32, count: U32,
                               cs: seq<int>, keys: seq<Share<int>>)
    requires IsSuite(s) && !Same(s.field, blinding, 0)
    requires ScalarSpace(s.field).has(root) && AllIn(ScalarSpace(s.field), cs)
    requires 0 < threshold <= count && |cs| == threshold - 1
    requires forall i :: 0 <= i < |keys| ==>
      keys[i] in CreateShares(ScalarSpace(s.field), root, threshold, count, cs)
    requires DistinctIndices(keys) && |keys| >= threshold
    ensures var evaluated := RecoverSecret(s.field, s.points, EvaluateShares(s, keys, Start(s, input, blinding)));
            evaluated.Ok? &&
            Finalize(s, input, blinding, evaluated.value) == UnobliviousEvaluate(s, root, input)
  {
    hide RecoverSecret, CreateShares, FromPolynomial;
    var scalars := ScalarSpace(s.field);
    ScalarSpaceIsSpace(s.field);
    ShamirCorrectness(s.field, scalars, root, threshold, count, cs, keys);
    CreatedFromPolynomial(scalars, root, threshold, count, cs, keys);
    FromPolynomialIn(s.field, scalars, root, cs, keys);
    RecoverEvaluated(s, keys, root, Start(s, input, blinding));
    UnblindCorrect(s, input, root, blinding);
  }

  // ---- the proof of equal discrete logarithms ----

  datatype Proof = Proof(c: int, betaZ: int)

  function HashToChallenge<P>(s: Suite<P>, u: Bytes, v: Bytes, w: Bytes, vt: Bytes, wt: Bytes): int {
    s.hashToScalar(Ascii("Juicebox_DLEQ_2023_1;") + u + v + w + vt + wt)
  }

  /** `v` is the compressed public key, `u` the blinded input and `w` the blinded output. */
  function GenerateProof<P>(s: Suite<P>, betaT: int, beta: int, u: P, v: Bytes, w: P): Proof {
    var vt := s.points.scale(s.base, betaT);
    var wt := s.points.scale(u, betaT);
    var c := HashToChallenge(s, s.compress(u), v, s.compress(w), s.compress(vt), s.compress(wt));
    Proof(c, s.field.reduce(betaT + s.field.reduce(beta * c)))
  }

  function Subtract<P>(s: Suite<P>, x: P, y: P): P {
    s.points.add(x, s.points.scale(y, -1))
  }

  function FirstCommitment<P>(s: Suite<P>, v: P, proof: Proof): P {
    Subtract(s, s.points.scale(s.base, proof.betaZ), s.points.scale(v, proof.c))
  }

  /** `multiscalar_mul([beta_z, -c], [u, w])` */
  function SecondCommitment<P>(s: Suite<P>, u: P, w: P, proof: Proof): P {
    s.points.add(s.points.scale(u, proof.betaZ), s.points.scale(w, s.field.reduce(-proof.c)))
  }

  datatype ProofError = InvalidPublicKey | InvalidProof

  /** `oprf::verify_proof`: the public key arrives compressed and may not decode. */
  function VerifyProof<P>(s: Suite<P>, u: P, w: P, publicKey: Bytes, proof: Proof): Result<(), ProofError> {
    match s.decompress(publicKey)
    case None => Err(InvalidPublicKey)
    case Some(v) =>
      var c := HashToChallenge(s, s.compress(u), publicKey, s.compress(w),
                               s.compress(FirstCommitment(s, v, proof)),
                               s.compress(SecondCommitment(s, u, w, proof)));
      if c == proof.c then Ok(()) else Err(InvalidProof)
  }

  /** The debug assertion of the verifier holds: both ways to compute `w_t` agree. */
  lemma CommitmentForms<P(!new)>(s: Suite<P>, u: P, w: P, proof: Proof)
    requires IsSuite(s)
    ensures SecondCommitment(s, u, w, proof) ==
            Subtract(s, s.points.scale(u, proof.betaZ), s.points.scale(w, proof.c))
  {
    Point(s, w);
    SameReduced(s.field, -proof.c);
    Scaled(s.field, s.points, w, s.field.reduce(-proof.c), -proof.c);
    Scaled(s.field, s.points, w, proof.c, -1);
    assert proof.c * -1 == -proof.c;
  }

  /** For w = x*p, z*p - c*w is the commitment t*p exactly when z answers the challenge. */
  lemma CommitmentOpens<P(!new)>(s: Suite<P>, p: P, x: int, t: int, c: int, z: int)
    requires IsSuite(s) && Same(s.field, z, t + x * c)
    ensures Subtract(s, s.points.scale(p, z), s.points.scale(s.points.scale(p, x), c)) == s.points.scale(p, t)
  {
    var f, m := s.field, s.points;
    Point(s, p);
    Scaled(f, m, p, x, c);
    Scaled(f, m, p, x * c, -1);
    Scaled(f, m, p, z, (x * c) * -1);
    assert (x * c) * -1 == -(x * c);
    SameAdd(f, z, t + x * c, x * c, x * c);
    Scaled(f, m, p, z + -(x * c), t);
  }

  /** Every honestly generated proof is accepted. */
  lemma ProofComplete<P(!new)>(s: Suite<P>, betaT: int, beta: int, u: P)
    requires IsSuite(s)
    ensures var w := BlindEvaluate(s, beta, u);
            VerifyProof(s, u, w, ToPublicKey(s, beta), GenerateProof(s, betaT, beta, u, ToPublicKey(s, beta), w)) ==
              Ok(())
  {
    var f, w, publicKey := s.field, BlindEvaluate(s, beta, u), ToPublicKey(s, beta);
    var proof := GenerateProof(s, betaT, beta, u, publicKey, w);
    Point(s, s.points.scale(s.base, beta));
    SameReduced(f, beta * proof.c);
    SameAdd(f, betaT, betaT, f.reduce(beta * proof.c), beta * proof.c);
    SameReduced(f, betaT + f.reduce(beta * proof.c));
    CommitmentOpens(s, s.base, beta, betaT, proof.c, proof.betaZ);
    CommitmentOpens(s, u, beta, betaT, proof.c, proof.betaZ);
    CommitmentForms(s, u, w, proof);
  }

  /** x is the discrete logarithm of both v to the base point and w to u. */
  ghost predicate EqualLogs<P>(s: Suite<P>, u: P, v: P, w: P, x: int) {
    v == s.points.scale(s.base, x) && w == s.points.scale(u, x)
  }

  /** Sums of multiples of two points are added coefficient by coefficient. */
  lemma Collect<P(!new)>(s: Suite<P>, p: P, v: P, a: int, b: int, d: int, e: int)
    requires IsSuite(s)
    ensures var m := s.points;
            m.add(m.add(m.scale(p, a), m.scale(v, b)), m.add(m.scale(p, d), m.scale(v, e))) ==
            m.add(m.scale(p, a + d), m.scale(v, b + e))
  {
    var f, m := s.field, s.points;
    Point(s, p);
    Point(s, v);
    Scaled(f, m, p, a, d);
    Scaled(f, m, p, d, a);
    Scaled(f, m, v, b, e);
    Scaled(f, m, v, e, b);
    Interchange(f, m, m.scale(p, a), m.scale(v, b), m.scale(p, d), m.scale(v, e));
  }

  lemma Difference<P(!new)>(s: Suite<P>, x: P, v: P, c: int)
    requires IsSuite(s)
    ensures Subtract(s, x, s.points.scale(v, c)) == s.points.add(x, s.points.scale(v, -c))
  {
    Point(s, v);
    Scaled(s.field, s.points, v, c, -1);
    assert c * -1 == -c;
  }

  lemma Vanishing<P(!new)>(s: Suite<P>, x: P, y: P)
    requires IsSuite(s)
    ensures s.points.add(x, s.points.scale(y, 0)) == x && s.points.add(s.points.scale(y, 0), x) == x
  {
    Point(s, x);
    Point(s, y);
    Scaled(s.field, s.points, y, 0, 0);
    Sum(s.field, s.points, x, s.points.zero);
  }

  /** z*p - c*v == z'*p - c'*v, with c*v and z'*p moved across. */
  lemma MoveAcross<P(!new)>(s: Suite<P>, p: P, v: P, c: int, z: int, c': int, z': int)
    requires IsSuite(s)
    requires Subtract(s, s.points.scale(p, z), s.points.scale(v, c)) ==
             Subtract(s, s.points.scale(p, z'), s.points.scale(v, c'))
    ensures s.points.scale(p, z - z') == s.points.scale(v, c - c')
  {
    hide IsSuite, Subtract;
    var m := s.points;
    Difference(s, m.scale(p, z), v, c);
    Difference(s, m.scale(p, z'), v, c');
    Collect(s, p, v, z, -c, -z', c);
    Collect(s, p, v, z', -c', -z', c);
    Vanishing(s, m.scale(p, z - z'), v);
    Vanishing(s, m.scale(v, c - c'), p);
    assert z + -z' == z - z' && -c + c == 0 && z' + -z' == 0 && -c' + c == c - c';
  }

  /** From two answers z, z' to challenges c, c', the logarithm of v to p. */
  lemma ExtractLog<P(!new)>(s: Suite<P>, p: P, v: P, c: int, z: int, c': int, z': int)
    requires IsSuite(s) && !Same(s.field, c, c')
    requires Subtract(s, s.points.scale(p, z), s.points.scale(v, c)) ==
             Subtract(s, s.points.scale(p, z'), s.points.scale(v, c'))
    ensures v == s.points.scale(p, (z - z') * s.field.invert(c - c'))
  {
    var f, m, i := s.field, s.points, s.field.invert(c - c');
    MoveAcross(s, p, v, c, z, c', z');
    Point(s, p);
    Point(s, v);
    Scaled(f, m, p, z - z', i);
    Scaled(f, m, v, c - c', i);
    Fields.NotCongruent(f, c, c');
    Inverse(f, c - c');
    Scaled(f, m, v, (c - c') * i, 1);
  }

  /**
   Special soundness: two accepting answers for one pair of commitments and different
   challenges reveal a single scalar behind both the public key and the blinded output.
   */
  lemma ProofSound<P(!new)>(s: Suite<P>, u: P, v: P, w: P, proof: Proof, proof': Proof)
    requires IsSuite(s) && !Same(s.field, proof.c, proof'.c)
    requires FirstCommitment(s, v, proof) == FirstCommitment(s, v, proof')
    requires SecondCommitment(s, u, w, proof) == SecondCommitment(s, u, w, proof')
    ensures exists x :: EqualLogs(s, u, v, w, x)
  {
    var x := (proof.betaZ - proof'.betaZ) * s.field.invert(proof.c - proof'.c);
    CommitmentForms(s, u, w, proof);
    CommitmentForms(s, u, w, proof');
    ExtractLog(s, s.base, v, proof.c, proof.betaZ, proof'.c, proof'.betaZ);
    ExtractLog(s, u, w, proof.c, proof.betaZ, proof'.c, proof'.betaZ);
    assert EqualLogs(s, u, v, w, x);
  }

  // ---- the challenge ----

  /** The five compressed points a challenge is about. */
  datatype Transcript = Transcript(u: Bytes, v: Bytes, w: Bytes, vt: Bytes, wt: Bytes)

  ghost predicate Compressed(t: Transcript) {
    |t.u| == |t.v| == |t.w| == |t.vt| == |t.wt| == 32
  }

  function ChallengeOf<P>(s: Suite<P>, t: Transcript): int {
    HashToChallenge(s, t.u, t.v, t.w, t.vt, t.wt)
  }

  /** The hash that tells one message from all others. */
  function Only(message: Bytes): Bytes -> int {
    (m: Bytes) => if m == message then 1 else 0
  }

  lemma FiveParts(p: Bytes, s: Transcript, t: Transcript)
    requires Compressed(s) && Compressed(t)
    requires p + s.u + s.v + s.w + s.vt + s.wt == p + t.u + t.v + t.w + t.vt + t.wt
    ensures s == t
  {
    SuffixSplit(p + s.u + s.v + s.w + s.vt, p + t.u + t.v + t.w + t.vt, s.wt, t.wt);
    SuffixSplit(p + s.u + s.v + s.w, p + t.u + t.v + t.w, s.vt, t.vt);
    SuffixSplit(p + s.u + s.v, p + t.u + t.v, s.w, t.w);
    SuffixSplit(p + s.u, p + t.u, s.v, t.v);
    SuffixSplit(p, p, s.u, t.u);
  }

  /** The challenge binds all five points: some hash function tells any two transcripts apart. */
  lemma ChallengeBinds<P>(s: Suite<P>, a: Transcript, b: Transcript) returns (h: Bytes -> int)
    requires Compressed(a) && Compressed(b) && a != b
    ensures ChallengeOf(s.(hashToScalar := h), a) != ChallengeOf(s.(hashToScalar := h), b)
  {
    var prefix := Ascii("Juicebox_DLEQ_2023_1;");
    h := Only(prefix + a.u + a.v + a.w + a.vt + a.wt);
    if prefix + a.u + a.v + a.w + a.vt + a.wt == prefix + b.u + b.v + b.w + b.vt + b.wt {
      FiveParts(prefix, a, b);
    }
  }

  /** What a proof is about, once its public key decodes. */
  function TranscriptOf<P>(s: Suite<P>, u: P, w: P, publicKey: Bytes, v: P, proof: Proof): Transcript {
    Transcript(s.compress(u), publicKey, s.compress(w), s.compress(FirstCommitment(s, v, proof)),
               s.compress(SecondCommitment(s, u, w, proof)))
  }

  lemma AcceptedChallenge<P>(s: Suite<P>, u: P, w: P, publicKey: Bytes, proof: Proof)
    ensures VerifyProof(s, u, w, publicKey, proof).Ok? <==>
      s.decompress(publicKey).Some? &&
      ChallengeOf(s, TranscriptOf(s, u, w, publicKey, s.decompress(publicKey).value, proof)) == proof.c
  {
  }

  /** The message a transcript is hashed to. */
  function Hashed(t: Transcript): Bytes {
    Ascii("Juicebox_DLEQ_2023_1;") + t.u + t.v + t.w + t.vt + t.wt
  }

  /**
   Soundness of accepted proofs under two hash functions that differ at a single message: if each
   of two proofs is accepted under one of them only, a single scalar is behind both pairs.
   */
  lemma ForkedSound<P(!new)>(s: Suite<P>, h: Bytes -> int, message: Bytes, u: P, w: P, publicKey: Bytes,
                             proof: Proof, proof': Proof)
    requires IsSuite(s) && IsSuite(s.(hashToScalar := h)) && |publicKey| == 32
    requires forall m :: m != message ==> s.hashToScalar(m) == h(m)
    requires VerifyProof(s, u, w, publicKey, proof).Ok?
    requires VerifyProof(s.(hashToScalar := h), u, w, publicKey, proof).Err?
    requires VerifyProof(s.(hashToScalar := h), u, w, publicKey, proof').Ok?
    requires VerifyProof(s, u, w, publicKey, proof').Err?
    ensures s.decompress(publicKey).Some?
    ensures exists x :: EqualLogs(s, u, s.decompress(publicKey).value, w, x)
  {
    var s' := s.(hashToScalar := h);
    AcceptedChallenge(s, u, w, publicKey, proof);
    AcceptedChallenge(s', u, w, publicKey, proof);
    AcceptedChallenge(s, u, w, publicKey, proof');
    AcceptedChallenge(s', u, w, publicKey, proof');
    hide VerifyProof, FirstCommitment, SecondCommitment;
    var v := s.decompress(publicKey).value;
    SameCommitments(s, s', u, w, v, proof);
    SameCommitments(s, s', u, w, v, proof');
    var a, b := TranscriptOf(s, u, w, publicKey, v, proof), TranscriptOf(s, u, w, publicKey, v, proof');
    assert Hashed(a) == message && Hashed(b) == message;
    ForkedChallenges(s, h, message, proof.c, proof'.c);
    FirstAndSecond(s, u, w, publicKey, v, proof, proof');
    ProofSound(s, u, v, w, proof, proof');
  }

  lemma SameCommitments<P>(s: Suite<P>, s': Suite<P>, u: P, w: P, v: P, proof: Proof)
    requires s' == s.(hashToScalar := s'.hashToScalar)
    ensures FirstCommitment(s', v, proof) == FirstCommitment(s, v, proof)
    ensures SecondCommitment(s', u, w, proof) == SecondCommitment(s, u, w, proof)
  {
  }

  lemma ForkedChallenges<P(!new)>(s: Suite<P>, h: Bytes -> int, message: Bytes, c: int, c': int)
    requires IsSuite(s) && IsSuite(s.(hashToScalar := h))
    requires s.hashToScalar(message) == c && h(message) == c' && c != c'
    ensures !Same(s.field, c, c')
  {
    assert HashToScalarLaw(s, message) && HashToScalarLaw(s.(hashToScalar := h), message);
  }

  /** One message, hence one pair of commitments. */
  lemma FirstAndSecond<P(!new)>(s: Suite<P>, u: P, w: P, publicKey: Bytes, v: P, proof: Proof, proof': Proof)
    requires IsSuite(s) && |publicKey| == 32
    requires Hashed(TranscriptOf(s, u, w, publicKey, v, proof)) == Hashed(TranscriptOf(s, u, w, publicKey, v, proof'))
    ensures FirstCommitment(s, v, proof) == FirstCommitment(s, v, proof')
    ensures SecondCommitment(s, u, w, proof) == SecondCommitment(s, u, w, proof')
  {
    hide FirstCommitment, SecondCommitment;
    var a, b := TranscriptOf(s, u, w, publicKey, v, proof), TranscriptOf(s, u, w, publicKey, v, proof');
    Point(s, u);
    Point(s, w);
    Point(s, FirstCommitment(s, v, proof));
    Point(s, FirstCommitment(s, v, proof'));
    Point(s, SecondCommitment(s, u, w, proof));
    Point(s, SecondCommitment(s, u, w, proof'));
    FiveParts(Ascii("Juicebox_DLEQ_2023_1;"), a, b);
  }

  /** The two hashes of the protocol never see the same message: their labels differ. */
  lemma DomainsApart<P>(s: Suite<P>, input: Bytes, result: P, t: Transcript)
    ensures Ascii("Juicebox_OPRF_2023_1;") + input + s.compress(result) != Hashed(t)
  {
    var a, b := Ascii("Juicebox_OPRF_2023_1;") + input + s.compress(result), Hashed(t);
    assert a[9] == 'O' as int && b[9] == 'D' as int;
  }

  /** With the public key of `key`, equal logarithms mean that `w` is the evaluation under `key`. */
  lemma EqualLogsIsEvaluation<P(!new)>(s: Suite<P>, u: P, w: P, key: int, x: int)
    requires IsSuite(s)
    requires EqualLogs(s, u, s.points.scale(s.base, key), w, x)
    ensures w == BlindEvaluate(s, key, u)
  {
    Point(s, s.base);
    Point(s, u);
    ScaleInjective(s.field, s.points, s.base, key, x);
    Scaled(s.field, s.points, u, key, x);
  }
}
