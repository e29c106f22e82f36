/**
 What secret sharing promises: enough shares give the secret back, one share fewer says
 nothing about it, and recombination respects everything the protocol builds on it
 (reordering, sums, and multiplication of a point by shared scalars).
 */
module Threshold {
  import opened Wrappers
  import opened Fields
  import opened Spaces
  import opened Lagrange
  import opened Shamir
  import opened Shuffles

  /** Every share lies on the polynomial of this secret and these coefficients. */
  ghost predicate FromPolynomial<T>(m: Space<T>, secret: T, cs: seq<T>, shares: seq<Share<T>>) {
    forall i :: 0 <= i < |shares| ==> shares[i] == ShareAt(m, secret, cs, shares[i].index)
  }

  lemma CreatedFromPolynomial<T>(m: Space<T>, secret: T, threshold: U32, count: U32, cs: seq<T>, shares: seq<Share<T>>)
    requires 0 < threshold <= count && |cs| == threshold - 1
    requires forall i :: 0 <= i < |shares| ==> shares[i] in CreateShares(m, secret, threshold, count, cs)
    ensures FromPolynomial(m, secret, cs, shares)
  {
  }

  lemma FromPolynomialIn<T(!new)>(f: Field, m: Space<T>, secret: T, cs: seq<T>, shares: seq<Share<T>>)
    requires IsSpace(f, m) && m.has(secret) && AllIn(m, cs)
    requires FromPolynomial(m, secret, cs, shares)
    ensures SharesIn(m, shares)
  {
    forall i | 0 <= i < |shares| ensures m.has(shares[i].secret) {
      HornerIn(f, m, cs, shares[i].index);
      Sum(f, m, Horner(m, cs, shares[i].index), secret);
    }
  }

  /** Splits the combination of shares into that of the secret and that of the masking polynomial. */
  lemma CombineShares<T(!new)>(f: Field, m: Space<T>, secret: T, cs: seq<T>, shares: seq<Share<T>>)
    requires IsSpace(f, m) && m.has(secret) && AllIn(m, cs) && shares != []
    requires DistinctIndices(shares) && FromPolynomial(m, secret, cs, shares)
    ensures var xs := Points(shares);
            Combine(m, Weights(f, xs), Values(shares)) ==
            m.add(Combine(m, Times(Weights(f, xs), Powers(xs, 0)), HornerAll(m, cs, xs)), secret)
  {
    hide Weight;
    var xs, n := Points(shares), |shares|;
    var ws := Weights(f, xs);
    var masks := HornerAll(m, cs, xs);
    IndicesApart(f, shares);
    HornerAllIn(f, m, cs, xs);
    assert Values(shares) == AddAll(m, masks, Constant(secret, n));
    CombineAdd(f, m, ws, masks, Constant(secret, n));
    assert Times(ws, Powers(xs, 0)) == ws;
    CombineConstant(f, m, ws, Powers(xs, 0), secret);
    Moments(f, xs, 0);
    Scaled(f, m, secret, Moment(f, xs, 0), 1);
  }

  /**
   Any list of at least `threshold` shares with different indices, all created from one
   secret, gives back that secret.
   */
  lemma RecoverCreated<T(!new)>(f: Field, m: Space<T>, secret: T, cs: seq<T>, shares: seq<Share<T>>)
    requires IsSpace(f, m) && m.has(secret) && AllIn(m, cs)
    requires DistinctIndices(shares) && FromPolynomial(m, secret, cs, shares) && |shares| > |cs|
    ensures RecoverSecret(f, m, shares) == Ok(secret)
  {
    hide Weights, FromPolynomial, RecoverSecret;
    var xs := Points(shares);
    RecoverRefusesDuplicates(f, m, shares);
    IndicesApart(f, shares);
    CombineShares(f, m, secret, cs, shares);
    CombineLow(f, m, cs, xs, 0);
    Sum(f, m, secret, m.zero);
  }

  lemma ShamirCorrectness<T(!new)>(f: Field, m: Space<T>, secret: T, threshold: U32, count: U32, cs: seq<T>,
                                   shares: seq<Share<T>>)
    requires IsSpace(f, m) && m.has(secret) && AllIn(m, cs)
    requires 0 < threshold <= count && |cs| == threshold - 1
    requires forall i :: 0 <= i < |shares| ==> shares[i] in CreateShares(m, secret, threshold, count, cs)
    requires DistinctIndices(shares) && |shares| >= threshold
    ensures RecoverSecret(f, m, shares) == Ok(secret)
  {
    CreatedFromPolynomial(m, secret, threshold, count, cs, shares);
    RecoverCreated(f, m, secret, cs, shares);
  }

  lemma SignedProductNonZero(f: Field, xs: seq<int>)
    requires IsField(f)
    ensures Same(f, SignedProduct(xs), 0) <==> exists i :: 0 <= i < |xs| && Same(f, xs[i], 0)
  {
    ProdNonZero(f, xs);
    DifferenceZero(f, 0, Prod(xs));
    assert 0 - Prod(xs) == -Prod(xs);
  }

  lemma NonZeroPoints<T>(f: Field, shares: seq<Share<T>>)
    requires IsField(f)
    requires forall i :: 0 <= i < |shares| ==> shares[i].index != 0
    ensures !Same(f, SignedProduct(Points(shares)), 0)
  {
    SignedProductNonZero(f, Points(shares));
    SameReduced(f, 0);
    forall i | 0 <= i < |shares| ensures !Same(f, Points(shares)[i], 0) {
      assert ReduceLaw(f, shares[i].index);
    }
  }

  /**
   One share below the threshold: the result is off by a known non-zero multiple of the first
   random coefficient, so it is the secret exactly when that coefficient is zero.
   */
  lemma BelowThreshold<T(!new)>(f: Field, m: Space<T>, secret: T, cs: seq<T>, shares: seq<Share<T>>)
    requires IsSpace(f, m) && m.has(secret) && AllIn(m, cs)
    requires DistinctIndices(shares) && FromPolynomial(m, secret, cs, shares)
    requires |shares| == |cs| > 0
    requires forall i :: 0 <= i < |shares| ==> shares[i].index != 0
    ensures RecoverSecret(f, m, shares) ==
            Ok(m.add(m.scale(cs[0], SignedProduct(Points(shares))), secret))
    ensures RecoverSecret(f, m, shares) == Ok(secret) <==> cs[0] == m.zero
  {
    hide Weights, FromPolynomial, RecoverSecret, SignedProduct;
    var xs := Points(shares);
    var p := SignedProduct(xs);
    RecoverRefusesDuplicates(f, m, shares);
    IndicesApart(f, shares);
    CombineShares(f, m, secret, cs, shares);
    CombineTop(f, m, cs, xs, 0);
    NonZeroPoints(f, shares);
    Scaled(f, m, cs[0], p, 0);
    ScaleZero(f, m, p);
    Sum(f, m, secret, m.zero);
    Sum(f, m, secret, m.scale(cs[0], p));
    if m.add(m.scale(cs[0], p), secret) == secret {
      CancelAdd(f, m, secret, m.scale(cs[0], p), m.zero);
      CancelScale(f, m, cs[0], m.zero, p);
    }
  }

  // ---- interpolation ----

  /** A polynomial through the given points is determined by its leading coefficient and the rest. */
  lemma {:induction false} HornerFirst<T(!new)>(f: Field, m: Space<T>, c: T, cs: seq<T>, x: int)
    requires IsSpace(f, m) && m.has(c) && AllIn(m, cs)
    ensures Horner(m, [c] + cs, x) == m.add(m.scale(c, Pow(x, |cs| + 1)), Horner(m, cs, x))
  {
    var n := |cs|;
    if n == 0 {
      assert [c] + cs == [c] && [c][..0] == [];
      Sum(f, m, c, m.zero);
      Scaled(f, m, c, x, 0);
      Sum(f, m, m.scale(c, x), m.zero);
      assert Pow(x, 1) == x * Pow(x, 0);
    } else {
      var cs', d, p := cs[..n - 1], cs[n - 1], Pow(x, n);
      assert ([c] + cs)[..n] == [c] + cs';
      HornerFirst(f, m, c, cs', x);
      HornerIn(f, m, cs', x);
      Scaled(f, m, c, p, x);
      Assoc(f, m, m.scale(c, p), Horner(m, cs', x), d);
      Sum(f, m, Horner(m, cs', x), d);
      Distribute(f, m, m.scale(c, p), m.add(Horner(m, cs', x), d), x);
      assert p * x == Pow(x, n + 1);
    }
  }

  /** The coefficients, highest first, of the polynomial x * P(x) taking the given values. */
  function Fit<T>(f: Field, m: Space<T>, xs: seq<int>, vs: seq<T>): (cs: seq<T>)
    requires |xs| == |vs|
    ensures |cs| == |xs|
    decreases |xs|
  {
    var n := |xs|;
    if n == 0 then []
    else
      var c := Leading(f, m, xs, vs);
      [c] + Fit(f, m, xs[..n - 1], Without(m, c, xs, vs)[..n - 1])
  }

  function Leading<T>(f: Field, m: Space<T>, xs: seq<int>, vs: seq<T>): T
    requires |xs| == |vs|
  {
    m.scale(Combine(m, Weights(f, xs), vs), f.invert(SignedProduct(xs)))
  }

  /** The values that remain once the leading term is taken away. */
  function Without<T>(m: Space<T>, c: T, xs: seq<int>, vs: seq<T>): (r: seq<T>)
    requires |xs| == |vs|
    ensures |r| == |xs|
  {
    AddAll(m, vs, Multiples(m, m.scale(c, -1), Powers(xs, |xs|)))
  }

  lemma WithoutIn<T(!new)>(f: Field, m: Space<T>, c: T, xs: seq<int>, vs: seq<T>)
    requires IsSpace(f, m) && |xs| == |vs| && AllIn(m, vs) && m.has(c)
    ensures AllIn(m, Without(m, c, xs, vs))
    ensures AllIn(m, Multiples(m, m.scale(c, -1), Powers(xs, |xs|)))
    ensures forall i :: 0 <= i < |xs| ==>
      m.add(m.scale(c, Pow(xs[i], |xs|)), Without(m, c, xs, vs)[i]) == vs[i]
  {
    Scaled(f, m, c, -1, 0);
    forall i | 0 <= i < |xs|
      ensures m.has(Without(m, c, xs, vs)[i])
      ensures m.has(m.scale(m.scale(c, -1), Pow(xs[i], |xs|)))
      ensures m.add(m.scale(c, Pow(xs[i], |xs|)), Without(m, c, xs, vs)[i]) == vs[i]
    {
      var p := Pow(xs[i], |xs|);
      Scaled(f, m, c, -1, p);
      Scaled(f, m, c, p, -p);
      Scaled(f, m, c, -p, p);
      assert -1 * p == -p;
      var a, b, v := m.scale(c, p), m.scale(c, -p), vs[i];
      Sum(f, m, v, b);
      Assoc(f, m, a, b, v);
      Sum(f, m, v, m.zero);
    }
  }

  /** Once the leading term is taken away, the values combine to zero. */
  lemma WithoutCombines<T(!new)>(f: Field, m: Space<T>, xs: seq<int>, vs: seq<T>)
    requires IsSpace(f, m) && |xs| == |vs| > 0 && AllIn(m, vs)
    requires Distinct(f, xs) && !Same(f, SignedProduct(xs), 0)
    ensures Combine(m, Weights(f, xs), Without(m, Leading(f, m, xs, vs), xs, vs)) == m.zero
    ensures m.has(Leading(f, m, xs, vs))
  {
    hide Weights, SignedProduct, Powers;
    var ws, p, n := Weights(f, xs), SignedProduct(xs), |xs|;
    var total := Combine(m, ws, vs);
    var c := Leading(f, m, xs, vs);
    CombineIn(f, m, ws, vs);
    Scaled(f, m, total, f.invert(p), -1);
    Scaled(f, m, c, -1, 0);
    WithoutIn(f, m, c, xs, vs);
    var d := m.scale(c, -1);
    CombineAdd(f, m, ws, vs, Multiples(m, d, Powers(xs, n)));
    CombineMultiples(f, m, ws, d, Powers(xs, n));
    TopMoment(f, xs);
    Scaled(f, m, d, Moment(f, xs, n), p);
    Inverse(f, p);
    var i := f.invert(p);
    Scaled(f, m, total, i * -1, p);
    SameScale(f, -1, p * i, 1);
    assert (i * -1) * p == -1 * (p * i);
    Scaled(f, m, total, (i * -1) * p, -1);
    Scaled(f, m, total, 1, -1);
  }

  /** Two columns that combine alike and agree but for the last entry agree there too. */
  lemma LastAgrees<T(!new)>(f: Field, m: Space<T>, xs: seq<int>, us: seq<T>, vs: seq<T>)
    requires IsSpace(f, m) && |xs| == |us| == |vs| > 0 && AllIn(m, us) && AllIn(m, vs)
    requires Distinct(f, xs) && !Same(f, SignedProduct(xs), 0)
    requires Combine(m, Weights(f, xs), us) == Combine(m, Weights(f, xs), vs)
    requires us[..|xs| - 1] == vs[..|xs| - 1]
    ensures us == vs
  {
    hide Weight, SignedProduct;
    var n, ws := |xs|, Weights(f, xs);
    var w, u, v := ws[n - 1], us[n - 1], vs[n - 1];
    CombineIn(f, m, ws[..n - 1], us[..n - 1]);
    Scaled(f, m, u, w, 0);
    Scaled(f, m, v, w, 0);
    CancelAdd(f, m, Combine(m, ws[..n - 1], us[..n - 1]), m.scale(u, w), m.scale(v, w));
    WeightNonZero(f, xs, n - 1);
    CancelScale(f, m, u, v, w);
    assert us == us[..n - 1] + [u] && vs == vs[..n - 1] + [v];
  }

  lemma WeightNonZero(f: Field, xs: seq<int>, i: nat)
    requires IsField(f) && i < |xs| && Distinct(f, xs) && !Same(f, SignedProduct(xs), 0)
    ensures !Same(f, Weight(f, xs, i), 0)
  {
    hide Weight, Bottom, SignedProduct;
    BottomNonZero(f, xs, i);
    WeightIs(f, xs, i);
    SignedProductNonZero(f, xs);
    OthersMember(xs, i);
    ProdNonZero(f, Others(xs, i));
    var b := Bottom(xs, i);
    Inverse(f, b);
    SameReduced(f, 0);
    ProductZero(f, b, f.invert(b));
    ProductZero(f, Top(xs, i), f.invert(b));
  }

  lemma SignedProductInit(f: Field, xs: seq<int>)
    requires IsField(f) && xs != [] && Distinct(f, xs) && !Same(f, SignedProduct(xs), 0)
    ensures Distinct(f, xs[..|xs| - 1]) && !Same(f, SignedProduct(xs[..|xs| - 1]), 0)
  {
    var init := xs[..|xs| - 1];
    SignedProductNonZero(f, xs);
    SignedProductNonZero(f, init);
    assert forall i :: 0 <= i < |init| ==> init[i] == xs[i];
  }

  /** Interpolation: the fitted coefficients take the given values at the given points. */
  lemma {:induction false} FitCorrect<T(!new)>(f: Field, m: Space<T>, xs: seq<int>, vs: seq<T>)
    requires IsSpace(f, m) && |xs| == |vs| && AllIn(m, vs)
    requires Distinct(f, xs) && !Same(f, SignedProduct(xs), 0)
    ensures AllIn(m, Fit(f, m, xs, vs))
    ensures HornerAll(m, Fit(f, m, xs, vs), xs) == vs
    decreases |xs|
  {
    hide Weights, SignedProduct, Leading, Without;
    var n := |xs|;
    if n > 0 {
      var c := Leading(f, m, xs, vs);
      var rest, init := Without(m, c, xs, vs), xs[..n - 1];
      var cs := Fit(f, m, init, rest[..n - 1]);
      WithoutCombines(f, m, xs, vs);
      WithoutIn(f, m, c, xs, vs);
      SignedProductInit(f, xs);
      FitCorrect(f, m, init, rest[..n - 1]);
      var us := HornerAll(m, cs, xs);
      assert us[..n - 1] == HornerAll(m, cs, init);
      HornerAllIn(f, m, cs, xs);
      assert Times(Weights(f, xs), Powers(xs, 0)) == Weights(f, xs);
      CombineLow(f, m, cs, xs, 0);
      LastAgrees(f, m, xs, us, rest);
      forall i | 0 <= i < n ensures Horner(m, [c] + cs, xs[i]) == vs[i] {
        HornerFirst(f, m, c, cs, xs[i]);
        assert us[i] == rest[i];
      }
    }
  }

  /** Coefficients that agree at as many points as there are of them are equal. */
  lemma {:induction false} FitUnique<T(!new)>(f: Field, m: Space<T>, xs: seq<int>, cs: seq<T>, ds: seq<T>)
    requires IsSpace(f, m) && |xs| == |cs| == |ds| && AllIn(m, cs) && AllIn(m, ds)
    requires Distinct(f, xs) && !Same(f, SignedProduct(xs), 0)
    requires HornerAll(m, cs, xs) == HornerAll(m, ds, xs)
    ensures cs == ds
    decreases |xs|
  {
    hide Weights, SignedProduct;
    var n := |xs|;
    if n > 0 {
      CombineTop(f, m, cs, xs, 0);
      CombineTop(f, m, ds, xs, 0);
      CancelScale(f, m, cs[0], ds[0], SignedProduct(xs));
      var c, cs', ds', init := cs[0], cs[1..], ds[1..], xs[..n - 1];
      assert cs == [c] + cs' && ds == [c] + ds';
      forall i | 0 <= i < n - 1 ensures Horner(m, cs', init[i]) == Horner(m, ds', init[i]) {
        var x := xs[i];
        assert HornerAll(m, cs, xs)[i] == HornerAll(m, ds, xs)[i];
        HornerFirst(f, m, c, cs', x);
        HornerFirst(f, m, c, ds', x);
        HornerIn(f, m, cs', x);
        HornerIn(f, m, ds', x);
        Scaled(f, m, c, Pow(x, n), 0);
        CancelAdd(f, m, m.scale(c, Pow(x, n)), Horner(m, cs', x), Horner(m, ds', x));
      }
      SignedProductInit(f, xs);
      assert HornerAll(m, cs', init) == HornerAll(m, ds', init);
      FitUnique(f, m, init, cs', ds');
    }
  }

  // ---- one share fewer than the threshold says nothing ----

  /** These coefficients turn this secret into shares with the given indices and values. */
  ghost predicate Explains<T>(m: Space<T>, cs: seq<T>, secret: T, shares: seq<Share<T>>) {
    |cs| == |shares| && AllIn(m, cs) && FromPolynomial(m, secret, cs, shares)
  }

  /** What the masking polynomial must be worth at each share. */
  function Masks<T>(m: Space<T>, secret: T, shares: seq<Share<T>>): (vs: seq<T>)
    ensures |vs| == |shares|
  {
    seq(|shares|, i requires 0 <= i < |shares| => m.add(shares[i].secret, m.scale(secret, -1)))
  }

  lemma MaskedShare<T(!new)>(f: Field, m: Space<T>, secret: T, value: T, mask: T)
    requires IsSpace(f, m) && m.has(secret) && m.has(value) && m.has(mask)
    ensures m.has(m.add(value, m.scale(secret, -1)))
    ensures value == m.add(mask, secret) <==> mask == m.add(value, m.scale(secret, -1))
  {
    var n := m.scale(secret, -1);
    Scaled(f, m, secret, -1, 1);
    Scaled(f, m, secret, 1, -1);
    Assoc(f, m, mask, secret, n);
    Assoc(f, m, value, n, secret);
    Sum(f, m, mask, m.zero);
    Sum(f, m, value, m.zero);
    Sum(f, m, value, n);
  }

  lemma ExplainsIsHorner<T(!new)>(f: Field, m: Space<T>, cs: seq<T>, secret: T, shares: seq<Share<T>>)
    requires IsSpace(f, m) && m.has(secret) && SharesIn(m, shares) && AllIn(m, cs)
    ensures AllIn(m, Masks(m, secret, shares))
    ensures FromPolynomial(m, secret, cs, shares) <==>
            HornerAll(m, cs, Points(shares)) == Masks(m, secret, shares)
  {
    forall i | 0 <= i < |shares|
      ensures m.has(Masks(m, secret, shares)[i])
      ensures shares[i] == ShareAt(m, secret, cs, shares[i].index) <==>
              HornerAll(m, cs, Points(shares))[i] == Masks(m, secret, shares)[i]
    {
      HornerIn(f, m, cs, shares[i].index);
      MaskedShare(f, m, secret, shares[i].secret, Horner(m, cs, shares[i].index));
    }
  }

  /**
   Whatever the values of threshold - 1 shares, and whatever secret one has in mind, exactly
   one list of random coefficients explains them.
   */
  lemma ThresholdIndependence<T(!new)>(f: Field, m: Space<T>, secret: T, shares: seq<Share<T>>)
    requires IsSpace(f, m) && m.has(secret) && SharesIn(m, shares)
    requires DistinctIndices(shares) && forall i :: 0 <= i < |shares| ==> shares[i].index != 0
    ensures exists cs :: Explains(m, cs, secret, shares)
    ensures forall cs, ds :: Explains(m, cs, secret, shares) && Explains(m, ds, secret, shares) ==> cs == ds
  {
    hide FromPolynomial, SignedProduct, HornerAll, Masks;
    var xs, vs := Points(shares), Masks(m, secret, shares);
    IndicesApart(f, shares);
    NonZeroPoints(f, shares);
    ExplainsIsHorner(f, m, [], secret, shares);
    FitCorrect(f, m, xs, vs);
    ExplainsIsHorner(f, m, Fit(f, m, xs, vs), secret, shares);
    assert Explains(m, Fit(f, m, xs, vs), secret, shares);
    forall cs, ds | Explains(m, cs, secret, shares) && Explains(m, ds, secret, shares) ensures cs == ds {
      ExplainsIsHorner(f, m, cs, secret, shares);
      ExplainsIsHorner(f, m, ds, secret, shares);
      FitUnique(f, m, xs, cs, ds);
    }
  }

  // ---- recombination and order ----

  /** What recovery returns always lies on the polynomial through all the shares given. */
  lemma RecoveredExplains<T(!new)>(f: Field, m: Space<T>, shares: seq<Share<T>>) returns (secret: T, cs: seq<T>)
    requires IsSpace(f, m) && SharesIn(m, shares) && shares != []
    requires DistinctIndices(shares) && forall i :: 0 <= i < |shares| ==> shares[i].index != 0
    ensures RecoverSecret(f, m, shares) == Ok(secret) && m.has(secret)
    ensures |cs| == |shares| - 1 && AllIn(m, cs) && FromPolynomial(m, secret, cs, shares)
  {
    hide FromPolynomial, SignedProduct, Weights, RecoverSecret;
    var n, xs := |shares|, Points(shares);
    var ws, masks := Weights(f, xs), Values(shares);
    RecoverRefusesDuplicates(f, m, shares);
    CombineIn(f, m, ws, Values(shares));
    secret := RecoverSecret(f, m, shares).value;
    IndicesApart(f, shares);
    NonZeroPoints(f, shares);
    SignedProductInit(f, xs);
    ExplainsIsHorner(f, m, [], secret, shares);
    var vs := Masks(m, secret, shares);
    cs := Fit(f, m, xs[..n - 1], vs[..n - 1]);
    FitCorrect(f, m, xs[..n - 1], vs[..n - 1]);
    var us := HornerAll(m, cs, xs);
    assert us[..n - 1] == HornerAll(m, cs, xs[..n - 1]);
    HornerAllIn(f, m, cs, xs);
    assert Times(ws, Powers(xs, 0)) == ws;
    CombineLow(f, m, cs, xs, 0);
    MasksSum(f, m, secret, shares);
    Scaled(f, m, secret, 1, -1);
    LastAgrees(f, m, xs, us, vs);
    ExplainsIsHorner(f, m, cs, secret, shares);
  }

  lemma MasksSum<T(!new)>(f: Field, m: Space<T>, secret: T, shares: seq<Share<T>>)
    requires IsSpace(f, m) && SharesIn(m, shares) && shares != [] && m.has(secret)
    requires DistinctIndices(shares)
    ensures Combine(m, Weights(f, Points(shares)), Masks(m, secret, shares)) ==
            m.add(Combine(m, Weights(f, Points(shares)), Values(shares)), m.scale(secret, -1))
  {
    hide Weight;
    var n, xs, d := |shares|, Points(shares), m.scale(secret, -1);
    var ws := Weights(f, xs);
    Scaled(f, m, secret, -1, 0);
    assert Masks(m, secret, shares) == AddAll(m, Values(shares), Constant(d, n));
    CombineAdd(f, m, ws, Values(shares), Constant(d, n));
    assert Times(ws, Powers(xs, 0)) == ws;
    CombineConstant(f, m, ws, Powers(xs, 0), d);
    IndicesApart(f, shares);
    Moments(f, xs, 0);
    Scaled(f, m, d, Moment(f, xs, 0), 1);
  }

  /** A share with index zero is the secret itself, and recovery returns it. */
  lemma RecoverAtZero<T(!new)>(f: Field, m: Space<T>, shares: seq<Share<T>>, z: nat)
    requires IsSpace(f, m) && SharesIn(m, shares) && DistinctIndices(shares)
    requires z < |shares| && shares[z].index == 0
    ensures RecoverSecret(f, m, shares) == Ok(shares[z].secret)
  {
    hide Weight, RecoverSecret, Masks;
    var secret, xs := shares[z].secret, Points(shares);
    var ws, vs := Weights(f, xs), Masks(m, secret, shares);
    RecoverRefusesDuplicates(f, m, shares);
    IndicesApart(f, shares);
    var total := Combine(m, ws, Values(shares));
    CombineIn(f, m, ws, Values(shares));
    MasksSum(f, m, secret, shares);
    forall i | 0 <= i < |xs| ensures Same(f, ws[i], 0) || vs[i] == m.zero {
      if i == z {
        MaskOfSecret(f, m, secret, shares, z);
      } else {
        WeightVanishes(f, xs, i, z);
      }
    }
    ExplainsIsHorner(f, m, [], secret, shares);
    CombineVanishes(f, m, ws, vs);
    Scaled(f, m, secret, -1, 1);
    Scaled(f, m, secret, 1, -1);
    MaskedShare(f, m, secret, total, m.zero);
    Sum(f, m, secret, m.zero);
  }

  lemma MaskOfSecret<T(!new)>(f: Field, m: Space<T>, secret: T, shares: seq<Share<T>>, z: nat)
    requires IsSpace(f, m) && m.has(secret) && z < |shares| && shares[z].secret == secret
    ensures Masks(m, secret, shares)[z] == m.zero
  {
    Scaled(f, m, secret, 1, -1);
  }

  lemma WeightVanishes(f: Field, xs: seq<int>, i: nat, z: nat)
    requires IsField(f) && i < |xs| && z < |xs| && i != z && xs[z] == 0
    ensures Same(f, Weight(f, xs, i), 0)
  {
    hide Weight, Bottom;
    WeightIs(f, xs, i);
    OthersMember(xs, i);
    assert Others(xs, i)[if z < i then z else z - 1] == 0;
    ProdNonZero(f, Others(xs, i));
    ProductZero(f, Top(xs, i), f.invert(Bottom(xs, i)));
  }

  lemma {:induction false} CombineVanishes<T(!new)>(f: Field, m: Space<T>, ws: seq<int>, vs: seq<T>)
    requires IsSpace(f, m) && |ws| == |vs| && AllIn(m, vs)
    requires forall i :: 0 <= i < |ws| ==> Same(f, ws[i], 0) || vs[i] == m.zero
    ensures Combine(m, ws, vs) == m.zero
  {
    var n := |ws|;
    if n > 0 {
      CombineVanishes(f, m, ws[..n - 1], vs[..n - 1]);
      Scaled(f, m, vs[n - 1], ws[n - 1], 0);
      ScaleZero(f, m, ws[n - 1]);
      Sum(f, m, m.zero, m.zero);
    }
  }

  lemma ShuffledPolynomial<T>(m: Space<T>, secret: T, cs: seq<T>, shares: seq<Share<T>>, shuffled: seq<Share<T>>)
    requires FromPolynomial(m, secret, cs, shares) && multiset(shares) == multiset(shuffled)
    ensures FromPolynomial(m, secret, cs, shuffled)
  {
    SameMembers(shares, shuffled);
    forall i | 0 <= i < |shuffled| ensures shuffled[i] == ShareAt(m, secret, cs, shuffled[i].index) {
      assert shuffled[i] in shares;
    }
  }

  lemma AnyOrderAtZero<T(!new)>(f: Field, m: Space<T>, shares: seq<Share<T>>, shuffled: seq<Share<T>>, z: nat)
    requires IsSpace(f, m) && SharesIn(m, shares) && DistinctIndices(shares)
    requires multiset(shares) == multiset(shuffled)
    requires z < |shares| && shares[z].index == 0
    ensures RecoverSecret(f, m, shuffled) == RecoverSecret(f, m, shares)
  {
    hide RecoverSecret;
    SameMembers(shares, shuffled);
    ShuffledDistinct(shares, shuffled);
    assert shares[z] in shuffled;
    var y :| 0 <= y < |shuffled| && shuffled[y] == shares[z];
    forall i | 0 <= i < |shuffled| ensures m.has(shuffled[i].secret) {
      assert shuffled[i] in shares;
    }
    RecoverAtZero(f, m, shares, z);
    RecoverAtZero(f, m, shuffled, y);
  }

  /** The order of the shares never matters, for results and refusals alike. */
  lemma RecoverAnyOrder<T(!new)>(f: Field, m: Space<T>, shares: seq<Share<T>>, shuffled: seq<Share<T>>)
    requires IsSpace(f, m) && SharesIn(m, shares)
    requires multiset(shares) == multiset(shuffled)
    ensures RecoverSecret(f, m, shuffled) == RecoverSecret(f, m, shares)
  {
    hide RecoverSecret, DistinctIndices, FromPolynomial, IsSpace;
    ShuffledDistinct(shares, shuffled);
    SameMembers(shares, shuffled);
    if !DistinctIndices(shares) {
      BothRefuse(f, m, shares, shuffled);
    } else if shares == [] {
      assert shuffled == [];
    } else if z :| 0 <= z < |shares| && shares[z].index == 0 {
      AnyOrderAtZero(f, m, shares, shuffled, z);
    } else {
      var secret, cs := RecoveredExplains(f, m, shares);
      ShuffledPolynomial(m, secret, cs, shares, shuffled);
      RecoverCreated(f, m, secret, cs, shuffled);
    }
  }

  lemma BothRefuse<T(!new)>(f: Field, m: Space<T>, shares: seq<Share<T>>, shuffled: seq<Share<T>>)
    requires IsSpace(f, m) && !DistinctIndices(shares) && !DistinctIndices(shuffled)
    ensures RecoverSecret(f, m, shuffled) == RecoverSecret(f, m, shares)
  {
    RecoverRefusesDuplicates(f, m, shares);
    RecoverRefusesDuplicates(f, m, shuffled);
  }

  /** Distinctness of the indices can be read off the multiset of shares. */
  lemma ShuffledDistinct<T>(shares: seq<Share<T>>, shuffled: seq<Share<T>>)
    requires multiset(shares) == multiset(shuffled)
    ensures DistinctIndices(shares) <==> DistinctIndices(shuffled)
  {
    if DistinctIndices(shares) { DistinctAfterShuffle(shares, shuffled); }
    if DistinctIndices(shuffled) { DistinctAfterShuffle(shuffled, shares); }
  }

  lemma DistinctAfterShuffle<T>(shares: seq<Share<T>>, shuffled: seq<Share<T>>)
    requires multiset(shares) == multiset(shuffled) && DistinctIndices(shares)
    ensures DistinctIndices(shuffled)
  {
    assert Unique(shares);
    UniqueShuffle(shares, shuffled);
    SameMembers(shares, shuffled);
    forall i, j | 0 <= i < j < |shuffled| ensures shuffled[i].index != shuffled[j].index {
      assert shuffled[i] in shares && shuffled[j] in shares;
    }
  }

  // ---- recombination is linear ----

  lemma RecoverSameIndices<T>(f: Field, m: Space<T>, xs: seq<U32>, vs: seq<T>)
    requires IsField(f) && |xs| == |vs|
    ensures Points(Zip(xs, vs)) == xs && Values(Zip(xs, vs)) == vs
    ensures DistinctIndices(Zip(xs, vs)) <==> forall i, j :: 0 <= i < j < |xs| ==> xs[i] != xs[j]
  {
  }

  function Zip<T>(xs: seq<U32>, vs: seq<T>): seq<Share<T>>
    requires |xs| == |vs|
  {
    seq(|xs|, i requires 0 <= i < |xs| => Share(xs[i], vs[i]))
  }

  /** Recovery of sums is the sum of the recoveries; recovery of multiples, the multiple. */
  lemma RecoverLinear<T(!new)>(f: Field, m: Space<T>, xs: seq<U32>, us: seq<T>, vs: seq<T>, k: int)
    requires IsSpace(f, m) && |xs| == |us| == |vs| && AllIn(m, us) && AllIn(m, vs)
    requires forall i, j :: 0 <= i < j < |xs| ==> xs[i] != xs[j]
    ensures var u, v := RecoverSecret(f, m, Zip(xs, us)), RecoverSecret(f, m, Zip(xs, vs));
            u.Ok? && v.Ok? &&
            RecoverSecret(f, m, Zip(xs, AddAll(m, us, vs))) == Ok(m.add(u.value, v.value)) &&
            RecoverSecret(f, m, Zip(xs, ScaleAll(m, us, Constant(k, |xs|)))) == Ok(m.scale(u.value, k))
  {
    hide Weights, RecoverSecret, Zip;
    var ws, multiples := Weights(f, xs), ScaleAll(m, us, Constant(k, |xs|));
    RecoverSameIndices(f, m, xs, us);
    RecoverSameIndices(f, m, xs, vs);
    RecoverSameIndices(f, m, xs, AddAll(m, us, vs));
    RecoverSameIndices(f, m, xs, multiples);
    RecoverRefusesDuplicates(f, m, Zip(xs, us));
    RecoverRefusesDuplicates(f, m, Zip(xs, vs));
    RecoverRefusesDuplicates(f, m, Zip(xs, AddAll(m, us, vs)));
    RecoverRefusesDuplicates(f, m, Zip(xs, multiples));
    CombineAdd(f, m, ws, us, vs);
    CombineScaled(f, m, ws, us, k);
  }

  lemma {:induction false} CombineScaled<T(!new)>(f: Field, m: Space<T>, ws: seq<int>, vs: seq<T>, k: int)
    requires IsSpace(f, m) && |ws| == |vs| && AllIn(m, vs)
    ensures Combine(m, ws, ScaleAll(m, vs, Constant(k, |vs|))) == m.scale(Combine(m, ws, vs), k)
  {
    var n := |vs|;
    if n == 0 {
      ScaleZero(f, m, k);
    } else {
      var w, v, scaled := ws[n - 1], vs[n - 1], ScaleAll(m, vs, Constant(k, n));
      assert scaled[..n - 1] == ScaleAll(m, vs[..n - 1], Constant(k, n - 1));
      CombineScaled(f, m, ws[..n - 1], vs[..n - 1], k);
      CombineIn(f, m, ws[..n - 1], vs[..n - 1]);
      Scaled(f, m, v, w, k);
      Scaled(f, m, v, k, w);
      assert w * k == k * w;
      Distribute(f, m, Combine(m, ws[..n - 1], vs[..n - 1]), m.scale(v, w), k);
    }
  }

  /**
   Recombining a point multiplied by shared scalars multiplies it by the recombined scalar:
   the property the threshold OPRF rests on.
   */
  lemma RecoverMultiples<P(!new)>(f: Field, m: Space<P>, p: P, xs: seq<U32>, ks: seq<int>)
    requires IsSpace(f, m) && m.has(p) && |xs| == |ks|
    requires AllIn(ScalarSpace(f), ks)
    requires forall i, j :: 0 <= i < j < |xs| ==> xs[i] != xs[j]
    ensures var k := RecoverSecret(f, ScalarSpace(f), Zip(xs, ks));
            k.Ok? && RecoverSecret(f, m, Zip(xs, Multiples(m, p, ks))) == Ok(m.scale(p, k.value))
  {
    hide Weights, RecoverSecret, Zip;
    var ws, scalars := Weights(f, xs), ScalarSpace(f);
    RecoverSameIndices(f, scalars, xs, ks);
    RecoverSameIndices(f, m, xs, Multiples(m, p, ks));
    RecoverRefusesDuplicates(f, scalars, Zip(xs, ks));
    RecoverRefusesDuplicates(f, m, Zip(xs, Multiples(m, p, ks)));
    CombineMultiples(f, m, ws, p, ks);
    ScalarCombine(f, ws, ks);
    Scaled(f, m, p, Dot(ws, ks), Combine(scalars, ws, ks));
  }

  lemma {:induction false} ScalarCombine(f: Field, ws: seq<int>, ks: seq<int>)
    requires IsField(f) && |ws| == |ks|
    ensures Same(f, Combine(ScalarSpace(f), ws, ks), Dot(ws, ks))
  {
    var n := |ws|;
    if n > 0 {
      ScalarCombine(f, ws[..n - 1], ks[..n - 1]);
      var a, b, c := Combine(ScalarSpace(f), ws[..n - 1], ks[..n - 1]), Dot(ws[..n - 1], ks[..n - 1]),
          ks[n - 1] * ws[n - 1];
      SameReduced(f, c);
      SameAdd(f, a, b, f.reduce(c), c);
      SameReduced(f, a + f.reduce(c));
      assert c == ws[n - 1] * ks[n - 1];
    }
  }
}
