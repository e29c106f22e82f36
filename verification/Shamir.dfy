/**
 Shamir's secret sharing, over any space of secrets.

 `CreateShares` takes the random coefficients as an argument. Everything proved here holds
 for scalars and for curve points alike.
 */
module Shamir {
  import opened Wrappers
  import opened Fields
  import opened Spaces
  import opened Lagrange

  type U32 = i: int | 0 <= i < U32_LIMIT

  datatype Share<+T> = Share(index: U32, secret: T)

  datatype RecoverSecretError = DuplicateShares

  /** `fold(S::default(), |acc, coefficient| (acc + coefficient) * index)` */
  function Horner<T>(m: Space<T>, coefficients: seq<T>, x: int): T {
    var n := |coefficients|;
    if n == 0 then m.zero
    else m.scale(m.add(Horner(m, coefficients[..n - 1], x), coefficients[n - 1]), x)
  }

  function ShareAt<T>(m: Space<T>, secret: T, coefficients: seq<T>, index: U32): Share<T> {
    Share(index, m.add(Horner(m, coefficients, index), secret))
  }

  /** The asserts of `create_shares` are its preconditions. */
  function CreateShares<T>(m: Space<T>, secret: T, threshold: U32, count: U32, coefficients: seq<T>): seq<Share<T>>
    requires 0 < threshold <= count && |coefficients| == threshold - 1
  {
    seq(count, i requires 0 <= i < count => ShareAt(m, secret, coefficients, i + 1))
  }

  function Points<T>(shares: seq<Share<T>>): (xs: seq<int>)
    ensures |xs| == |shares|
  {
    seq(|shares|, i requires 0 <= i < |shares| => shares[i].index)
  }

  function Values<T>(shares: seq<Share<T>>): (vs: seq<T>)
    ensures |vs| == |shares|
  {
    seq(|shares|, i requires 0 <= i < |shares| => shares[i].secret)
  }

  /** The term of one share: its value times its Lagrange coefficient. */
  function Term<T>(f: Field, m: Space<T>, shares: seq<Share<T>>, i: nat): Result<T, RecoverSecretError>
    requires i < |shares|
  {
    if Denominator(f, Points(shares), i) == 0 then Err(DuplicateShares)
    else Ok(m.scale(shares[i].secret, Weight(f, Points(shares), i)))
  }

  /** `Iterator::sum` over results: the first error wins. */
  function SumTerms<T>(f: Field, m: Space<T>, shares: seq<Share<T>>, n: nat): Result<T, RecoverSecretError>
    requires n <= |shares|
  {
    if n == 0 then Ok(m.zero)
    else
      match SumTerms(f, m, shares, n - 1)
      case Err(e) => Err(e)
      case Ok(acc) =>
        match Term(f, m, shares, n - 1)
        case Err(e) => Err(e)
        case Ok(t) => Ok(m.add(acc, t))
  }

  function RecoverSecret<T>(f: Field, m: Space<T>, shares: seq<Share<T>>): Result<T, RecoverSecretError> {
    SumTerms(f, m, shares, |shares|)
  }

  ghost predicate DistinctIndices<T>(shares: seq<Share<T>>) {
    forall i, j :: 0 <= i < j < |shares| ==> shares[i].index != shares[j].index
  }

  ghost predicate SharesIn<T>(m: Space<T>, shares: seq<Share<T>>) {
    forall i :: 0 <= i < |shares| ==> m.has(shares[i].secret)
  }

  // ---- what recovery computes, and when it refuses ----

  lemma IndicesApart<T>(f: Field, shares: seq<Share<T>>)
    requires IsField(f)
    ensures forall i, j :: 0 <= i < |shares| && 0 <= j < |shares| ==>
      (Same(f, Points(shares)[i], Points(shares)[j]) <==> shares[i].index == shares[j].index)
    ensures DistinctIndices(shares) <==> Distinct(f, Points(shares))
  {
    forall i | 0 <= i < |shares| ensures f.reduce(shares[i].index) == shares[i].index {
      assert ReduceLaw(f, shares[i].index);
    }
    if DistinctIndices(shares) {
      assert Distinct(f, Points(shares));
    }
    if Distinct(f, Points(shares)) {
      forall i, j | 0 <= i < j < |shares| ensures shares[i].index != shares[j].index {
        assert !Same(f, Points(shares)[i], Points(shares)[j]);
      }
    }
  }

  lemma {:induction false} ProductReduced(f: Field, xs: seq<int>)
    requires IsField(f)
    ensures f.reduce(Product(f, xs)) == Product(f, xs)
  {
    SameReduced(f, 1);
    if xs != [] {
      SameReduced(f, Product(f, xs[..|xs| - 1]) * xs[|xs| - 1]);
    }
  }

  lemma TermIsError<T>(f: Field, m: Space<T>, shares: seq<Share<T>>, i: nat)
    requires IsField(f) && i < |shares|
    ensures Term(f, m, shares, i).Err? <==>
            exists j :: 0 <= j < |shares| && j != i && shares[j].index == shares[i].index
  {
    hide Product;
    var xs := Points(shares);
    IndicesApart(f, shares);
    DenominatorZero(f, xs, i);
    SameReduced(f, 0);
    var others := Others(xs, i);
    ProductReduced(f, seq(|others|, j requires 0 <= j < |others| => f.reduce(others[j] - xs[i])));
    if j :| 0 <= j < |shares| && j != i && shares[j].index == shares[i].index {
      assert Same(f, xs[j], xs[i]);
    }
  }

  lemma {:induction false} SumTermsIs<T>(f: Field, m: Space<T>, shares: seq<Share<T>>, n: nat)
    requires n <= |shares|
    ensures SumTerms(f, m, shares, n).Err? <==> exists i :: 0 <= i < n && Term(f, m, shares, i).Err?
    ensures SumTerms(f, m, shares, n).Ok? ==>
      SumTerms(f, m, shares, n).value == Combine(m, Weights(f, Points(shares))[..n], Values(shares)[..n])
  {
    hide Weight, Denominator;
    if n > 0 {
      SumTermsIs(f, m, shares, n - 1);
      var ws, vs := Weights(f, Points(shares))[..n], Values(shares)[..n];
      assert ws[..n - 1] == Weights(f, Points(shares))[..n - 1] && vs[..n - 1] == Values(shares)[..n - 1];
    }
  }

  lemma SomeTermIsError<T>(f: Field, m: Space<T>, shares: seq<Share<T>>)
    requires IsField(f)
    ensures (exists i :: 0 <= i < |shares| && Term(f, m, shares, i).Err?) <==> !DistinctIndices(shares)
  {
    hide Term;
    forall i | 0 <= i < |shares| ensures Term(f, m, shares, i).Err? <==>
        exists j :: 0 <= j < |shares| && j != i && shares[j].index == shares[i].index {
      TermIsError(f, m, shares, i);
    }
  }

  /** Recovery refuses exactly the lists in which two shares carry the same index. */
  lemma RecoverRefusesDuplicates<T>(f: Field, m: Space<T>, shares: seq<Share<T>>)
    requires IsField(f)
    ensures RecoverSecret(f, m, shares) == Err(DuplicateShares) <==> !DistinctIndices(shares)
    ensures DistinctIndices(shares) ==>
      RecoverSecret(f, m, shares) == Ok(Combine(m, Weights(f, Points(shares)), Values(shares)))
  {
    hide Term, SumTerms, Weight;
    SumTermsIs(f, m, shares, |shares|);
    SomeTermIsError(f, m, shares);
    var ws, vs := Weights(f, Points(shares)), Values(shares);
    assert ws[..|shares|] == ws && vs[..|shares|] == vs;
    var r := RecoverSecret(f, m, shares);
    assert r.Err? ==> r.error.DuplicateShares?;
  }

  // ---- polynomials at weighted points ----

  function HornerAll<T>(m: Space<T>, cs: seq<T>, xs: seq<int>): (vs: seq<T>)
    ensures |vs| == |xs|
  {
    seq(|xs|, i requires 0 <= i < |xs| => Horner(m, cs, xs[i]))
  }

  function Constant<T>(c: T, n: nat): seq<T> {
    seq(n, i requires 0 <= i < n => c)
  }

  lemma {:induction false} HornerIn<T(!new)>(f: Field, m: Space<T>, cs: seq<T>, x: int)
    requires IsSpace(f, m) && AllIn(m, cs)
    ensures m.has(Horner(m, cs, x))
  {
    var n := |cs|;
    if n > 0 {
      HornerIn(f, m, cs[..n - 1], x);
      Sum(f, m, Horner(m, cs[..n - 1], x), cs[n - 1]);
      Scaled(f, m, m.add(Horner(m, cs[..n - 1], x), cs[n - 1]), x, 0);
    }
  }

  lemma HornerAllIn<T(!new)>(f: Field, m: Space<T>, cs: seq<T>, xs: seq<int>)
    requires IsSpace(f, m) && AllIn(m, cs)
    ensures AllIn(m, HornerAll(m, cs, xs))
  {
    forall i | 0 <= i < |xs| ensures m.has(HornerAll(m, cs, xs)[i]) {
      HornerIn(f, m, cs, xs[i]);
    }
  }

  lemma {:induction false} DotOnes(ws: seq<int>, ks: seq<int>)
    requires |ws| == |ks|
    ensures Dot(Times(ws, ks), Constant(1, |ws|)) == Dot(ws, ks)
  {
    var n := |ws|;
    if n > 0 {
      DotOnes(ws[..n - 1], ks[..n - 1]);
      assert Times(ws, ks)[..n - 1] == Times(ws[..n - 1], ks[..n - 1]);
      assert Constant(1, n)[..n - 1] == Constant(1, n - 1);
    }
  }

  /** A constant column contributes that constant times a moment. */
  lemma CombineConstant<T(!new)>(f: Field, m: Space<T>, ws: seq<int>, ks: seq<int>, c: T)
    requires IsSpace(f, m) && m.has(c) && |ws| == |ks|
    ensures Combine(m, Times(ws, ks), Constant(c, |ws|)) == m.scale(c, Dot(ws, ks))
  {
    var ones := Constant(1, |ws|);
    Scaled(f, m, c, 1, 1);
    assert Multiples(m, c, ones) == Constant(c, |ws|);
    CombineMultiples(f, m, Times(ws, ks), c, ones);
    DotOnes(ws, ks);
  }

  /** Peeling the last coefficient off a column of Horner values. */
  lemma CombineHornerStep<T(!new)>(f: Field, m: Space<T>, cs: seq<T>, c: T, xs: seq<int>, k: nat)
    requires IsSpace(f, m) && AllIn(m, cs) && m.has(c)
    ensures Combine(m, Times(Weights(f, xs), Powers(xs, k)), HornerAll(m, cs + [c], xs)) ==
            m.add(Combine(m, Times(Weights(f, xs), Powers(xs, k + 1)), HornerAll(m, cs, xs)),
                  m.scale(c, Moment(f, xs, k + 1)))
  {
    hide Weight;
    var n, ws := |xs|, Weights(f, xs);
    var sums := AddAll(m, HornerAll(m, cs, xs), Constant(c, n));
    HornerAllIn(f, m, cs, xs);
    forall i | 0 <= i < n ensures m.has(sums[i]) {
      Sum(f, m, HornerAll(m, cs, xs)[i], c);
    }
    assert (cs + [c])[..|cs|] == cs;
    assert HornerAll(m, cs + [c], xs) == ScaleAll(m, sums, xs);
    CombineScaleAll(f, m, Times(ws, Powers(xs, k)), sums, xs);
    PowersStep(ws, xs, k);
    CombineAdd(f, m, Times(ws, Powers(xs, k + 1)), HornerAll(m, cs, xs), Constant(c, n));
    CombineConstant(f, m, ws, Powers(xs, k + 1), c);
  }

  lemma PowersStep(ws: seq<int>, xs: seq<int>, k: nat)
    requires |ws| == |xs|
    ensures Times(Times(ws, Powers(xs, k)), xs) == Times(ws, Powers(xs, k + 1))
  {
    forall i | 0 <= i < |ws| ensures (ws[i] * Pow(xs[i], k)) * xs[i] == ws[i] * Pow(xs[i], k + 1) {
      var w, x, p := ws[i], xs[i], Pow(xs[i], k);
      assert (w * p) * x == w * (x * p);
    }
  }

  /** A polynomial of low degree without a constant term combines to zero ... */
  lemma {:induction false} CombineLow<T(!new)>(f: Field, m: Space<T>, cs: seq<T>, xs: seq<int>, k: nat)
    requires IsSpace(f, m) && AllIn(m, cs) && Distinct(f, xs) && (cs == [] || k + |cs| < |xs|)
    ensures Combine(m, Times(Weights(f, xs), Powers(xs, k)), HornerAll(m, cs, xs)) == m.zero
    decreases |cs|
  {
    hide Weights, Powers, Moment;
    var n := |cs|;
    if n == 0 {
      var ws := Times(Weights(f, xs), Powers(xs, k));
      Scaled(f, m, m.zero, 0, 0);
      assert HornerAll(m, cs, xs) == Multiples(m, m.zero, Constant(0, |xs|));
      CombineMultiples(f, m, ws, m.zero, Constant(0, |xs|));
      ScaleZero(f, m, Dot(ws, Constant(0, |xs|)));
    } else {
      var c := cs[n - 1];
      assert cs == cs[..n - 1] + [c];
      CombineHornerStep(f, m, cs[..n - 1], c, xs, k);
      CombineLow(f, m, cs[..n - 1], xs, k + 1);
      Moments(f, xs, k + 1);
      Scaled(f, m, c, Moment(f, xs, k + 1), 0);
      Sum(f, m, m.zero, m.zero);
    }
  }

  /** ... and one whose degree equals the number of points leaves its leading coefficient. */
  lemma {:induction false} CombineTop<T(!new)>(f: Field, m: Space<T>, cs: seq<T>, xs: seq<int>, k: nat)
    requires IsSpace(f, m) && AllIn(m, cs) && Distinct(f, xs) && cs != [] && k + |cs| == |xs|
    ensures Combine(m, Times(Weights(f, xs), Powers(xs, k)), HornerAll(m, cs, xs)) ==
            m.scale(cs[0], SignedProduct(xs))
    decreases |cs|
  {
    hide Weights, Powers, Moment, SignedProduct;
    var n := |cs|;
    var c := cs[n - 1];
    assert cs == cs[..n - 1] + [c];
    CombineHornerStep(f, m, cs[..n - 1], c, xs, k);
    var top := m.scale(cs[0], SignedProduct(xs));
    Scaled(f, m, cs[0], SignedProduct(xs), 0);
    Sum(f, m, m.zero, top);
    if n == 1 {
      CombineLow(f, m, cs[..0], xs, k + 1);
      TopMoment(f, xs);
      Scaled(f, m, c, Moment(f, xs, k + 1), SignedProduct(xs));
    } else {
      CombineTop(f, m, cs[..n - 1], xs, k + 1);
      Moments(f, xs, k + 1);
      Scaled(f, m, c, Moment(f, xs, k + 1), 0);
      Sum(f, m, top, m.zero);
    }
  }
}
