/**
 The interpolation weights used to recombine shares.

 For distinct points x_0 .. x_(m-1), the weights combine the values at those points of any
 polynomial of degree below m into its value at zero. The proof compares the weights of a
 list of points with those of the list without its last (or first) point: the difference of
 two points times the old weight is the removed point times the new one (`WeightStep`).
 All the sums of weights times powers of the points follow from that (`Moments`, `TopMoment`).
 */
module Lagrange {
  import opened Fields
  import opened Spaces

  /** `shares[..i].iter().chain(&shares[i + 1..])` */
  function Others<T>(xs: seq<T>, i: nat): seq<T>
    requires i < |xs|
  {
    xs[..i] + xs[i + 1..]
  }

  /** `Iterator::product` over scalars. */
  function Product(f: Field, xs: seq<int>): int {
    if xs == [] then 1 else f.reduce(Product(f, xs[..|xs| - 1]) * xs[|xs| - 1])
  }

  function Numerator(f: Field, xs: seq<int>, i: nat): int
    requires i < |xs|
  {
    Product(f, Others(xs, i))
  }

  function Denominator(f: Field, xs: seq<int>, i: nat): int
    requires i < |xs|
  {
    var others := Others(xs, i);
    Product(f, seq(|others|, j requires 0 <= j < |others| => f.reduce(others[j] - xs[i])))
  }

  function Weight(f: Field, xs: seq<int>, i: nat): int
    requires i < |xs|
  {
    f.reduce(Numerator(f, xs, i) * f.invert(Denominator(f, xs, i)))
  }

  function Weights(f: Field, xs: seq<int>): (ws: seq<int>)
    ensures |ws| == |xs|
  {
    seq(|xs|, i requires 0 <= i < |xs| => Weight(f, xs, i))
  }

  ghost predicate Distinct(f: Field, xs: seq<int>) {
    forall i, j :: 0 <= i < j < |xs| ==> !Same(f, xs[i], xs[j])
  }

  // ---- products over the integers ----

  function Prod(xs: seq<int>): int {
    if xs == [] then 1 else Prod(xs[..|xs| - 1]) * xs[|xs| - 1]
  }

  function Differences(xs: seq<int>, x: int): seq<int> {
    seq(|xs|, i requires 0 <= i < |xs| => xs[i] - x)
  }

  lemma ProdLast(xs: seq<int>, y: int)
    ensures Prod(xs + [y]) == Prod(xs) * y
  {
    assert (xs + [y])[..|xs|] == xs;
  }

  lemma {:induction false} ProdFirst(z: int, xs: seq<int>)
    ensures Prod([z] + xs) == z * Prod(xs)
  {
    if xs == [] {
      assert [z] + xs == [] + [z];
      ProdLast([], z);
    } else {
      var y, xs' := xs[|xs| - 1], xs[..|xs| - 1];
      assert [z] + xs == ([z] + xs') + [y] && xs == xs' + [y];
      ProdLast([z] + xs', y);
      ProdFirst(z, xs');
    }
  }

  lemma {:induction false} ProductIsProd(f: Field, xs: seq<int>, ys: seq<int>)
    requires IsField(f)
    requires AllSame(f, xs, ys)
    ensures Same(f, Product(f, xs), Prod(ys))
  {
    var n := |xs|;
    if n > 0 {
      ProductIsProd(f, xs[..n - 1], ys[..n - 1]);
      SameMul(f, Product(f, xs[..n - 1]), Prod(ys[..n - 1]), xs[n - 1], ys[n - 1]);
      SameReduced(f, Product(f, xs[..n - 1]) * xs[n - 1]);
    }
  }

  lemma {:induction false} ProdNonZero(f: Field, xs: seq<int>)
    requires IsField(f)
    ensures Same(f, Prod(xs), 0) <==> exists i :: 0 <= i < |xs| && Same(f, xs[i], 0)
  {
    var n := |xs|;
    if n == 0 {
      SameReduced(f, 1);
    } else {
      ProdNonZero(f, xs[..n - 1]);
      ProductZero(f, Prod(xs[..n - 1]), xs[n - 1]);
      assert forall i :: 0 <= i < n - 1 ==> xs[..n - 1][i] == xs[i];
    }
  }

  // ---- weights through integer products ----

  function Top(xs: seq<int>, i: nat): int
    requires i < |xs|
  {
    Prod(Others(xs, i))
  }

  function Bottom(xs: seq<int>, i: nat): int
    requires i < |xs|
  {
    Prod(Differences(Others(xs, i), xs[i]))
  }

  lemma WeightIs(f: Field, xs: seq<int>, i: nat)
    requires IsField(f)
    requires i < |xs|
    ensures Same(f, Denominator(f, xs, i), Bottom(xs, i))
    ensures Same(f, Weight(f, xs, i), Top(xs, i) * f.invert(Bottom(xs, i)))
  {
    var others := Others(xs, i);
    var reduced := seq(|others|, j requires 0 <= j < |others| => f.reduce(others[j] - xs[i]));
    forall j | 0 <= j < |others| ensures Same(f, reduced[j], others[j] - xs[i]) {
      SameReduced(f, others[j] - xs[i]);
    }
    ProductIsProd(f, others, others);
    ProductIsProd(f, reduced, Differences(others, xs[i]));
    var inverse := f.invert(Denominator(f, xs, i));
    Inverse(f, Denominator(f, xs, i));
    Inverse(f, Bottom(xs, i));
    SameMul(f, Numerator(f, xs, i), Top(xs, i), inverse, inverse);
    SameReduced(f, Numerator(f, xs, i) * inverse);
  }

  lemma DifferenceZero(f: Field, a: int, b: int)
    requires IsField(f)
    ensures Same(f, a - b, 0) <==> Same(f, a, b)
  {
    if Same(f, a, b) {
      SameAdd(f, a, b, b, b);
    } else {
      NotCongruent(f, a, b);
    }
  }

  lemma OthersMember<T>(xs: seq<T>, i: nat)
    requires i < |xs|
    ensures |Others(xs, i)| == |xs| - 1
    ensures forall j :: 0 <= j < |Others(xs, i)| ==> Others(xs, i)[j] == xs[if j < i then j else j + 1]
    ensures forall j :: 0 <= j < |xs| && j != i ==> xs[j] == Others(xs, i)[if j < i then j else j - 1]
  {
  }

  lemma SomeDifferenceZero(f: Field, xs: seq<int>, i: nat)
    requires IsField(f)
    requires i < |xs|
    ensures var ds := Differences(Others(xs, i), xs[i]);
            (exists j :: 0 <= j < |ds| && Same(f, ds[j], 0)) <==>
            exists j :: 0 <= j < |xs| && j != i && Same(f, xs[j], xs[i])
  {
    hide Others;
    var others := Others(xs, i);
    var ds := Differences(others, xs[i]);
    OthersMember(xs, i);
    forall j | 0 <= j < |ds| ensures Same(f, ds[j], 0) <==> Same(f, others[j], xs[i]) {
      DifferenceZero(f, others[j], xs[i]);
    }
    if j :| 0 <= j < |xs| && j != i && Same(f, xs[j], xs[i]) {
      assert Same(f, ds[if j < i then j else j - 1], 0);
    }
  }

  /** A denominator vanishes exactly when its point occurs twice. */
  lemma DenominatorZero(f: Field, xs: seq<int>, i: nat)
    requires IsField(f)
    requires i < |xs|
    ensures Same(f, Denominator(f, xs, i), 0) <==> exists j :: 0 <= j < |xs| && j != i && Same(f, xs[j], xs[i])
  {
    hide Denominator, Prod;
    WeightIs(f, xs, i);
    ProdNonZero(f, Differences(Others(xs, i), xs[i]));
    SomeDifferenceZero(f, xs, i);
  }

  lemma BottomNonZero(f: Field, xs: seq<int>, i: nat)
    requires IsField(f)
    requires i < |xs| && Distinct(f, xs)
    ensures !Same(f, Bottom(xs, i), 0)
  {
    hide Denominator, Bottom;
    WeightIs(f, xs, i);
    DenominatorZero(f, xs, i);
  }

  lemma QuotientStep(f: Field, n: int, d: int, y: int, e: int)
    requires IsField(f)
    requires !Same(f, d, 0) && !Same(f, e, 0)
    ensures Same(f, e * ((n * y) * f.invert(d * e)), y * (n * f.invert(d)))
  {
    ProductZero(f, d, e);
    var i, j := f.invert(d * e), f.invert(d);
    Inverse(f, d * e);
    Inverse(f, d);
    assert d * (e * i) == (d * e) * i;
    CancelFactor(f, d, e * i, j);
    SameScale(f, n * y, e * i, j);
    assert e * ((n * y) * i) == (n * y) * (e * i);
    assert y * (n * j) == (n * y) * j;
  }

  /** A weight, when one more point y enters both its products. */
  lemma WeightRatio(f: Field, xs: seq<int>, i: nat, more: seq<int>, j: nat, y: int)
    requires IsField(f)
    requires i < |xs| && j < |more| && Distinct(f, more) && Distinct(f, xs) && !Same(f, y, xs[i])
    requires Top(more, j) == Top(xs, i) * y && Bottom(more, j) == Bottom(xs, i) * (y - xs[i])
    ensures Same(f, (y - xs[i]) * Weight(f, more, j), y * Weight(f, xs, i))
  {
    hide Weight, Top, Bottom;
    BottomNonZero(f, xs, i);
    WeightIs(f, xs, i);
    WeightIs(f, more, j);
    var e := y - xs[i];
    NotCongruent(f, y, xs[i]);
    QuotientStep(f, Top(xs, i), Bottom(xs, i), y, e);
    SameScale(f, e, Weight(f, more, j), Top(more, j) * f.invert(Bottom(more, j)));
    SameScale(f, y, Weight(f, xs, i), Top(xs, i) * f.invert(Bottom(xs, i)));
  }

  /** How a weight changes when the last point is dropped. */
  lemma WeightStepLast(f: Field, xs: seq<int>, y: int, i: nat)
    requires IsField(f)
    requires i < |xs| && Distinct(f, xs + [y])
    ensures Same(f, (y - xs[i]) * Weight(f, xs + [y], i), y * Weight(f, xs, i))
  {
    hide Weight;
    var more, others := xs + [y], Others(xs, i);
    assert Others(more, i) == others + [y];
    ProdLast(others, y);
    assert Differences(others + [y], xs[i]) == Differences(others, xs[i]) + [y - xs[i]];
    ProdLast(Differences(others, xs[i]), y - xs[i]);
    assert forall k :: 0 <= k < |xs| ==> xs[k] == more[k];
    assert !Same(f, more[i], more[|xs|]);
    WeightRatio(f, xs, i, more, i, y);
  }

  lemma ProductsFirst(z: int, xs: seq<int>, i: nat)
    requires i < |xs|
    ensures Top([z] + xs, i + 1) == Top(xs, i) * z
    ensures Bottom([z] + xs, i + 1) == Bottom(xs, i) * (z - xs[i])
  {
    hide Prod;
    var others := Others(xs, i);
    assert Others([z] + xs, i + 1) == [z] + others;
    ProdFirst(z, others);
    assert Differences([z] + others, xs[i]) == [z - xs[i]] + Differences(others, xs[i]);
    ProdFirst(z - xs[i], Differences(others, xs[i]));
  }

  /** How a weight changes when the first point is dropped. */
  lemma WeightStepFirst(f: Field, z: int, xs: seq<int>, i: nat)
    requires IsField(f)
    requires i < |xs| && Distinct(f, [z] + xs)
    ensures Same(f, (z - xs[i]) * Weight(f, [z] + xs, i + 1), z * Weight(f, xs, i))
  {
    hide Weight, Top, Bottom;
    var more := [z] + xs;
    ProductsFirst(z, xs, i);
    assert forall k :: 0 <= k < |xs| ==> xs[k] == more[k + 1];
    assert !Same(f, more[0], more[i + 1]);
    WeightRatio(f, xs, i, more, i + 1, z);
  }

  // ---- sums of weights times powers ----

  function Pow(x: int, k: nat): int {
    if k == 0 then 1 else x * Pow(x, k - 1)
  }

  function Powers(xs: seq<int>, k: nat): (ps: seq<int>)
    ensures |ps| == |xs|
  {
    seq(|xs|, i requires 0 <= i < |xs| => Pow(xs[i], k))
  }

  /** The weighted sum of the k-th powers of the points. */
  function Moment(f: Field, xs: seq<int>, k: nat): int {
    Dot(Weights(f, xs), Powers(xs, k))
  }

  lemma DotStepTerm(f: Field, u: int, w: int, x: int, y: int, p: int, a: int, b: int, c: int)
    requires IsField(f)
    requires Same(f, (y - x) * u, y * w) && Same(f, y * a - b, y * c)
    ensures Same(f, y * (a + u * p) - (b + u * (x * p)), y * (c + w * p))
  {
    SameMul(f, (y - x) * u, y * w, p, p);
    SameAdd(f, y * a - b, y * c, ((y - x) * u) * p, (y * w) * p);
    assert ((y - x) * u) * p == y * (u * p) - u * (x * p);
    assert (y * w) * p == y * (w * p);
  }

  lemma {:induction false} DotStep(f: Field, us: seq<int>, ws: seq<int>, xs: seq<int>, y: int, k: nat)
    requires IsField(f)
    requires |us| == |ws| == |xs|
    requires forall i :: 0 <= i < |xs| ==> Same(f, (y - xs[i]) * us[i], y * ws[i])
    ensures Same(f, y * Dot(us, Powers(xs, k)) - Dot(us, Powers(xs, k + 1)), y * Dot(ws, Powers(xs, k)))
  {
    var n := |xs|;
    if n > 0 {
      var us', ws', xs' := us[..n - 1], ws[..n - 1], xs[..n - 1];
      DotStep(f, us', ws', xs', y, k);
      assert Powers(xs, k)[..n - 1] == Powers(xs', k);
      assert Powers(xs, k + 1)[..n - 1] == Powers(xs', k + 1);
      DotStepTerm(f, us[n - 1], ws[n - 1], xs[n - 1], y, Pow(xs[n - 1], k),
                  Dot(us', Powers(xs', k)), Dot(us', Powers(xs', k + 1)), Dot(ws', Powers(xs', k)));
    }
  }

  lemma {:induction false} DotFirst(ws: seq<int>, ks: seq<int>)
    requires |ws| == |ks| > 0
    ensures Dot(ws, ks) == ws[0] * ks[0] + Dot(ws[1..], ks[1..])
  {
    var n := |ws|;
    if n > 1 {
      DotFirst(ws[..n - 1], ks[..n - 1]);
      assert ws[..n - 1][1..] == ws[1..][..n - 2] && ks[..n - 1][1..] == ks[1..][..n - 2];
    }
  }

  /** The moments of a list of points determine those of the list without its last point. */
  lemma MomentStepLast(f: Field, xs: seq<int>, y: int, k: nat)
    requires IsField(f)
    requires Distinct(f, xs + [y])
    ensures Same(f, y * Moment(f, xs + [y], k) - Moment(f, xs + [y], k + 1), y * Moment(f, xs, k))
  {
    hide Weight;
    var n, more := |xs|, xs + [y];
    var ws, us := Weights(f, xs), Weights(f, more)[..n];
    forall i | 0 <= i < n ensures Same(f, (y - xs[i]) * us[i], y * ws[i]) {
      WeightStepLast(f, xs, y, i);
    }
    DotStep(f, us, ws, xs, y, k);
    assert Powers(more, k)[..n] == Powers(xs, k) && Powers(more, k + 1)[..n] == Powers(xs, k + 1);
    SameTerm(y, Weight(f, more, n), Pow(y, k), Dot(us, Powers(xs, k)), Dot(us, Powers(xs, k + 1)));
  }

  lemma MomentFirst(f: Field, z: int, xs: seq<int>, k: nat)
    ensures var more := [z] + xs;
            Moment(f, more, k) == Dot(Weights(f, more)[1..], Powers(xs, k)) + Weight(f, more, 0) * Pow(z, k)
  {
    hide Weight;
    var more := [z] + xs;
    DotFirst(Weights(f, more), Powers(more, k));
    assert Powers(more, k)[1..] == Powers(xs, k);
  }

  /** The same for the first point. */
  lemma MomentStepFirst(f: Field, z: int, xs: seq<int>, k: nat)
    requires IsField(f)
    requires Distinct(f, [z] + xs)
    ensures Same(f, z * Moment(f, [z] + xs, k) - Moment(f, [z] + xs, k + 1), z * Moment(f, xs, k))
  {
    hide Weight;
    var n, more := |xs|, [z] + xs;
    var ws, us := Weights(f, xs), Weights(f, more)[1..];
    forall i | 0 <= i < n ensures Same(f, (z - xs[i]) * us[i], z * ws[i]) {
      WeightStepFirst(f, z, xs, i);
    }
    DotStep(f, us, ws, xs, z, k);
    MomentFirst(f, z, xs, k);
    MomentFirst(f, z, xs, k + 1);
    hide Moment;
    SameTerm(z, Weight(f, more, 0), Pow(z, k), Dot(us, Powers(xs, k)), Dot(us, Powers(xs, k + 1)));
  }

  lemma SameTerm(y: int, w: int, p: int, a: int, b: int)
    ensures y * (a + w * p) - (b + w * (y * p)) == y * a - b
  {
    assert y * (w * p) == w * (y * p);
  }

  lemma SinglePoint(f: Field, x: int, k: nat)
    requires IsField(f)
    ensures Same(f, Moment(f, [x], k), Pow(x, k))
  {
    var w, p := Weight(f, [x], 0), Pow(x, k);
    WeightIs(f, [x], 0);
    assert Others([x], 0) == [] && Differences([], x) == [];
    Inverse(f, 1);
    SameReduced(f, 1);
    assert Same(f, w, 1);
    SameMul(f, w, 1, p, p);
    var ws, ps := Weights(f, [x]), Powers([x], k);
    assert ws == [] + [w] && ps == [] + [p];
    assert ws[..0] == [] && ps[..0] == [];
    assert Dot(ws, ps) == 0 + w * p;
  }

  /** Below the number of points, only the zeroth moment survives, and it is one. */
  lemma {:induction false} Moments(f: Field, xs: seq<int>, k: nat)
    requires IsField(f)
    requires Distinct(f, xs) && k < |xs|
    ensures Same(f, Moment(f, xs, k), if k == 0 then 1 else 0)
    decreases |xs|, k
  {
    hide Moment;
    var n := |xs|;
    if n == 1 {
      SinglePoint(f, xs[0], 0);
      assert xs == [xs[0]];
    } else {
      var y, init := xs[n - 1], xs[..n - 1];
      assert xs == init + [y];
      if k == 0 {
        var z, tail := xs[0], xs[1..];
        assert xs == [z] + tail;
        Moments(f, init, 0);
        Moments(f, tail, 0);
        MomentStepLast(f, init, y, 0);
        MomentStepFirst(f, z, tail, 0);
        assert !Same(f, xs[0], xs[n - 1]);
        UnitMoment(f, y, z, Moment(f, xs, 0), Moment(f, xs, 1), Moment(f, init, 0), Moment(f, tail, 0));
      } else {
        Moments(f, xs, k - 1);
        Moments(f, init, k - 1);
        MomentStepLast(f, init, y, k - 1);
        MomentDifference(f, y, Moment(f, xs, k - 1), Moment(f, init, k - 1), Moment(f, xs, k));
      }
    }
  }

  lemma UnitMoment(f: Field, y: int, z: int, m: int, m': int, a: int, b: int)
    requires IsField(f)
    requires !Same(f, z, y) && Same(f, a, 1) && Same(f, b, 1)
    requires Same(f, y * m - m', y * a) && Same(f, z * m - m', z * b)
    ensures Same(f, m, 1)
  {
    SameScale(f, y, a, 1);
    SameScale(f, z, b, 1);
    SameAdd(f, z * m - m', z, y * m - m', y);
    NotCongruent(f, z, y);
    assert (z * m - m') - (y * m - m') == (z - y) * m;
    CancelFactor(f, z - y, m, 1);
  }

  lemma MomentDifference(f: Field, y: int, a: int, b: int, c: int)
    requires IsField(f)
    requires Same(f, y * a - c, y * b)
    ensures Same(f, c, y * (a - b))
    ensures Same(f, a, b) ==> Same(f, c, 0)
  {
    SameAdd(f, y * a, y * a, y * a - c, y * b);
    assert y * a - (y * a - c) == c && y * a - y * b == y * (a - b);
    if Same(f, a, b) {
      SameAdd(f, a, b, b, b);
      SameScale(f, y, a - b, 0);
    }
  }

  /** The product of the points, negated when their number is even. */
  function SignedProduct(xs: seq<int>): int {
    if |xs| % 2 == 1 then Prod(xs) else -Prod(xs)
  }

  /** The first moment that does not vanish again. */
  lemma {:induction false} TopMoment(f: Field, xs: seq<int>)
    requires IsField(f)
    requires Distinct(f, xs) && |xs| > 0
    ensures Same(f, Moment(f, xs, |xs|), SignedProduct(xs))
  {
    hide Moment;
    var n := |xs|;
    var y, init := xs[n - 1], xs[..n - 1];
    assert xs == init + [y];
    ProdLast(init, y);
    if n == 1 {
      SinglePoint(f, y, 1);
      assert xs == [y] && init == [];
      assert Pow(y, 1) == y * Pow(y, 0);
    } else {
      TopMoment(f, init);
      Moments(f, xs, n - 1);
      MomentStepLast(f, init, y, n - 1);
      var a, b, p := Moment(f, xs, n - 1), Moment(f, init, n - 1), SignedProduct(init);
      MomentDifference(f, y, a, b, Moment(f, xs, n));
      SameAdd(f, a, 0, b, p);
      SameScale(f, y, a - b, 0 - p);
      assert y * (0 - p) == SignedProduct(xs);
    }
  }
}
