/**
 What the secret-sharing trait asks of a type of secrets: a default value, addition,
 multiplication by a scalar, and sums. `IsSpace` adds the laws that make such a type a
 vector space over the scalar field. Scalars themselves are one instance (`ScalarSpace`),
 curve points another.
 */
module Spaces {
  import opened Fields

  /** The operations of the trait; `has` says which values of T are secrets. */
  datatype Space<!T> = Space(has: T -> bool, zero: T, add: (T, T) -> T, scale: (T, int) -> T)

  // ---- laws; each predicate also serves as the trigger of its quantifier ----

  ghost predicate AddLaw<T>(m: Space<T>, x: T, y: T) {
    m.has(x) && m.has(y) ==> m.has(m.add(x, y)) && m.add(x, y) == m.add(y, x)
  }

  ghost predicate AssocLaw<T>(m: Space<T>, x: T, y: T, z: T) {
    m.has(x) && m.has(y) && m.has(z) ==> m.add(m.add(x, y), z) == m.add(x, m.add(y, z))
  }

  ghost predicate UnitLaw<T>(m: Space<T>, x: T) {
    m.has(x) ==> m.add(x, m.zero) == x && m.scale(x, 0) == m.zero && m.scale(x, 1) == x
  }

  ghost predicate ScalarLaw<T>(f: Field, m: Space<T>, x: T, a: int, b: int) {
    m.has(x) ==>
      && m.has(m.scale(x, a))
      && m.scale(x, a + b) == m.add(m.scale(x, a), m.scale(x, b))
      && m.scale(m.scale(x, a), b) == m.scale(x, a * b)
      && (Same(f, a, b) ==> m.scale(x, a) == m.scale(x, b))
  }

  ghost predicate VectorLaw<T>(m: Space<T>, x: T, y: T, a: int) {
    m.has(x) && m.has(y) ==> m.scale(m.add(x, y), a) == m.add(m.scale(x, a), m.scale(y, a))
  }

  ghost predicate IsSpace<T(!new)>(f: Field, m: Space<T>) {
    && IsField(f)
    && m.has(m.zero)
    && (forall x, y :: AddLaw(m, x, y))
    && (forall x, y, z :: AssocLaw(m, x, y, z))
    && (forall x :: UnitLaw(m, x))
    && (forall x, a, b :: ScalarLaw(f, m, x, a, b))
    && (forall x, y, a :: VectorLaw(m, x, y, a))
  }

  // ---- consequences ----

  lemma Sum<T(!new)>(f: Field, m: Space<T>, x: T, y: T)
    requires IsSpace(f, m) && m.has(x) && m.has(y)
    ensures m.has(m.add(x, y)) && m.add(x, y) == m.add(y, x)
    ensures m.add(x, m.zero) == x && m.add(m.zero, x) == x
  {
    assert AddLaw(m, x, y) && AddLaw(m, x, m.zero) && UnitLaw(m, x);
  }

  lemma Assoc<T(!new)>(f: Field, m: Space<T>, x: T, y: T, z: T)
    requires IsSpace(f, m) && m.has(x) && m.has(y) && m.has(z)
    ensures m.add(m.add(x, y), z) == m.add(x, m.add(y, z))
  {
    assert AssocLaw(m, x, y, z);
  }

  lemma Scaled<T(!new)>(f: Field, m: Space<T>, x: T, a: int, b: int)
    requires IsSpace(f, m) && m.has(x)
    ensures m.has(m.scale(x, a))
    ensures m.scale(x, a + b) == m.add(m.scale(x, a), m.scale(x, b))
    ensures m.scale(m.scale(x, a), b) == m.scale(x, a * b)
    ensures Same(f, a, b) ==> m.scale(x, a) == m.scale(x, b)
    ensures m.scale(x, 0) == m.zero && m.scale(x, 1) == x
  {
    assert ScalarLaw(f, m, x, a, b) && UnitLaw(m, x);
  }

  lemma Distribute<T(!new)>(f: Field, m: Space<T>, x: T, y: T, a: int)
    requires IsSpace(f, m) && m.has(x) && m.has(y)
    ensures m.scale(m.add(x, y), a) == m.add(m.scale(x, a), m.scale(y, a))
  {
    assert VectorLaw(m, x, y, a);
  }

  lemma ScaleZero<T(!new)>(f: Field, m: Space<T>, a: int)
    requires IsSpace(f, m)
    ensures m.scale(m.zero, a) == m.zero
  {
    Scaled(f, m, m.zero, 0, a);
    Scaled(f, m, m.zero, 0 * a, 0);
  }

  /** (w + x) + (y + z) == (w + y) + (x + z) */
  lemma Interchange<T(!new)>(f: Field, m: Space<T>, w: T, x: T, y: T, z: T)
    requires IsSpace(f, m) && m.has(w) && m.has(x) && m.has(y) && m.has(z)
    ensures m.add(m.add(w, x), m.add(y, z)) == m.add(m.add(w, y), m.add(x, z))
  {
    Sum(f, m, y, z);
    Sum(f, m, x, z);
    Sum(f, m, x, y);
    Assoc(f, m, w, x, m.add(y, z));
    Assoc(f, m, x, y, z);
    Assoc(f, m, y, x, z);
    Assoc(f, m, w, y, m.add(x, z));
  }

  lemma CancelAdd<T(!new)>(f: Field, m: Space<T>, x: T, y: T, z: T)
    requires IsSpace(f, m) && m.has(x) && m.has(y) && m.has(z)
    requires m.add(x, y) == m.add(x, z)
    ensures y == z
  {
    var n := m.scale(x, -1);
    Scaled(f, m, x, -1, 1);
    Sum(f, m, n, x);
    Assoc(f, m, n, x, y);
    Assoc(f, m, n, x, z);
    Sum(f, m, y, m.zero);
    Sum(f, m, z, m.zero);
  }

  /** Scaling by a unit is injective, and a non-zero element has no small period. */
  lemma CancelScale<T(!new)>(f: Field, m: Space<T>, x: T, y: T, a: int)
    requires IsSpace(f, m) && m.has(x) && m.has(y) && !Same(f, a, 0)
    requires m.scale(x, a) == m.scale(y, a)
    ensures x == y
  {
    var i := f.invert(a);
    Inverse(f, a);
    Scaled(f, m, x, a, i);
    Scaled(f, m, y, a, i);
    Scaled(f, m, x, a * i, 1);
    Scaled(f, m, y, a * i, 1);
  }

  lemma ScaleInjective<T(!new)>(f: Field, m: Space<T>, x: T, a: int, b: int)
    requires IsSpace(f, m) && m.has(x) && x != m.zero
    ensures m.scale(x, a) == m.scale(x, b) <==> Same(f, a, b)
  {
    Scaled(f, m, x, a, b);
    Scaled(f, m, x, a - b, b);
    Scaled(f, m, x, 0, b);
    if m.scale(x, a) == m.scale(x, b) && !Same(f, a, b) {
      var d := m.scale(x, a - b);
      Scaled(f, m, x, b, b);
      Sum(f, m, d, m.scale(x, b));
      Sum(f, m, m.zero, m.scale(x, b));
      CancelAdd(f, m, m.scale(x, b), d, m.zero);
      NotCongruent(f, a, b);
      ScaleZero(f, m, a - b);
      CancelScale(f, m, x, m.zero, a - b);
      assert false;
    }
  }

  // ---- the scalar field as a space ----

  function ScalarSpace(f: Field): Space<int> {
    Space(x => f.reduce(x) == x, 0, (x, y) => f.reduce(x + y), (x, a) => f.reduce(x * a))
  }

  lemma ScalarAddLaws(f: Field, x: int, y: int, z: int)
    requires IsField(f)
    ensures AddLaw(ScalarSpace(f), x, y)
    ensures AssocLaw(ScalarSpace(f), x, y, z)
    ensures UnitLaw(ScalarSpace(f), x)
  {
    SameReduced(f, x + y);
    SameReduced(f, y + z);
    SameAdd(f, f.reduce(x + y), x + y, z, z);
    SameAdd(f, x, x, f.reduce(y + z), y + z);
  }

  lemma ScalarScaleLaws(f: Field, x: int, y: int, a: int, b: int)
    requires IsField(f)
    ensures ScalarLaw(f, ScalarSpace(f), x, a, b)
    ensures VectorLaw(ScalarSpace(f), x, y, a)
  {
    SameReduced(f, x * a);
    SameReduced(f, x * b);
    SameReduced(f, y * a);
    SameReduced(f, x + y);
    SameAdd(f, f.reduce(x * a), x * a, f.reduce(x * b), x * b);
    SameAdd(f, f.reduce(x * a), x * a, f.reduce(y * a), y * a);
    SameMul(f, f.reduce(x * a), x * a, b, b);
    SameMul(f, f.reduce(x + y), x + y, a, a);
    assert x * (a + b) == x * a + x * b && (x * a) * b == x * (a * b) && (x + y) * a == x * a + y * a;
    if Same(f, a, b) { SameScale(f, x, a, b); }
  }

  /** Scalars form a space over themselves. */
  lemma ScalarSpaceIsSpace(f: Field)
    requires IsField(f)
    ensures IsSpace(f, ScalarSpace(f))
  {
    var m := ScalarSpace(f);
    SameReduced(f, 0);
    forall x, y ensures AddLaw(m, x, y) { ScalarAddLaws(f, x, y, y); }
    forall x, y, z ensures AssocLaw(m, x, y, z) { ScalarAddLaws(f, x, y, z); }
    forall x ensures UnitLaw(m, x) { ScalarAddLaws(f, x, x, x); }
    forall x, a, b ensures ScalarLaw(f, m, x, a, b) { ScalarScaleLaws(f, x, x, a, b); }
    forall x, y, a ensures VectorLaw(m, x, y, a) { ScalarScaleLaws(f, x, y, a, a); }
  }

  // ---- weighted sums ----

  /** The sum of each value times its weight. */
  function Combine<T>(m: Space<T>, ws: seq<int>, vs: seq<T>): T
    requires |ws| == |vs|
  {
    var n := |vs|;
    if n == 0 then m.zero
    else m.add(Combine(m, ws[..n - 1], vs[..n - 1]), m.scale(vs[n - 1], ws[n - 1]))
  }

  ghost predicate AllIn<T>(m: Space<T>, vs: seq<T>) {
    forall i :: 0 <= i < |vs| ==> m.has(vs[i])
  }

  ghost predicate AllSame(f: Field, ws: seq<int>, us: seq<int>) {
    |ws| == |us| && forall i :: 0 <= i < |ws| ==> Same(f, ws[i], us[i])
  }

  function Dot(ws: seq<int>, ks: seq<int>): int
    requires |ws| == |ks|
  {
    var n := |ws|;
    if n == 0 then 0 else Dot(ws[..n - 1], ks[..n - 1]) + ws[n - 1] * ks[n - 1]
  }

  function Times(ws: seq<int>, ks: seq<int>): (r: seq<int>)
    requires |ws| == |ks|
  {
    seq(|ws|, i requires 0 <= i < |ws| => ws[i] * ks[i])
  }

  function AddAll<T>(m: Space<T>, us: seq<T>, vs: seq<T>): seq<T>
    requires |us| == |vs|
  {
    seq(|us|, i requires 0 <= i < |us| => m.add(us[i], vs[i]))
  }

  function ScaleAll<T>(m: Space<T>, vs: seq<T>, ks: seq<int>): seq<T>
    requires |vs| == |ks|
  {
    seq(|vs|, i requires 0 <= i < |vs| => m.scale(vs[i], ks[i]))
  }

  /** One element times each of the given scalars. */
  function Multiples<T>(m: Space<T>, x: T, ks: seq<int>): (r: seq<T>) {
    seq(|ks|, i requires 0 <= i < |ks| => m.scale(x, ks[i]))
  }

  lemma {:induction false} CombineIn<T(!new)>(f: Field, m: Space<T>, ws: seq<int>, vs: seq<T>)
    requires IsSpace(f, m) && |ws| == |vs| && AllIn(m, vs)
    ensures m.has(Combine(m, ws, vs))
  {
    var n := |vs|;
    if n > 0 {
      CombineIn(f, m, ws[..n - 1], vs[..n - 1]);
      Scaled(f, m, vs[n - 1], ws[n - 1], 0);
      Sum(f, m, Combine(m, ws[..n - 1], vs[..n - 1]), m.scale(vs[n - 1], ws[n - 1]));
    }
  }

  lemma {:induction false} CombineAdd<T(!new)>(f: Field, m: Space<T>, ws: seq<int>, us: seq<T>, vs: seq<T>)
    requires IsSpace(f, m) && |ws| == |us| == |vs| && AllIn(m, us) && AllIn(m, vs)
    ensures Combine(m, ws, AddAll(m, us, vs)) == m.add(Combine(m, ws, us), Combine(m, ws, vs))
  {
    var n := |vs|;
    if n == 0 {
      Sum(f, m, m.zero, m.zero);
    } else {
      var w, ws', us', vs' := ws[n - 1], ws[..n - 1], us[..n - 1], vs[..n - 1];
      assert AddAll(m, us, vs)[..n - 1] == AddAll(m, us', vs');
      CombineAdd(f, m, ws', us', vs');
      CombineIn(f, m, ws', us');
      CombineIn(f, m, ws', vs');
      Scaled(f, m, us[n - 1], w, 0);
      Scaled(f, m, vs[n - 1], w, 0);
      Distribute(f, m, us[n - 1], vs[n - 1], w);
      Interchange(f, m, Combine(m, ws', us'), Combine(m, ws', vs'), m.scale(us[n - 1], w), m.scale(vs[n - 1], w));
    }
  }

  /** Scalars on the values move into the weights. */
  lemma {:induction false} CombineScaleAll<T(!new)>(f: Field, m: Space<T>, ws: seq<int>, vs: seq<T>, ks: seq<int>)
    requires IsSpace(f, m) && |ws| == |vs| == |ks| && AllIn(m, vs)
    ensures Combine(m, ws, ScaleAll(m, vs, ks)) == Combine(m, Times(ws, ks), vs)
  {
    var n := |vs|;
    if n > 0 {
      CombineScaleAll(f, m, ws[..n - 1], vs[..n - 1], ks[..n - 1]);
      assert ScaleAll(m, vs, ks)[..n - 1] == ScaleAll(m, vs[..n - 1], ks[..n - 1]);
      assert Times(ws, ks)[..n - 1] == Times(ws[..n - 1], ks[..n - 1]);
      Scaled(f, m, vs[n - 1], ks[n - 1], ws[n - 1]);
      assert ks[n - 1] * ws[n - 1] == ws[n - 1] * ks[n - 1];
    }
  }

  /** A weighted sum of multiples of one element is that element times a scalar. */
  lemma {:induction false} CombineMultiples<T(!new)>(f: Field, m: Space<T>, ws: seq<int>, x: T, ks: seq<int>)
    requires IsSpace(f, m) && |ws| == |ks| && m.has(x)
    ensures Combine(m, ws, Multiples(m, x, ks)) == m.scale(x, Dot(ws, ks))
  {
    var n := |ws|;
    if n == 0 {
      Scaled(f, m, x, 0, 0);
    } else {
      CombineMultiples(f, m, ws[..n - 1], x, ks[..n - 1]);
      assert Multiples(m, x, ks)[..n - 1] == Multiples(m, x, ks[..n - 1]);
      Scaled(f, m, x, ks[n - 1], ws[n - 1]);
      assert ks[n - 1] * ws[n - 1] == ws[n - 1] * ks[n - 1];
      Scaled(f, m, x, Dot(ws[..n - 1], ks[..n - 1]), ws[n - 1] * ks[n - 1]);
    }
  }
}
