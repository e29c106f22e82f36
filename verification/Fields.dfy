/**
 The scalar type of the curve library, as the rest of the model sees it: every integer
 stands for the scalar `reduce` maps it to, and `invert` is `Scalar::invert`. `IsField`
 lists what is used of them; the integers modulo a prime above 2^32 qualify (`ModuloIsField`),
 which is where inverses come from.
 */
module Fields {
  import opened PrimeField

  const U32_LIMIT: int := 0x1_0000_0000

  datatype Field = Field(reduce: int -> int, invert: int -> int)

  /** Two integers that stand for the same scalar. */
  predicate Same(f: Field, a: int, b: int) {
    f.reduce(a) == f.reduce(b)
  }

  // ---- laws; each predicate also serves as the trigger of its quantifier ----

  ghost predicate ReduceLaw(f: Field, a: int) {
    && f.reduce(f.reduce(a)) == f.reduce(a)
    && (0 <= a < U32_LIMIT ==> f.reduce(a) == a)
  }

  ghost predicate RingLaw(f: Field, a: int, b: int, c: int, d: int) {
    Same(f, a, b) && Same(f, c, d) ==>
      Same(f, a + c, b + d) && Same(f, a - c, b - d) && Same(f, a * c, b * d)
  }

  ghost predicate InverseLaw(f: Field, a: int, b: int) {
    && f.reduce(f.invert(a)) == f.invert(a)
    && (Same(f, a, b) ==> f.invert(a) == f.invert(b))
    && (if Same(f, a, 0) then f.invert(a) == 0 else Same(f, a * f.invert(a), 1))
  }

  ghost predicate IsField(f: Field) {
    && (forall a :: ReduceLaw(f, a))
    && (forall a, b, c, d :: RingLaw(f, a, b, c, d))
    && (forall a, b :: InverseLaw(f, a, b))
  }

  // ---- the integers modulo a prime ----

  function Modulo(q: Prime): Field {
    Field(a => a % q, a => Inv(q, a))
  }

  lemma ModuloLaws(q: Prime, f: Field, a: int, b: int, c: int, d: int)
    requires q > U32_LIMIT && f == Modulo(q)
    ensures ReduceLaw(f, a) && InverseLaw(f, a, b)
    ensures Cong(q, a, b) && Cong(q, c, d) ==>
              Cong(q, a + c, b + d) && Cong(q, a - c, b - d) && Cong(q, a * c, b * d)
  {
    CongMod(q, a);
    CongMod(q, 0);
    CongMod(q, 1);
    CongMod(q, Inv(q, a));
    if Cong(q, a, b) && Cong(q, c, d) {
      CongAdd(q, a, b, c, d);
      CongMul(q, a, b, c, d);
    }
  }

  /** Every prime modulus above 2^32 gives a field in which 32-bit indices stay apart. */
  lemma ModuloIsField(q: Prime)
    requires q > U32_LIMIT
    ensures IsField(Modulo(q))
  {
    var f := Modulo(q);
    forall a ensures ReduceLaw(f, a) { ModuloLaws(q, f, a, a, a, a); }
    forall a, b, c, d ensures RingLaw(f, a, b, c, d) { ModuloLaws(q, f, a, b, c, d); }
    forall a, b ensures InverseLaw(f, a, b) { ModuloLaws(q, f, a, b, a, a); }
  }

  // ---- consequences ----

  lemma SameReduced(f: Field, a: int)
    requires IsField(f)
    ensures Same(f, f.reduce(a), a)
    ensures f.reduce(0) == 0 && f.reduce(1) == 1
  {
    assert ReduceLaw(f, a) && ReduceLaw(f, 0) && ReduceLaw(f, 1);
  }

  lemma SameAdd(f: Field, a: int, b: int, c: int, d: int)
    requires IsField(f) && Same(f, a, b) && Same(f, c, d)
    ensures Same(f, a + c, b + d)
    ensures Same(f, a - c, b - d)
  {
    assert RingLaw(f, a, b, c, d);
  }

  lemma SameMul(f: Field, a: int, b: int, c: int, d: int)
    requires IsField(f) && Same(f, a, b) && Same(f, c, d)
    ensures Same(f, a * c, b * d)
  {
    assert RingLaw(f, a, b, c, d);
  }

  lemma SameScale(f: Field, c: int, a: int, b: int)
    requires IsField(f) && Same(f, a, b)
    ensures Same(f, c * a, c * b)
  {
    SameMul(f, c, c, a, b);
  }

  lemma Inverse(f: Field, a: int)
    requires IsField(f)
    ensures f.reduce(f.invert(a)) == f.invert(a)
    ensures if Same(f, a, 0) then f.invert(a) == 0 else Same(f, a * f.invert(a), 1)
    ensures f.invert(f.reduce(a)) == f.invert(a)
  {
    SameReduced(f, a);
    assert InverseLaw(f, a, f.reduce(a));
  }

  lemma NotCongruent(f: Field, a: int, b: int)
    requires IsField(f) && !Same(f, a, b)
    ensures !Same(f, a - b, 0)
  {
    if Same(f, a - b, 0) {
      SameAdd(f, a - b, 0, b, b);
      assert false;
    }
  }

  lemma CancelFactor(f: Field, c: int, a: int, b: int)
    requires IsField(f) && !Same(f, c, 0) && Same(f, c * a, c * b)
    ensures Same(f, a, b)
  {
    var i := f.invert(c);
    Inverse(f, c);
    SameScale(f, i, c * a, c * b);
    SameMul(f, c * i, 1, a, a);
    SameMul(f, c * i, 1, b, b);
    assert i * (c * a) == (c * i) * a && i * (c * b) == (c * i) * b;
  }

  lemma ProductZero(f: Field, a: int, b: int)
    requires IsField(f)
    ensures Same(f, a * b, 0) <==> Same(f, a, 0) || Same(f, b, 0)
  {
    if Same(f, a, 0) {
      SameMul(f, a, 0, b, b);
    } else if Same(f, b, 0) {
      SameMul(f, a, a, b, 0);
    } else if Same(f, a * b, 0) {
      CancelFactor(f, a, b, 0);
      assert false;
    }
  }
}
