/**
 The integers modulo a prime: congruences, and inverses obtained from primality alone.
 `Fields` presents them as the scalar field of the protocol.
 */
module PrimeField {

  ghost predicate Divides(d: int, n: int)
    requires d != 0
  {
    n % d == 0
  }

  ghost predicate IsPrime(n: int) {
    2 <= n && forall d :: 2 <= d < n ==> !Divides(d, n)
  }

  type Prime = q: int | 2 <= q && IsPrime(q) witness 2

  /** Congruence modulo q. */
  predicate Cong(q: Prime, a: int, b: int) {
    a % q == b % q
  }

  // ---- congruences ----

  lemma CongFrom(q: Prime, a: int, b: int, k: int)
    requires a == b + k * q
    ensures Cong(q, a, b)
  {
    var d := a / q - (b / q + k);
    assert q * d == b % q - a % q by {
      assert a == q * (a / q) + a % q;
      assert b == q * (b / q) + b % q;
      assert q * d == q * (a / q) - q * (b / q) - q * k;
    }
    SmallMultiple(q, d);
  }

  /** A multiple of g strictly between -g and g is zero. */
  lemma SmallMultiple(g: int, d: int)
    requires g > 0 && -g < g * d < g
    ensures d == 0
  {
    assert d >= 1 ==> g * d >= g;
    assert d <= -1 ==> g * d <= -g;
  }

  lemma CongWitness(q: Prime, a: int, b: int) returns (k: int)
    requires Cong(q, a, b)
    ensures a == b + k * q
  {
    k := a / q - b / q;
    assert a == q * (a / q) + a % q;
    assert b == q * (b / q) + b % q;
    assert k * q == q * (a / q) - q * (b / q);
  }

  lemma CongMod(q: Prime, a: int)
    ensures Cong(q, a % q, a)
    ensures 0 <= a < q ==> a % q == a
  {
    assert a == a % q + (a / q) * q;
    CongFrom(q, a, a % q, a / q);
  }

  lemma CongAdd(q: Prime, a: int, b: int, c: int, d: int)
    requires Cong(q, a, b) && Cong(q, c, d)
    ensures Cong(q, a + c, b + d)
    ensures Cong(q, a - c, b - d)
  {
    var k := CongWitness(q, a, b);
    var l := CongWitness(q, c, d);
    assert (k + l) * q == k * q + l * q && (k - l) * q == k * q - l * q;
    CongFrom(q, a + c, b + d, k + l);
    CongFrom(q, a - c, b - d, k - l);
  }

  lemma CongScale(q: Prime, c: int, a: int, b: int)
    requires Cong(q, a, b)
    ensures Cong(q, c * a, c * b)
  {
    var k := CongWitness(q, a, b);
    assert c * a == c * b + (c * k) * q by {
      assert c * (b + k * q) == c * b + c * (k * q);
      assert c * (k * q) == (c * k) * q;
    }
    CongFrom(q, c * a, c * b, c * k);
  }

  lemma CongMul(q: Prime, a: int, b: int, c: int, d: int)
    requires Cong(q, a, b) && Cong(q, c, d)
    ensures Cong(q, a * c, b * d)
  {
    CongScale(q, c, a, b);
    CongScale(q, b, c, d);
    assert c * a == a * c && c * b == b * c;
  }

  // ---- inverses, from primality ----

  /** The extended Euclidean algorithm: a common divisor that is a combination of a and b. */
  function Bezout(a: nat, b: nat): (r: (nat, int, int))
    requires a > 0 || b > 0
    ensures r.0 > 0 && r.0 == a * r.1 + b * r.2
    ensures a % r.0 == 0 && b % r.0 == 0
    decreases b
  {
    if b == 0 then
      (a, 1, 0)
    else
      var (g, x, y) := Bezout(b, a % b);
      BezoutStep(a, b, g, x, y);
      (g, y, x - (a / b) * y)
  }

  lemma BezoutStep(a: nat, b: nat, g: int, x: int, y: int)
    requires b > 0 && g > 0 && g == b * x + (a % b) * y
    requires b % g == 0 && (a % b) % g == 0
    ensures g == a * y + b * (x - (a / b) * y)
    ensures a % g == 0
  {
    var s, r := a / b, a % b;
    assert a == b * s + r;
    assert a * y == (b * s) * y + r * y;
    assert b * (x - s * y) == b * x - b * (s * y);
    assert b * (s * y) == (b * s) * y;
    var m, n := b / g, r / g;
    assert b == g * m && r == g * n;
    assert a == g * (m * s + n) by {
      assert (g * m) * s == g * (m * s);
    }
    MultipleMod(g, m * s + n);
  }

  lemma MultipleMod(g: int, k: int)
    requires g > 0
    ensures (g * k) % g == 0
  {
    var d := (g * k) / g - k;
    assert g * d == -((g * k) % g) by {
      assert g * k == g * ((g * k) / g) + (g * k) % g;
      assert g * d == g * ((g * k) / g) - g * k;
    }
    SmallMultiple(g, d);
  }

  /** The inverse of a residue that is not zero, and zero for zero. */
  function Inv(q: Prime, a: int): (r: int)
    ensures 0 <= r < q
    ensures a % q != 0 ==> Cong(q, a * r, 1)
    ensures a % q == 0 ==> r == 0
  {
    if a % q == 0 then
      0
    else
      var (g, x, y) := Bezout(a % q, q);
      InvCorrect(q, a, g, x, y);
      x % q
  }

  lemma CoprimeToPrime(q: Prime, b: int, g: int)
    requires 0 < b < q && g > 0 && b % g == 0 && q % g == 0
    ensures g == 1
  {
    assert b == g * (b / g);
    assert b / g >= 1;
    assert g * (b / g) >= g;
    assert g < q;
    assert IsPrime(q);
    assert Divides(g, q);
  }

  lemma InvCorrect(q: Prime, a: int, g: nat, x: int, y: int)
    requires a % q != 0 && g > 0
    requires g == (a % q) * x + q * y && (a % q) % g == 0 && q % g == 0
    ensures Cong(q, a * (x % q), 1)
  {
    var b := a % q;
    CoprimeToPrime(q, b, g);
    assert q * y == y * q && b * x == 1 + (-y) * q;
    CongFrom(q, b * x, 1, -y);
    CongMod(q, a);
    CongMod(q, x);
    CongMul(q, b, a, x, x % q);
  }
}
