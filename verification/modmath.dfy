/** Number theory behind the reference semantics that the sxops doc-comments promise: exact
 *  powers, greatest common divisors with Bezout coefficients, modular inverses and least common
 *  multiples. Everything is on unbounded integers. */
module ModMath {
  import opened StatusCodes

  function Pow(b: int, e: nat): int
    decreases e
  {
    if e == 0 then 1 else b * Pow(b, e - 1)
  }

  /** `b ^ e mod m`, with the non-negative residue the engine returns. */
  function ModPow(b: int, e: nat, m: int): (r: int)
    requires m > 0
    ensures 0 <= r < m
  {
    Pow(b, e) % m
  }

  predicate IsPrime(n: int)
  {
    n > 1 && forall d :: 1 < d < n ==> n % d != 0
  }

  // ---------------------------------------------------------------------------------------
  // Modular arithmetic facts

  lemma MulNonneg(a: int, b: int)
    requires a >= 0 && b >= 0
    ensures a * b >= 0
  {
  }

  /** A non-zero multiple of m is at least m away from zero. */
  lemma MulSign(m: int, k: int)
    requires m > 0
    ensures k >= 1 ==> m * k >= m
    ensures k <= -1 ==> m * k <= -m
  {
    if k >= 1 {
      MulNonneg(m, k - 1);
      assert m * k == m * (k - 1) + m;
    } else if k <= -1 {
      MulNonneg(m, -k - 1);
      assert m * (-k) == m * (-k - 1) + m;
    }
  }

  lemma MulLe(c: int, a: int, b: int)
    requires c >= 0 && a <= b
    ensures c * a <= c * b
  {
    MulNonneg(c, b - a);
    assert c * b - c * a == c * (b - a);
  }

  /** Quotient and remainder are the only pair with x == m*q + r and 0 <= r < m. */
  lemma DivModUnique(x: int, m: int, q: int, r: int)
    requires m > 0 && 0 <= r < m && x == m * q + r
    ensures x % m == r && x / m == q
  {
    var q', r' := x / m, x % m;
    assert m * (q - q') == r' - r;
    MulSign(m, q - q');
  }

  lemma ModMulAdd(a: int, t: int, m: int)
    requires m > 0
    ensures (a + m * t) % m == a % m
  {
    assert a + m * t == m * (a / m + t) + a % m;
    DivModUnique(a + m * t, m, a / m + t, a % m);
  }

  lemma ModOfMultiple(t: int, m: int)
    requires m > 0
    ensures (m * t) % m == 0
  {
    DivModUnique(m * t, m, t, 0);
  }

  /** Euclidean division written out: a == q*b + r with the quotient and the remainder. */
  lemma DivDecompose(a: int, b: int) returns (q: int, r: int)
    requires b > 0
    ensures a == q * b + r && q == a / b && r == a % b
  {
    q, r := a / b, a % b;
  }

  lemma ProductExpand(m: int, qa: int, ra: int, qb: int, rb: int)
    ensures (m * qa + ra) * (m * qb + rb) == ra * rb + m * (qa * (m * qb + rb) + ra * qb)
  {
    calc {
      (m * qa + ra) * (m * qb + rb);
      (m * qa) * (m * qb + rb) + ra * (m * qb + rb);
      { assert (m * qa) * (m * qb + rb) == m * (qa * (m * qb + rb)); }
      m * (qa * (m * qb + rb)) + ra * (m * qb) + ra * rb;
      { assert ra * (m * qb) == m * (ra * qb); }
      ra * rb + m * (qa * (m * qb + rb) + ra * qb);
    }
  }

  lemma MulMod(a: int, b: int, m: int)
    requires m > 0
    ensures (a * b) % m == ((a % m) * (b % m)) % m
  {
    var qa, ra := DivDecompose(a, m);
    var qb, rb := DivDecompose(b, m);
    assert a * b == ra * rb + m * (qa * b + ra * qb) by {
      assert a == m * qa + ra && b == m * qb + rb;
      ProductExpand(m, qa, ra, qb, rb);
    }
    ModMulAdd(ra * rb, qa * b + ra * qb, m);
  }

  lemma SubMod(a: int, b: int, m: int)
    requires m > 0
    ensures (a - b) % m == ((a % m) - (b % m)) % m
  {
    var qa, ra := DivDecompose(a, m);
    var qb, rb := DivDecompose(b, m);
    assert a - b == (ra - rb) + m * (qa - qb);
    ModMulAdd(ra - rb, qa - qb, m);
  }

  lemma AddMod(a: int, b: int, m: int)
    requires m > 0
    ensures (a + b) % m == ((a % m) + (b % m)) % m
  {
    var qa, ra := DivDecompose(a, m);
    var qb, rb := DivDecompose(b, m);
    assert a + b == (ra + rb) + m * (qa + qb);
    ModMulAdd(ra + rb, qa + qb, m);
  }

  /** Two integers are congruent modulo m exactly when m divides their difference. */
  lemma CongruentIff(a: int, b: int, m: int)
    requires m > 0
    ensures a % m == b % m <==> (a - b) % m == 0
  {
    SubMod(a, b, m);
    var d := (a % m) - (b % m);
    if d < 0 {
      DivModUnique(d, m, -1, d + m);
    } else {
      DivModUnique(d, m, 0, d);
    }
  }

  lemma ModMod(a: int, m: int)
    requires m > 0
    ensures (a % m) % m == a % m
  {
    DivModUnique(a % m, m, 0, a % m);
  }

  // ---------------------------------------------------------------------------------------
  // Powers

  lemma {:induction false} PowAdd(b: int, e1: nat, e2: nat)
    ensures Pow(b, e1 + e2) == Pow(b, e1) * Pow(b, e2)
  {
    if e1 > 0 {
      PowAdd(b, e1 - 1, e2);
      assert Pow(b, e1 + e2) == b * Pow(b, e1 - 1 + e2);
      assert b * (Pow(b, e1 - 1) * Pow(b, e2)) == (b * Pow(b, e1 - 1)) * Pow(b, e2);
    }
  }

  /** One more factor: a * b == a * (b - 1) + a. */
  lemma MulStep(a: int, b: int)
    ensures a * b == a * (b - 1) + a
  {
  }

  lemma {:induction false} PowMul(b: int, e1: nat, e2: nat)
    ensures Pow(b, e1 * e2) == Pow(Pow(b, e1), e2)
  {
    if e2 > 0 {
      MulNonneg(e1, e2 - 1);
      var k: nat := e1 * (e2 - 1);
      PowMul(b, e1, e2 - 1);
      MulStep(e1, e2);
      PowAdd(b, k, e1);
      var x, y := Pow(b, e1), Pow(b, k);
      assert Pow(b, e1 * e2) == y * x;
      assert Pow(x, e2) == x * y;
    }
  }

  lemma {:induction false} PowOfOne(e: nat)
    ensures Pow(1, e) == 1
  {
    if e > 0 {
      PowOfOne(e - 1);
    }
  }

  lemma {:induction false} PowPositive(b: int, e: nat)
    requires b > 0
    ensures Pow(b, e) > 0
  {
    if e > 0 {
      PowPositive(b, e - 1);
      MulSign(Pow(b, e - 1), b);
    }
  }

  /** Reducing the base first does not change a modular power. */
  lemma {:induction false} PowMod(b: int, e: nat, m: int)
    requires m > 0
    ensures Pow(b % m, e) % m == Pow(b, e) % m
  {
    if e > 0 {
      PowMod(b, e - 1, m);
      var x, y := b % m, Pow(b % m, e - 1);
      MulMod(x, y, m);
      ModMod(b, m);
      MulMod(b, Pow(b, e - 1), m);
      assert Pow(b % m, e) == x * y;
    }
  }

  /** Every power of a unit residue 1 is 1 modulo p. */
  lemma PowOfUnit(x: int, t: nat, p: int)
    requires p > 1 && x % p == 1
    ensures Pow(x, t) % p == 1
  {
    PowMod(x, t, p);
    PowOfOne(t);
    var u := x % p;
    assert Pow(u, t) == 1;
    DivModUnique(1, p, 0, 1);
  }

  /** When g^q = 1 (mod p), so is every power g^(q*t). */
  lemma PowOfUnitPower(g: int, q: nat, t: nat, p: int)
    requires p > 1 && Pow(g, q) % p == 1
    ensures Pow(g, q * t) % p == 1
  {
    PowMul(g, q, t);
    PowOfUnit(Pow(g, q), t, p);
  }

  /** A factor that is 1 modulo p drops out of a product modulo p. */
  lemma DropUnitFactor(big: int, small: int, p: int)
    requires p > 1 && big % p == 1
    ensures (big * small) % p == small % p
  {
    MulMod(big, small, p);
    ModMod(small, p);
  }

  /** When g^q = 1 (mod p), exponents of g only matter modulo q. */
  lemma PowReduceExponent(g: int, e: nat, q: nat, p: int)
    requires p > 1 && q > 0 && Pow(g, q) % p == 1
    ensures Pow(g, e) % p == Pow(g, e % q) % p
  {
    var t: nat, rn: nat := e / q, e % q;
    MulNonneg(q, t);
    var qt: nat := q * t;
    assert e == qt + rn;
    PowAdd(g, qt, rn);
    PowOfUnitPower(g, q, t, p);
    DropUnitFactor(Pow(g, qt), Pow(g, rn), p);
  }

  // ---------------------------------------------------------------------------------------
  // Greatest common divisor, Bezout coefficients, inverses

  function Gcd(a: nat, b: nat): nat
    decreases b
  {
    if b == 0 then a else Gcd(b, a % b)
  }

  /** If d divides x and y it divides every k*x + y. */
  lemma DividesLinear(d: int, k: int, x: int, y: int)
    requires d > 0 && x % d == 0 && y % d == 0
    ensures (k * x + y) % d == 0
  {
    var x1, y1 := x / d, y / d;
    assert x == d * x1 && y == d * y1;
    assert k * x + y == d * (k * x1 + y1);
    ModOfMultiple(k * x1 + y1, d);
  }

  lemma {:induction false} GcdDivides(a: nat, b: nat)
    requires a > 0 || b > 0
    ensures Gcd(a, b) > 0 && a % Gcd(a, b) == 0 && b % Gcd(a, b) == 0
    decreases b
  {
    if b > 0 {
      var q, r := DivDecompose(a, b);
      GcdDivides(b, r);
      var g := Gcd(b, r);
      assert Gcd(a, b) == g;
      DividesLinear(g, q, b, r);
    }
  }

  /** A positive multiple of d is at least d. */
  lemma DivisorAtMost(d: int, x: int)
    requires d > 0 && x > 0 && x % d == 0
    ensures d <= x
  {
    var k := x / d;
    assert x == d * k;
    MulSign(d, k);
    MulSign(d, -k);
  }

  lemma BezoutStep(a: int, b: int, q: int, m: int, x: int, y: int, g: int)
    requires a == b * q + m && b * x + m * y == g
    ensures a * y + b * (x - q * y) == g
  {
    calc {
      a * y + b * (x - q * y);
      (b * q + m) * y + b * x - b * (q * y);
      { assert (b * q) * y == b * (q * y); }
      m * y + b * x;
    }
  }

  /** Bezout coefficients (extended Euclid): a*x + b*y == Gcd(a, b). */
  function ExtGcd(a: nat, b: nat): (r: (int, int))
    decreases b
    ensures a * r.0 + b * r.1 == Gcd(a, b)
  {
    if b == 0 then (1, 0)
    else
      var q, m := a / b, a % b;
      var c := ExtGcd(b, m);
      BezoutStep(a, b, q, m, c.0, c.1, Gcd(a, b));
      (c.1, c.0 - q * c.1)
  }

  /** A Bezout identity (a mod m)*s + m*t == 1 makes s mod m an inverse of a. */
  lemma BezoutInverse(a: int, m: int, s: int, t: int)
    requires m > 0 && (a % m) * s + m * t == 1
    ensures (a * (s % m)) % m == 1 % m
  {
    MulMod(a, s % m, m);
    ModMod(s, m);
    MulMod(a % m, s, m);
    ModMod(a, m);
    ModMulAdd((a % m) * s, t, m);
  }

  /** The inverse of a modulo m, when one exists. */
  function Inverse(a: int, m: nat): (r: Option<nat>)
    requires m > 0
    ensures r.Some? ==> r.value < m && (a * r.value) % m == 1 % m
    ensures r.None? <==> Gcd(a % m, m) != 1
  {
    if Gcd(a % m, m) != 1 then None
    else
      var c := ExtGcd(a % m, m);
      BezoutInverse(a, m, c.0, c.1);
      Some(c.0 % m)
  }

  /** Reducing modulo m keeps divisibility by a divisor of m. */
  lemma DividesMod(g: int, x: int, m: int)
    requires g > 0 && m > 0 && m % g == 0 && x % g == 0
    ensures (x % m) % g == 0
  {
    var k, r := DivDecompose(x, m);
    assert r == -k * m + x;
    DividesLinear(g, -k, m, x);
  }

  lemma DividesProduct(g: int, x: int, z: int)
    requires g > 0 && x % g == 0
    ensures (x * z) % g == 0
  {
    DividesLinear(g, z, x, 0);
    assert z * x + 0 == x * z;
  }

  /** A divisor of m and of a mod m divides a. */
  lemma DividesFromResidue(g: int, a: int, m: int)
    requires g > 0 && m > 0 && m % g == 0 && (a % m) % g == 0
    ensures a % g == 0
  {
    var k, r := DivDecompose(a, m);
    DividesLinear(g, k, m, r);
    assert k * m + r == a;
  }

  /** A common divisor of m and of a mod m, when a has an inverse modulo m, is 1. */
  lemma CommonDivisorOfUnit(a: int, m: int, z: int, g: int)
    requires m > 1 && g > 0 && m % g == 0 && (a % m) % g == 0 && (a * z) % m == 1
    ensures g == 1
  {
    DividesFromResidue(g, a, m);
    DividesProduct(g, a, z);
    DividesMod(g, a * z, m);
    DivisorAtMost(g, 1);
  }

  /** Any multiplier that maps a to 1 modulo m forces a and m to be coprime. */
  lemma InverseNeedsCoprime(a: int, m: nat, z: int)
    requires m > 0
    ensures (a * z) % m == 1 % m ==> Gcd(a % m, m) == 1
  {
    if (a * z) % m == 1 % m {
      var r := a % m;
      GcdDivides(r, m);
      if m > 1 {
        CommonDivisorOfUnit(a, m, z, Gcd(r, m));
      } else {
        assert r == 0;
        assert Gcd(0, 1) == Gcd(1, 0);
      }
    }
  }

  /** When Inverse finds nothing, no multiplier maps a to 1 modulo m. */
  lemma NoInverse(a: int, m: nat, z: int)
    requires m > 0 && Inverse(a, m).None?
    ensures (a * z) % m != 1 % m
  {
    InverseNeedsCoprime(a, m, z);
  }

  /** Every residue that is not zero has an inverse modulo a prime. */
  lemma InverseModPrime(a: int, m: nat)
    requires IsPrime(m) && a % m != 0
    ensures Inverse(a, m).Some?
  {
    var g := Gcd(a % m, m);
    GcdDivides(a % m, m);
    DivisorAtMost(g, a % m);
    assert m % g == 0;
  }

  /** Least common multiple: a common multiple of a and b (lcm of the RSA key generation). */
  function Lcm(a: nat, b: nat): (l: nat)
    requires a > 0 && b > 0
    ensures l > 0 && l % a == 0 && l % b == 0
  {
    GcdDivides(a, b);
    var g := Gcd(a, b);
    var ag, bg := a / g, b / g;
    CommonMultiple(a, b, g, ag, bg);
    a * bg
  }

  lemma CancelFactor(g: int, u: int, v: int)
    requires g > 0 && g * u == g * v
    ensures u == v
  {
    assert g * (u - v) == 0;
    MulSign(g, u - v);
  }

  lemma CancelFactorLeft(g: int, a: int, b: int, u: int, v: int)
    requires g > 0 && (g * a) * u == (g * b) * v
    ensures a * u == b * v
  {
    assert (g * a) * u == g * (a * u);
    assert (g * b) * v == g * (b * v);
    CancelFactor(g, a * u, b * v);
  }

  /** Dividing Bezout's identity a*x + b*y == g by g. */
  lemma BezoutReduced(g: int, ag: int, bg: int, x: int, y: int)
    requires g > 0 && (g * ag) * x + (g * bg) * y == g
    ensures ag * x + bg * y == 1
  {
    assert (g * ag) * x + (g * bg) * y == g * (ag * x + bg * y);
    CancelFactor(g, ag * x + bg * y, 1);
  }

  /** With coprime cofactors ag*x + bg*y == 1, bg divides every i with ag*i == bg*j. */
  lemma CofactorDivides(ag: int, bg: int, x: int, y: int, i: int, j: int)
    requires ag * x + bg * y == 1 && ag * i == bg * j
    ensures i == bg * (j * x + i * y)
  {
    calc {
      i;
      i * (ag * x + bg * y);
      (ag * i) * x + bg * (i * y);
      (bg * j) * x + bg * (i * y);
      bg * (j * x + i * y);
    }
  }

  /** The integer core of LcmDivides: with a == g*ag, b == g*bg, Bezout's a*x + b*y == g and
   *  m == a*i == b*j, m is a multiple of a*bg. */
  lemma MultipleOfLcm(g: int, ag: int, bg: int, x: int, y: int, i: int, j: int)
    requires g > 0 && (g * ag) * x + (g * bg) * y == g && (g * ag) * i == (g * bg) * j
    ensures (g * ag) * i == ((g * ag) * bg) * (j * x + i * y)
  {
    BezoutReduced(g, ag, bg, x, y);
    CancelFactorLeft(g, ag, bg, i, j);
    CofactorDivides(ag, bg, x, y, i, j);
    assert (g * ag) * (bg * (j * x + i * y)) == ((g * ag) * bg) * (j * x + i * y);
  }

  lemma ExactQuotient(x: int, d: int)
    requires d > 0 && x % d == 0
    ensures x == d * (x / d)
  {
    DivModUnique(x, d, x / d, 0);
  }

  /** Every common multiple m of a and b is a multiple of Lcm(a, b). */
  lemma LcmDivides(a: nat, b: nat, m: int)
    requires a > 0 && b > 0 && m % a == 0 && m % b == 0
    ensures m % Lcm(a, b) == 0
  {
    GcdDivides(a, b);
    var g := Gcd(a, b);
    var ag, bg := a / g, b / g;
    ExactQuotient(a, g);
    ExactQuotient(b, g);
    var c := ExtGcd(a, b);
    var i, j := m / a, m / b;
    ExactQuotient(m, a);
    ExactQuotient(m, b);
    MultipleOfLcm(g, ag, bg, c.0, c.1, i, j);
    ModOfMultiple(j * c.0 + i * c.1, a * bg);
  }

  /** Lcm(a, b) divides every common multiple of a and b, so it is the least positive one. */
  lemma LcmLeast(a: nat, b: nat)
    requires a > 0 && b > 0
    ensures forall m: int :: m % a == 0 && m % b == 0 ==> m % Lcm(a, b) == 0
    ensures forall m: int :: m > 0 && m % a == 0 && m % b == 0 ==> Lcm(a, b) <= m
  {
    forall m: int | m % a == 0 && m % b == 0
      ensures m % Lcm(a, b) == 0
    {
      LcmDivides(a, b, m);
    }
    forall m: int | m > 0 && m % a == 0 && m % b == 0
      ensures Lcm(a, b) <= m
    {
      LcmDivides(a, b, m);
      DivisorAtMost(Lcm(a, b), m);
    }
  }

  /** With a == g*ag and b == g*bg, a*bg is a positive common multiple of a and b. */
  lemma CommonMultiple(a: int, b: int, g: int, ag: int, bg: int)
    requires a > 0 && b > 0 && g > 0 && a % g == 0 && b % g == 0 && ag == a / g && bg == b / g
    ensures a * bg > 0 && (a * bg) % a == 0 && (a * bg) % b == 0
  {
    assert b == bg * g && a == ag * g;
    MulSign(g, bg);
    MulSign(a, bg);
    SwapFactor(a, b, g, ag, bg);
    ModOfMultiple(bg, a);
    ModOfMultiple(ag, b);
  }

  /** (g*ag)*bg == ag*(g*bg). */
  lemma SwapFactor(a: int, b: int, g: int, ag: int, bg: int)
    requires a == ag * g && b == bg * g
    ensures a * bg == b * ag
  {
    assert (ag * g) * bg == ag * (g * bg);
  }

  /** A congruence modulo m carries over to every divisor of m. */
  lemma CongruenceToDivisor(x: int, y: int, m: int, d: int)
    requires m > 0 && d > 0 && m % d == 0 && x % m == y % m
    ensures x % d == y % d
  {
    CongruentIff(x, y, m);
    var t := (x - y) / m;
    assert x - y == m * t;
    var md := m / d;
    assert m == d * md;
    assert x - y == d * (md * t);
    ModOfMultiple(md * t, d);
    CongruentIff(x, y, d);
  }

  /** Congruences modulo m add. */
  lemma CongAdd(a: int, b: int, c: int, d: int, m: int)
    requires m > 0 && a % m == b % m && c % m == d % m
    ensures (a + c) % m == (b + d) % m
  {
    AddMod(a, c, m);
    AddMod(b, d, m);
  }

  /** Congruences modulo m multiply. */
  lemma CongMul(a: int, b: int, c: int, d: int, m: int)
    requires m > 0 && a % m == b % m && c % m == d % m
    ensures (a * c) % m == (b * d) % m
  {
    MulMod(a, c, m);
    MulMod(b, d, m);
  }
}
