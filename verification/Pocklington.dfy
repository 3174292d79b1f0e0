/**
 * Pocklington's primality criterion.
 *
 * A certificate for n names a prime q and a base b with b^q = 1 and b - 1 invertible modulo n. Then b
 * has order q modulo every prime divisor d of n, so q divides d - 1; if q is large enough, no prime
 * divisor of n can be at most the square root of n.
 */
module Pocklington {
  import opened ModArith
  import opened NumberTheory

  lemma MulMonotone(x: int, y: int, z: nat)
    requires x <= y
    ensures x * z <= y * z && z * x <= z * y
  {
    assert (y - x) * z >= 0;
  }

  lemma ProductLess(a: nat, b: nat, c: nat)
    requires a > c && b > c
    ensures a * b >= (c + 1) * (c + 1)
  {
    MulMonotone(c + 1, a, b);
    MulMonotone(c + 1, b, c + 1);
  }

  lemma CofactorBounds(n: nat, d: nat, e: int)
    requires 1 < d < n && n == e * d
    ensures 1 < e < n
  {
    assert e <= 1 ==> e * d <= d;
    assert e >= n ==> e * d >= e * 2;
  }

  lemma TrialDivision(n: nat, k: nat)
    requires 1 < n < (k + 1) * (k + 1)
    requires forall d :: 2 <= d <= k ==> !Divides(d, n)
    ensures IsPrime(n)
  {
    forall d | 1 < d < n
      ensures !Divides(d, n)
    {
      if Divides(d, n) {
        var e := DividesQuotient(d, n);
        CofactorBounds(n, d, e);
        assert Divides(e, n) by { DividesMultiple(e, d); }
        if d > k && e > k {
          ProductLess(e, d, k);
        }
      }
    }
  }

  /** Every number above 1 is prime or has a prime divisor at most its square root. */
  lemma {:induction false} SmallPrimeDivisor(n: nat, d: nat) returns (p: nat)
    requires 1 < d <= n && forall c :: 1 < c < d ==> !Divides(c, n)
    ensures IsPrime(p) && Divides(p, n) && (p == n || p * p <= n)
    decreases n - d
  {
    if Divides(d, n) {
      LeastDivisorPrime(n, d);
      return d;
    }
    DividesMultiple(n, 1);
    p := SmallPrimeDivisor(n, d + 1);
  }

  lemma LeastDivisorPrime(n: nat, d: nat)
    requires 1 < d <= n && Divides(d, n) && forall c :: 1 < c < d ==> !Divides(c, n)
    ensures IsPrime(d) && (d == n || d * d <= n)
  {
    var e := DividesQuotient(d, n);
    forall c | 1 < c < d
      ensures !Divides(c, d)
    {
      if Divides(c, d) {
        var k := DividesQuotient(c, d);
        assert n == e * k * c;
        DividesMultiple(c, e * k);
      }
    }
    if d < n {
      CofactorBounds(n, d, e);
      DividesMultiple(e, d);
      assert Divides(e, n) by { assert d * e == e * d; }
      CofactorSquare(n, d, e);
    }
  }

  lemma CofactorSquare(n: nat, d: nat, e: nat)
    requires n == e * d && e >= d
    ensures d * d <= n
  {
    assert (e - d) * d >= 0;
  }

  lemma CongDivisor(a: int, b: int, n: int, d: int)
    requires n > 0 && d > 0 && Divides(d, n) && Cong(a, b, n)
    ensures Cong(a, b, d)
  {
    var k := DiffFromCong(a, b, n);
    var l := DividesQuotient(d, n);
    assert k * n == (k * l) * d;
    CongFromDiff(a, b, k * l, d);
  }

  /** Bezout coefficients of 1, shifted by multiples of m*q so that neither is negative. */
  lemma ShiftCoefficients(x: int, y: int, k: nat, m: nat, q: nat)
    requires 1 == x * m + y * q && m > 0 && q > 0 && y + k > 0
    ensures (y + k * m) * q == 1 + (k * q - x) * m
    ensures y + k * m >= 0 && k * q - x >= 0
  {
    var s, t := y + k * m, k * q - x;
    assert s * q == y * q + k * m * q && t * m == k * q * m - x * m;
    assert k * m >= k;
    NonNegativeFactor(s, q, t, m);
  }

  lemma NonNegativeFactor(s: int, q: int, t: int, m: int)
    requires s > 0 && q > 0 && m > 0 && s * q == 1 + t * m
    ensures t >= 0
  {
    assert s * q >= 1;
    assert t <= -1 ==> t * m <= -1;
  }

  /** An element of prime order q modulo a prime d forces q to divide d - 1. */
  lemma OrderDividesGroup(d: nat, q: nat, b: nat)
    requires IsPrime(d) && IsPrime(q) && !Divides(d, b)
    requires Cong(Pow(b, q), 1, d) && !Cong(b, 1, d)
    ensures Divides(q, d - 1)
  {
    if !Divides(q, d - 1) {
      var m := d - 1;
      var x, y := PrimeInverse(q, m);
      // 1 = x*m + y*q; shift by multiples of q*m to make the coefficient of q positive.
      var k: nat := if y > 0 then 0 else 1 - y;
      ShiftCoefficients(x, y, k, m, q);
      UnitCollapses(d, q, b, y + k * m, k * q - x);
    }
  }

  lemma UnitCollapses(d: nat, q: nat, b: nat, s: nat, t: nat)
    requires IsPrime(d) && !Divides(d, b) && Cong(Pow(b, q), 1, d) && s * q == 1 + t * (d - 1)
    ensures Cong(b, 1, d)
  {
    var m := d - 1;
    PowerOfUnit(b, q, s, d);
    FermatUnit(d, b);
    PowerOfUnit(b, m, t, d);
    assert q * s == 1 + m * t;
    PowAdd(b, 1, m * t);
    assert Pow(b, 1) == b;
    CongMul(b, b, Pow(b, m * t), 1, d);
  }

  lemma PowerOfUnit(b: int, e: nat, k: nat, n: int)
    requires n > 0 && Cong(Pow(b, e), 1, n)
    ensures e * k >= 0 && Cong(Pow(b, e * k), 1, n)
  {
    PowMul(b, e, k);
    PowCong(Pow(b, e), 1, k, n);
    PowOne(k);
  }

  lemma CertifiedDivisor(n: nat, q: nat, b: nat, inverse: int, d: nat)
    requires n > 1 && IsPrime(q) && b > 0
    requires PowerIs(n, b, q, 1) && (b - 1) * inverse % n == 1
    requires IsPrime(d) && Divides(d, n)
    ensures Divides(q, d - 1)
  {
    CongDivisor(Pow(b, q), 1, n, d);
    DivModUnique(1, 0, 1, n);
    DivModUnique(1, 0, 1, d);
    CongDivisor((b - 1) * inverse, 1, n, d);
    if Cong(b, 1, d) {
      CongAdd(b, 1, -1, -1, d);
      CongMul(b - 1, 0, inverse, inverse, d);
    }
    if Divides(d, b) {
      DivModUnique(0, 0, 0, d);
      CongMul(b, 0, Pow(b, q - 1), Pow(b, q - 1), d);
    }
    OrderDividesGroup(d, q, b);
  }

  lemma Certify(n: nat, q: nat, b: nat, inverse: int)
    requires n > 1 && IsPrime(q) && b > 0 && q * q >= n
    requires PowerIs(n, b, q, 1) && (b - 1) * inverse % n == 1
    ensures IsPrime(n)
  {
    var d := SmallPrimeDivisor(n, 2);
    CertifiedDivisor(n, q, b, inverse, d);
    LargeDivisor(d, q);
  }

  /** A divisor d > 1 with m dividing d - 1 exceeds m, and its square exceeds m^2. */
  lemma LargeDivisor(d: nat, m: nat)
    requires d > 1 && m > 0 && Divides(m, d - 1)
    ensures d > m && d * d > m * m
  {
    var k := DividesQuotient(m, d - 1);
    assert k <= 0 ==> k * m <= 0;
    assert (k - 1) * m >= 0;
    assert (k - 1) * m == k * m - m;
    SquareLess(m, d);
  }

  lemma SquareLess(m: nat, d: nat)
    requires m < d
    ensures m * m < d * d
  {
    assert d * d - m * m == (d - m) * (d + m);
    assert (d - m) * (d + m) > 0;
  }

  /** A prime and a number it does not divide divide a number together. */
  lemma CoprimeProduct(q: nat, m: nat, x: nat)
    requires IsPrime(q) && m > 0 && !Divides(q, m) && Divides(m, x) && Divides(q, x)
    ensures m * q > 0 && Divides(m * q, x)
  {
    var k := DividesQuotient(m, x);
    PrimeDividesFactor(q, k, m);
    var l := DividesQuotient(q, k);
    Reassociate(l, q, m);
    ProductPositive(m, q);
    DividesMultiple(m * q, l);
  }

  lemma Reassociate(a: int, b: int, c: int)
    ensures a * b * c == a * (c * b)
  {
    assert a * b * c == a * (b * c);
  }

  lemma ProductPositive(a: int, b: int)
    requires a > 0 && b > 0
    ensures a * b > 0
  {
  }

  lemma CertifyTwo(n: nat, q1: nat, b1: nat, inverse1: int, q2: nat, b2: nat, inverse2: int)
    requires n > 1 && IsPrime(q1) && IsPrime(q2) && b1 > 0 && b2 > 0
    requires !Divides(q2, q1) && (q1 * q2) * (q1 * q2) >= n
    requires PowerIs(n, b1, q1, 1) && (b1 - 1) * inverse1 % n == 1
    requires PowerIs(n, b2, q2, 1) && (b2 - 1) * inverse2 % n == 1
    ensures IsPrime(n)
  {
    var d := SmallPrimeDivisor(n, 2);
    CertifiedDivisor(n, q1, b1, inverse1, d);
    CertifiedDivisor(n, q2, b2, inverse2, d);
    CoprimeProduct(q2, q1, d - 1);
    LargeDivisor(d, q1 * q2);
  }

  lemma CertifyThree(n: nat, q1: nat, b1: nat, inverse1: int, q2: nat, b2: nat, inverse2: int,
                     q3: nat, b3: nat, inverse3: int)
    requires n > 1 && IsPrime(q1) && IsPrime(q2) && IsPrime(q3) && b1 > 0 && b2 > 0 && b3 > 0
    requires !Divides(q2, q1) && q1 * q2 > 0 && !Divides(q3, q1 * q2)
    requires (q1 * q2 * q3) * (q1 * q2 * q3) >= n
    requires PowerIs(n, b1, q1, 1) && (b1 - 1) * inverse1 % n == 1
    requires PowerIs(n, b2, q2, 1) && (b2 - 1) * inverse2 % n == 1
    requires PowerIs(n, b3, q3, 1) && (b3 - 1) * inverse3 % n == 1
    ensures IsPrime(n)
  {
    var d := SmallPrimeDivisor(n, 2);
    CertifiedDivisor(n, q1, b1, inverse1, d);
    CertifiedDivisor(n, q2, b2, inverse2, d);
    CertifiedDivisor(n, q3, b3, inverse3, d);
    CoprimeProduct(q2, q1, d - 1);
    CoprimeProduct(q3, q1 * q2, d - 1);
    LargeDivisor(d, q1 * q2 * q3);
  }

  /** x is b^e modulo n. */
  ghost predicate PowerIs(n: int, b: int, e: nat, x: int) {
    n > 0 && Cong(x, Pow(b, e), n)
  }

  /** Two more exponent bits d, with c = b^d, take x = b^e to y = b^(4e + d) modulo n. */
  lemma TwoBits(n: int, b: int, e: nat, x: int, d: nat, c: int, y: int) returns (f: nat)
    requires PowerIs(n, b, e, x) && PowerIs(n, b, d, c)
    requires x * x * x * x * c % n == y
    ensures f == 4 * e + d && PowerIs(n, b, f, y)
  {
    f := 4 * e + d;
    Square(x, b, e, n);
    Square(x * x, b, 2 * e, n);
    var x4 := (x * x) * (x * x);
    assert x * x * x * x == x4;
    CongMul(x4, Pow(b, 4 * e), c, Pow(b, d), n);
    PowAdd(b, 4 * e, d);
    CongMod(x4 * c, n);
  }

  /** b, b^2 and b^3 modulo n. */
  lemma SmallPowers(n: int, b: int, b2: int, b3: int)
    requires n > 0 && b * b % n == b2 && b * b * b % n == b3
    ensures PowerIs(n, b, 0, 1) && PowerIs(n, b, 1, b) && PowerIs(n, b, 2, b2) && PowerIs(n, b, 3, b3)
  {
    assert Pow(b, 1) == b;
    assert Pow(b, 2) == b * b;
    assert Pow(b, 3) == b * (b * b) == b * b * b;
    CongMod(b * b, n);
    CongMod(b * b * b, n);
  }

  lemma Square(x: int, b: int, e: nat, n: int)
    requires n > 0 && Cong(x, Pow(b, e), n)
    ensures Cong(x * x, Pow(b, 2 * e), n)
  {
    CongMul(x, Pow(b, e), x, Pow(b, e), n);
    PowAdd(b, e, e);
  }
}
