/** Fermat's little theorem, from Bezout's identity and the binomial expansion. */
module NumberTheory {
  import opened ModArith

  predicate Divides(d: int, n: int)
    requires d > 0
  {
    n % d == 0
  }

  ghost predicate IsPrime(p: int) {
    p > 1 && forall d :: 1 < d < p ==> !Divides(d, p)
  }

  lemma DividesQuotient(d: int, n: int) returns (k: int)
    requires d > 0 && Divides(d, n)
    ensures n == k * d
  {
    k := n / d;
  }

  lemma DividesMultiple(d: int, k: int)
    requires d > 0
    ensures Divides(d, k * d)
  {
    DivModUnique(k * d, k, 0, d);
  }

  lemma DividesCombination(d: int, a: int, b: int, x: int, y: int)
    requires d > 0 && Divides(d, a) && Divides(d, b)
    ensures Divides(d, x * a + y * b)
  {
    var k := DividesQuotient(d, a);
    var l := DividesQuotient(d, b);
    calc {
      x * a + y * b;
      x * (k * d) + y * (l * d);
      (x * k + y * l) * d;
    }
    DividesMultiple(d, x * k + y * l);
  }

  /** The extended Euclidean algorithm, as a proof: the gcd is an integer combination. */
  lemma {:induction false} Bezout(a: nat, b: nat) returns (g: nat, x: int, y: int)
    requires a > 0 || b > 0
    ensures g > 0 && Divides(g, a) && Divides(g, b)
    ensures g == x * a + y * b
    decreases b
  {
    if b == 0 {
      DividesMultiple(a, 1);
      DividesMultiple(a, 0);
      return a, 1, 0;
    }
    var r := a % b;
    var x', y';
    g, x', y' := Bezout(b, r);
    var q := a / b;
    assert a == q * b + r;
    DividesCombination(g, b, r, q, 1);
    x, y := y', x' - y' * q;
    calc {
      x * a + y * b;
      y' * (q * b + r) + (x' - y' * q) * b;
      x' * b + y' * r;
      g;
    }
  }

  /** A number not divisible by a prime has an inverse modulo it. */
  lemma PrimeInverse(p: int, a: nat) returns (x: int, y: int)
    requires IsPrime(p) && !Divides(p, a)
    ensures 1 == x * a + y * p
  {
    var g;
    g, x, y := Bezout(a, p);
    var k := DividesQuotient(g, p);
    assert g <= p by {
      assert k >= 1;
      assert (k - 1) * g >= 0;
    }
  }

  /** Euclid's lemma. */
  lemma PrimeDividesFactor(p: int, a: int, b: int)
    requires IsPrime(p) && Divides(p, a * b)
    ensures Divides(p, a) || Divides(p, b)
  {
    if !Divides(p, a) {
      CongMod(a, p);
      assert !Divides(p, a % p);
      var x, y := PrimeInverse(p, a % p);
      var k := DividesQuotient(p, a * b);
      EuclidArithmetic(p, a, b, a / p, a % p, x, y, k);
      DividesMultiple(p, x * k + (y - x * (a / p)) * b);
    }
  }

  lemma EuclidArithmetic(p: int, a: int, b: int, q: int, r: int, x: int, y: int, k: int)
    requires a == q * p + r && 1 == x * r + y * p && a * b == k * p
    ensures b == (x * k + (y - x * q) * b) * p
  {
    calc {
      b;
      (x * (a - q * p) + y * p) * b;
      x * (a * b) + (y - x * q) * b * p;
      x * (k * p) + (y - x * q) * b * p;
      (x * k + (y - x * q) * b) * p;
    }
  }

  // ---------------------------------------------------------------- binomial expansion

  function Binomial(n: nat, k: nat): nat {
    if k == 0 then 1
    else if n == 0 then 0
    else Binomial(n - 1, k - 1) + Binomial(n - 1, k)
  }

  lemma {:induction false} BinomialAbsorption(n: nat, k: nat)
    requires n > 0 && k > 0
    ensures k * Binomial(n, k) == n * Binomial(n - 1, k - 1)
  {
    var c, d := Binomial(n - 1, k - 1), Binomial(n - 1, k);
    assert Binomial(n, k) == c + d;
    if n > 1 {
      BinomialAbsorption(n - 1, k);
      var d' := Binomial(n - 2, k - 1);
      assert k * d == (n - 1) * d';
      if k > 1 {
        BinomialAbsorption(n - 1, k - 1);
        var c' := Binomial(n - 2, k - 2);
        assert c == c' + d';
        AbsorptionStep(n, k, c, d, c', d');
      } else {
        assert c == d' == 1;
      }
    } else if k > 1 {
      assert c == d == 0;
    }
  }

  lemma AbsorptionStep(n: int, k: int, c: int, d: int, c': int, d': int)
    requires k * d == (n - 1) * d' && (k - 1) * c == (n - 1) * c' && c == c' + d'
    ensures k * (c + d) == n * c
  {
  }

  lemma {:induction false} BinomialEdge(n: nat, k: nat)
    requires k >= n
    ensures Binomial(n, k) == if k == n then 1 else 0
  {
    if n > 0 {
      BinomialEdge(n - 1, k - 1);
      BinomialEdge(n - 1, k);
    }
  }

  /** The sum of the binomial terms of degree at most k. */
  function Expansion(n: nat, k: nat, x: int): int {
    (if k == 0 then 0 else Expansion(n, k - 1, x)) + Binomial(n, k) * Pow(x, k)
  }

  lemma {:induction false} ExpansionStep(n: nat, k: nat, x: int)
    requires k > 0
    ensures Expansion(n + 1, k, x) == Expansion(n, k, x) + x * Expansion(n, k - 1, x)
  {
    var c, d, w := Binomial(n, k - 1), Binomial(n, k), Pow(x, k - 1);
    var low := if k == 1 then 0 else Expansion(n, k - 2, x);
    assert Expansion(n, k - 1, x) == low + c * w;
    assert Expansion(n + 1, k - 1, x) == Expansion(n, k - 1, x) + x * low by {
      if k == 1 {
        assert Expansion(n + 1, 0, x) == 1 == Expansion(n, 0, x);
      } else {
        ExpansionStep(n, k - 1, x);
      }
    }
    assert Binomial(n + 1, k) == c + d && Pow(x, k) == x * w;
    SplitTerm(c, d, w, x, low);
  }

  lemma SplitTerm(c: int, d: int, w: int, x: int, low: int)
    ensures x * low + (c + d) * (x * w) == d * (x * w) + x * (low + c * w)
  {
  }

  lemma ExpansionEdges(n: nat, x: int)
    ensures Expansion(0, 0, x) == 1 && Expansion(n, n + 1, x) == Expansion(n, n, x)
  {
    BinomialEdge(n, n + 1);
    assert 0 * Pow(x, n + 1) == 0;
  }

  lemma {:induction false} BinomialTheorem(n: nat, x: int)
    ensures Expansion(n, n, x) == Pow(1 + x, n)
  {
    hide Expansion;
    if n == 0 {
      ExpansionEdges(0, x);
    } else {
      BinomialTheorem(n - 1, x);
      ExpansionStep(n - 1, n, x);
      ExpansionEdges(n - 1, x);
      var inner := Expansion(n - 1, n - 1, x);
      assert (1 + x) * inner == inner + x * inner;
    }
  }

  // ---------------------------------------------------------------- Fermat

  lemma PrimeDividesBinomial(p: int, k: nat)
    requires IsPrime(p) && 0 < k < p
    ensures Divides(p, Binomial(p, k))
  {
    BinomialAbsorption(p, k);
    DividesMultiple(p, Binomial(p - 1, k - 1));
    assert Divides(p, k * Binomial(p, k)) by {
      assert p * Binomial(p - 1, k - 1) == Binomial(p - 1, k - 1) * p;
    }
    PrimeDividesFactor(p, k, Binomial(p, k));
    assert !Divides(p, k) by { DivModUnique(k, 0, k, p); }
  }

  lemma {:induction false} InnerTermsVanish(p: int, k: nat, x: int)
    requires IsPrime(p) && k < p
    ensures Cong(Expansion(p, k, x), 1, p)
  {
    if k > 0 {
      InnerTermsVanish(p, k - 1, x);
      PrimeDividesBinomial(p, k);
      var q := DividesQuotient(p, Binomial(p, k));
      assert Binomial(p, k) * Pow(x, k) == q * Pow(x, k) * p;
      CongFromDiff(Expansion(p, k, x), Expansion(p, k - 1, x), q * Pow(x, k), p);
    }
  }

  /** Fermat's little theorem. */
  lemma {:induction false} Fermat(p: int, x: nat)
    requires IsPrime(p)
    ensures Cong(Pow(x, p), x, p)
  {
    if x > 0 {
      Fermat(p, x - 1);
      BinomialTheorem(p, x - 1);
      BinomialEdge(p, p);
      InnerTermsVanish(p, p - 1, x - 1);
      CongAdd(Expansion(p, p - 1, x - 1), 1, Pow(x - 1, p), x - 1, p);
    }
  }

  lemma FermatUnit(p: int, x: nat)
    requires IsPrime(p) && !Divides(p, x)
    ensures Cong(Pow(x, p - 1), 1, p)
  {
    Fermat(p, x);
    var w := Pow(x, p - 1);
    var k := DiffFromCong(x * w, x, p);
    assert x * (w - 1) == k * p;
    DividesMultiple(p, k);
    PrimeDividesFactor(p, x, w - 1);
    var l := DividesQuotient(p, w - 1);
    CongFromDiff(w, 1, l, p);
  }
}
