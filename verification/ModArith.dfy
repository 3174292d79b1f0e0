/** Congruences and powers of unbounded integers, the arithmetic vocabulary of the P-256 proofs. */
module ModArith {

  function Pow(b: int, e: nat): int {
    if e == 0 then 1 else b * Pow(b, e - 1)
  }

  /** a and b leave the same remainder modulo m. */
  predicate Cong(a: int, b: int, m: int)
    requires m > 0
  {
    a % m == b % m
  }

  lemma DivModUnique(x: int, q: int, r: int, m: int)
    requires m > 0 && 0 <= r < m && x == q * m + r
    ensures x / m == q && x % m == r
  {
    var d := x / m - q;
    assert d * m == r - x % m by {
      assert x == x / m * m + x % m;
      assert d * m == x / m * m - q * m;
    }
    assert d >= 1 ==> d * m >= m;
    assert d <= -1 ==> d * m <= -m;
  }

  lemma FactorLess(h: nat, m: int, n: int)
    requires h * m < h * n
    ensures m < n
  {
    var d := m - n;
    assert h * m == h * n + h * d;
    assert d >= 0 ==> h * d >= 0;
  }

  /** Division rounding up: the only n with h * (n - 1) < x <= h * n. */
  lemma CeilingUnique(x: int, h: int, n: int)
    requires h > 0 && h * (n - 1) < x <= h * n
    ensures (x + h - 1) / h == n
  {
    assert h * n == h * (n - 1) + h == n * h;
    DivModUnique(x + h - 1, n, x + h - 1 - n * h, h);
  }

  lemma CeilingBounds(x: int, h: int)
    requires h > 0
    ensures var n := (x + h - 1) / h; h * (n - 1) < x <= h * n
  {
    var n, r := (x + h - 1) / h, (x + h - 1) % h;
    assert x + h - 1 == n * h + r;
    assert h * (n - 1) == n * h - h;
  }

  /** Adding a multiple of the modulus does not change the residue class. */
  lemma CongFromDiff(a: int, b: int, k: int, m: int)
    requires m > 0 && a == b + k * m
    ensures Cong(a, b, m)
  {
    assert a == (b / m + k) * m + b % m by {
      assert b == b / m * m + b % m;
      assert (b / m + k) * m == b / m * m + k * m;
    }
    DivModUnique(a, b / m + k, b % m, m);
  }

  lemma DiffFromCong(a: int, b: int, m: int) returns (k: int)
    requires m > 0 && Cong(a, b, m)
    ensures a == b + k * m
  {
    k := a / m - b / m;
    assert a == a / m * m + a % m;
    assert b == b / m * m + b % m;
    assert k * m == a / m * m - b / m * m;
  }

  lemma CongAdd(a: int, a': int, b: int, b': int, m: int)
    requires m > 0 && Cong(a, a', m) && Cong(b, b', m)
    ensures Cong(a + b, a' + b', m)
  {
    var k := DiffFromCong(a, a', m);
    var l := DiffFromCong(b, b', m);
    assert a + b == a' + b' + (k + l) * m by { assert (k + l) * m == k * m + l * m; }
    CongFromDiff(a + b, a' + b', k + l, m);
  }

  lemma CongScale(a: int, a': int, b: int, m: int)
    requires m > 0 && Cong(a, a', m)
    ensures Cong(a * b, a' * b, m) && Cong(b * a, b * a', m)
  {
    var k := DiffFromCong(a, a', m);
    assert a * b == a' * b + k * b * m by { assert (a' + k * m) * b == a' * b + k * m * b; }
    CongFromDiff(a * b, a' * b, k * b, m);
  }

  lemma CongMul(a: int, a': int, b: int, b': int, m: int)
    requires m > 0 && Cong(a, a', m) && Cong(b, b', m)
    ensures Cong(a * b, a' * b', m)
  {
    CongScale(a, a', b, m);
    CongScale(b, b', a', m);
  }

  lemma CongMod(a: int, m: int)
    requires m > 0
    ensures Cong(a % m, a, m)
  {
  }

  /** A residue that is already reduced is its own remainder. */
  lemma CongReduced(a: int, b: int, m: int)
    requires m > 0 && Cong(a, b, m) && 0 <= a < m
    ensures a == b % m
  {
  }

  lemma {:induction false} PowCong(a: int, b: int, e: nat, m: int)
    requires m > 0 && Cong(a, b, m)
    ensures Cong(Pow(a, e), Pow(b, e), m)
  {
    if e > 0 {
      PowCong(a, b, e - 1, m);
      CongMul(a, b, Pow(a, e - 1), Pow(b, e - 1), m);
    }
  }

  lemma {:induction false} PowAdd(b: int, d: nat, e: nat)
    ensures Pow(b, d + e) == Pow(b, d) * Pow(b, e)
  {
    if d > 0 {
      PowAdd(b, d - 1, e);
      assert b * (Pow(b, d - 1) * Pow(b, e)) == b * Pow(b, d - 1) * Pow(b, e);
    }
  }

  lemma {:induction false} PowMul(b: int, d: nat, e: nat)
    ensures d * e >= 0 && Pow(Pow(b, d), e) == Pow(b, d * e)
  {
    if e > 0 {
      PowMul(b, d, e - 1);
      assert d * e == d + d * (e - 1);
      PowAdd(b, d, d * (e - 1));
    } else {
      assert d * e == 0;
    }
  }

  lemma {:induction false} PowOne(e: nat)
    ensures Pow(1, e) == 1
  {
    if e > 0 { PowOne(e - 1); }
  }

  lemma {:induction false} PowProduct(a: int, b: int, e: nat)
    ensures Pow(a * b, e) == Pow(a, e) * Pow(b, e)
  {
    if e > 0 {
      PowProduct(a, b, e - 1);
      calc {
        Pow(a * b, e);
        (a * b) * (Pow(a, e - 1) * Pow(b, e - 1));
        (a * Pow(a, e - 1)) * (b * Pow(b, e - 1));
      }
    }
  }
}
