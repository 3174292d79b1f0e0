/** Little-endian sequences of 32-bit limbs and the integers they stand for. */
module Limbs {
  import opened ModArith

  const WORD := 0x1_0000_0000

  type u32 = x: int | 0 <= x < 0x1_0000_0000
  type u64 = x: int | 0 <= x < 0x1_0000_0000_0000_0000
  type i64 = x: int | -0x8000_0000_0000_0000 <= x < 0x8000_0000_0000_0000

  /** Eight limbs: the `[u32; 8]` arrays of the source. */
  type Limbs8 = s: seq<u32> | |s| == 8 witness [0, 0, 0, 0, 0, 0, 0, 0]
  /** Sixteen limbs: a double-width product. */
  type Limbs16 = s: seq<u32> | |s| == 16 witness [0, 0, 0, 0, 0, 0, 0, 0, 0, 0, 0, 0, 0, 0, 0, 0]

  /** The integer denoted by limbs, index 0 least significant. Limbs may be signed accumulators. */
  function Value(s: seq<int>): int {
    if s == [] then 0
    else Value(s[..|s| - 1]) + s[|s| - 1] * Pow(WORD, |s| - 1)
  }

  lemma ValuePrefix(s: seq<int>, i: nat)
    requires i < |s|
    ensures Value(s[..i + 1]) == Value(s[..i]) + s[i] * Pow(WORD, i)
  {
    assert s[..i + 1][..i] == s[..i];
  }

  lemma {:induction false} PowWordPositive(i: nat)
    ensures Pow(WORD, i) > 0
  {
    if i > 0 { PowWordPositive(i - 1); }
  }

  /** Reduced limbs denote exactly the integers below WORD^length. */
  lemma {:induction false} ValueBound(s: seq<u32>)
    ensures 0 <= Value(s) < Pow(WORD, |s|)
  {
    if s != [] {
      var n := |s| - 1;
      ValueBound(s[..n]);
      LimbBound(s[n], Value(s[..n]), Pow(WORD, n));
    }
  }

  lemma LimbBound(x: u32, low: int, w: int)
    requires 0 <= low < w
    ensures 0 <= low + x * w < WORD * w
  {
  }

  /** Limb sequences of one length are determined by their value. */
  lemma {:induction false} ValueInjective(s: seq<u32>, t: seq<u32>)
    requires |s| == |t| && Value(s) == Value(t)
    ensures s == t
  {
    if s != [] {
      var n := |s| - 1;
      ValueBound(s[..n]);
      ValueBound(t[..n]);
      var w := Pow(WORD, n);
      DivModUnique(Value(s), s[n], Value(s[..n]), w);
      DivModUnique(Value(t), t[n], Value(t[..n]), w);
      ValueInjective(s[..n], t[..n]);
      assert s == s[..n] + [s[n]];
      assert t == t[..n] + [t[n]];
    }
  }

  /** The most significant differing limb decides the comparison. */
  lemma {:induction false} ValueCompare(s: seq<u32>, t: seq<u32>, i: nat)
    requires |s| == |t| && i < |s|
    requires s[i] < t[i] && s[i + 1..] == t[i + 1..]
    ensures Value(s) < Value(t)
  {
    var n := |s| - 1;
    if i == n {
      ValueBound(s[..n]);
      ValueBound(t[..n]);
      LimbLess(s[n], t[n], Value(s[..n]), Value(t[..n]), Pow(WORD, n));
    } else {
      assert s[..n][i + 1..] == s[i + 1..][..n - i - 1];
      assert t[..n][i + 1..] == t[i + 1..][..n - i - 1];
      assert s[n] == s[i + 1..][n - i - 1] == t[n];
      ValueCompare(s[..n], t[..n], i);
    }
  }

  lemma LimbLess(x: int, y: int, low: int, low': int, w: int)
    requires x < y && 0 <= low < w && 0 <= low'
    ensures low + x * w < low' + y * w
  {
    assert (y - x - 1) * w >= 0;
    assert (y - x - 1) * w == y * w - x * w - w;
  }

  lemma {:induction false} ValueUpdate(s: seq<int>, k: nat, x: int)
    requires k < |s|
    ensures Value(s[k := x]) == Value(s) + (x - s[k]) * Pow(WORD, k)
  {
    var n := |s| - 1;
    if k == n {
      assert s[k := x][..n] == s[..n];
      assert x * Pow(WORD, n) == s[n] * Pow(WORD, n) + (x - s[n]) * Pow(WORD, n);
    } else {
      ValueUpdate(s[..n], k, x);
      assert s[k := x][..n] == s[..n][k := x];
    }
  }

  lemma {:induction false} ValueSum(s: seq<int>, t: seq<int>, u: seq<int>)
    requires |s| == |t| == |u| && forall i :: 0 <= i < |s| ==> u[i] == s[i] + t[i]
    ensures Value(u) == Value(s) + Value(t)
  {
    if s != [] {
      var n := |s| - 1;
      ValueSum(s[..n], t[..n], u[..n]);
      assert u[n] * Pow(WORD, n) == s[n] * Pow(WORD, n) + t[n] * Pow(WORD, n);
    }
  }

  lemma {:induction false} ValueZeros(s: seq<int>)
    requires forall i :: 0 <= i < |s| ==> s[i] == 0
    ensures Value(s) == 0
  {
    if s != [] { ValueZeros(s[..|s| - 1]); }
  }

  /** Trailing zero limbs add nothing. */
  lemma {:induction false} ValueZeroTail(s: seq<int>, k: nat)
    requires k <= |s| && forall i :: k <= i < |s| ==> s[i] == 0
    ensures Value(s) == Value(s[..k])
  {
    if k < |s| {
      ValueZeroTail(s[..|s| - 1], k);
      assert s[..|s| - 1][..k] == s[..k];
    } else {
      assert s[..k] == s;
    }
  }

  lemma CarryArithmetic(q: int, m: int, carry: int, acc: int, w: int)
    requires q * WORD + m == acc + carry
    ensures m * w + q * (WORD * w) == acc * w + carry * w
  {
    assert (q * WORD + m) * w == q * (WORD * w) + m * w;
    assert (acc + carry) * w == acc * w + carry * w;
  }

  /**
   * One limb of carry propagation. Emitting v mod WORD and carrying v div WORD (floored, which is
   * what the source's `as u32` and `>> 32` do on `i64`) keeps emitted limbs + carry equal to the
   * accumulators consumed so far.
   */
  lemma CarryStep(r: seq<int>, done: int, carry: int, v: int, acc: int)
    requires Value(r) + carry * Pow(WORD, |r|) == done
    requires v == acc + carry
    ensures Value(r + [v % WORD]) + v / WORD * Pow(WORD, |r| + 1) == done + acc * Pow(WORD, |r|)
  {
    var w := Pow(WORD, |r|);
    assert (r + [v % WORD])[..|r|] == r;
    assert Pow(WORD, |r| + 1) == WORD * w;
    assert v / WORD * WORD + v % WORD == v;
    CarryArithmetic(v / WORD, v % WORD, carry, acc, w);
  }

  lemma CarryStart(r: seq<int>, acc: seq<int>)
    requires r == acc == []
    ensures Value(r) == Value(acc) == 0
  {
  }

  lemma WordPowers()
    ensures Pow(WORD, 0) == 1 && Pow(WORD, 1) == 0x1_0000_0000
    ensures Pow(WORD, 2) == 0x1_0000_0000_0000_0000
    ensures Pow(WORD, 3) == 0x1_0000_0000_0000_0000_0000_0000
    ensures Pow(WORD, 4) == 0x1_0000_0000_0000_0000_0000_0000_0000_0000
    ensures Pow(WORD, 5) == 0x1_0000_0000_0000_0000_0000_0000_0000_0000_0000_0000
    ensures Pow(WORD, 6) == 0x1_0000_0000_0000_0000_0000_0000_0000_0000_0000_0000_0000_0000
    ensures Pow(WORD, 7) == 0x1_0000_0000_0000_0000_0000_0000_0000_0000_0000_0000_0000_0000_0000_0000
    ensures Pow(WORD, 8) == 0x1_0000_0000_0000_0000_0000_0000_0000_0000_0000_0000_0000_0000_0000_0000_0000_0000
  {
  }

  /** Eight limbs written out. */
  lemma Value8(s: seq<int>)
    requires |s| == 8
    ensures Value(s) == s[0]
      + s[1] * 0x1_0000_0000
      + s[2] * 0x1_0000_0000_0000_0000
      + s[3] * 0x1_0000_0000_0000_0000_0000_0000
      + s[4] * 0x1_0000_0000_0000_0000_0000_0000_0000_0000
      + s[5] * 0x1_0000_0000_0000_0000_0000_0000_0000_0000_0000_0000
      + s[6] * 0x1_0000_0000_0000_0000_0000_0000_0000_0000_0000_0000_0000_0000
      + s[7] * 0x1_0000_0000_0000_0000_0000_0000_0000_0000_0000_0000_0000_0000_0000_0000
  {
    hide Value, Pow;
    WordPowers();
    ValueEmpty(s[..0]);
    ValuePrefix(s, 0);
    ValuePrefix(s, 1);
    ValuePrefix(s, 2);
    ValuePrefix(s, 3);
    ValuePrefix(s, 4);
    ValuePrefix(s, 5);
    ValuePrefix(s, 6);
    ValuePrefix(s, 7);
    assert s[..8] == s;
  }

  lemma ValueEmpty(s: seq<int>)
    requires s == []
    ensures Value(s) == 0
  {
  }

  /** Splitting off the upper limbs. */
  lemma {:induction false} ValueSplit(s: seq<int>, k: nat)
    requires k <= |s|
    ensures Value(s) == Value(s[..k]) + Value(s[k..]) * Pow(WORD, k)
  {
    if k == |s| {
      assert s[..k] == s;
    } else {
      var n := |s| - 1;
      ValueSplit(s[..n], k);
      assert s[..n][..k] == s[..k];
      assert s[..n][k..] == s[k..][..n - k];
      PowAdd(WORD, n - k, k);
      var t := s[k..];
      assert Value(t) == Value(t[..n - k]) + s[n] * Pow(WORD, n - k);
      SplitArithmetic(Value(t[..n - k]), s[n], Pow(WORD, n - k), Pow(WORD, k));
    }
  }

  lemma SplitArithmetic(low: int, x: int, u: int, w: int)
    ensures (low + x * u) * w == low * w + x * (u * w)
  {
  }
}
