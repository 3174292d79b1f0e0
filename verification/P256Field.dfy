/**
 * Arithmetic modulo the P-256 prime on 32-bit limbs: comparison, modular addition, schoolbook
 * multiplication, the fast reduction of FIPS 186-4 Appendix D.2.3 and square-and-multiply.
 *
 * Variables typed `u32`, `u64` and `i64` carry the source's machine ranges: verifying this module
 * shows that none of them over- or underflows.
 */
module P256Field {
  import opened ModArith
  import opened Limbs

  /** p = 2^256 - 2^224 + 2^192 + 2^96 - 1. */
  const PRIME: int := 0xFFFF_FFFF_0000_0001_0000_0000_0000_0000_0000_0000_FFFF_FFFF_FFFF_FFFF_FFFF_FFFF

  /** 2^256, one past the largest eight-limb number. */
  const R256: int := 0x1_0000_0000_0000_0000_0000_0000_0000_0000_0000_0000_0000_0000_0000_0000_0000_0000

  /** 2^256 mod p = 2^224 - 2^192 - 2^96 + 1: the weight at which a carry is folded back. */
  const FOLD: int := 0xFFFF_FFFE_FFFF_FFFF_FFFF_FFFF_FFFF_FFFF_0000_0000_0000_0000_0000_0001

  const P: Limbs8 := [
    0xFFFF_FFFF, 0xFFFF_FFFF, 0xFFFF_FFFF, 0x0000_0000,
    0x0000_0000, 0x0000_0000, 0x0000_0001, 0xFFFF_FFFF]

  lemma PrimeLimbs()
    ensures Value(P) == PRIME && R256 == PRIME + FOLD && Pow(WORD, 8) == R256
  {
    Value8(P);
    WordPowers();
  }

  lemma LimbsBelowR256(a: Limbs8)
    ensures 0 <= Value(a) < R256
  {
    ValueBound(a);
    WordPowers();
  }

  // ---------------------------------------------------------------- comparison, subtraction, addition

  method Ge(a: Limbs8, b: Limbs8) returns (r: bool)
    ensures r <==> Value(a) >= Value(b)
  {
    for i := 8 downto 0
      invariant a[i..] == b[i..]
    {
      assert a[i..] == [a[i]] + a[i + 1..] && b[i..] == [b[i]] + b[i + 1..];
      if a[i] > b[i] {
        ValueCompare(b, a, i);
        return true;
      }
      if a[i] < b[i] {
        ValueCompare(a, b, i);
        return false;
      }
    }
    assert a == a[0..] && b == b[0..];
    return true;
  }

  /** Subtraction modulo 2^256: the final borrow is dropped. */
  method Sub256(a: Limbs8, b: Limbs8) returns (r: Limbs8)
    ensures Value(r) == if Value(a) >= Value(b) then Value(a) - Value(b) else Value(a) - Value(b) + R256
  {
    hide Value, Pow;
    ghost var diff := seq(8, i requires 0 <= i < 8 => a[i] as int - b[i]);
    var out := new u32[8];
    var borrow: i64 := 0;
    CarryStart(out[..0], diff[..0]);
    for i := 0 to 8
      invariant 0 <= borrow <= 1
      invariant Value(out[..i]) - borrow * Pow(WORD, i) == Value(diff[..i])
    {
      ghost var before := out[..i];
      var d: i64 := a[i] as i64 - b[i] as i64 - borrow;
      CarryStep(before, Value(diff[..i]), -borrow, d, diff[i]);
      ValuePrefix(diff, i);
      out[i] := d % WORD;
      borrow := if d < 0 then 1 else 0;
      assert d / WORD == -borrow;
      assert out[..i + 1] == before + [d % WORD];
    }
    assert diff[..8] == diff && out[..8] == out[..];
    r := out[..];
    SubFinish(a, b, diff, r, borrow);
  }

  lemma SubFinish(a: Limbs8, b: Limbs8, diff: seq<int>, r: Limbs8, borrow: int)
    requires |diff| == 8 && forall i :: 0 <= i < 8 ==> diff[i] == a[i] as int - b[i]
    requires 0 <= borrow <= 1 && Value(r) - borrow * Pow(WORD, 8) == Value(diff)
    ensures Value(r) == if Value(a) >= Value(b) then Value(a) - Value(b) else Value(a) - Value(b) + R256
  {
    hide Value, Pow;
    ValueSum(diff, b, a);
    WordPowers();
    LimbsBelowR256(a);
    LimbsBelowR256(b);
    LimbsBelowR256(r);
    BorrowCases(Value(a), Value(b), Value(r), borrow);
  }

  lemma BorrowCases(a: int, b: int, r: int, borrow: int)
    requires 0 <= a < R256 && 0 <= b < R256 && 0 <= r < R256 && 0 <= borrow <= 1
    requires r - borrow * R256 == a - b
    ensures r == if a >= b then a - b else a - b + R256
  {
  }

  /**
   * Modular addition. The sum is reduced by one subtraction at most, so the result is the canonical
   * residue exactly when the true sum stays below 2p -- see AddModExact.
   */
  method AddMod(a: Limbs8, b: Limbs8) returns (r: Limbs8)
    ensures Value(r) == AddModValue(Value(a), Value(b))
  {
    hide Value, Pow;
    ghost var sum := seq(8, i requires 0 <= i < 8 => a[i] as int + b[i]);
    ValueSum(a, b, sum);
    var out := new u32[8];
    var carry: u64 := 0;
    CarryStart(out[..0], sum[..0]);
    for i := 0 to 8
      invariant 0 <= carry <= 1
      invariant Value(out[..i]) + carry * Pow(WORD, i) == Value(sum[..i])
    {
      ghost var before := out[..i];
      var s: u64 := a[i] as u64 + b[i] as u64 + carry;
      CarryStep(before, Value(sum[..i]), carry, s, sum[i]);
      ValuePrefix(sum, i);
      out[i] := s % WORD;
      carry := s / WORD;
      assert out[..i + 1] == before + [s % WORD];
    }
    assert sum[..8] == sum && out[..8] == out[..];
    r := out[..];
    PrimeLimbs();
    LimbsBelowR256(r);
    var atLeastP := Ge(r, P);
    if carry > 0 || atLeastP {
      DivModUnique(Value(sum) - PRIME, if Value(sum) - PRIME < R256 then 0 else 1,
                   if Value(sum) - PRIME < R256 then Value(sum) - PRIME else Value(sum) - PRIME - R256, R256);
      r := Sub256(r, P);
    }
  }

  /** What AddMod computes on arbitrary 256-bit operands, reduced or not. */
  function AddModValue(a: int, b: int): int {
    if a + b < PRIME then a + b else (a + b - PRIME) % R256
  }

  /** AddMod is addition modulo p exactly for operands whose sum is below 2p. */
  lemma AddModExact(a: int, b: int)
    requires 0 <= a < R256 && 0 <= b < R256
    ensures AddModValue(a, b) == (a + b) % PRIME <==> a + b < 2 * PRIME
  {
  }

  // ---------------------------------------------------------------- multiplication

  /** The product of any two 256-bit numbers, reduced or not, modulo p. */
  method MulMod(a: Limbs8, b: Limbs8) returns (r: Limbs8)
    ensures Value(r) == Value(a) * Value(b) % PRIME
  {
    hide Value, RowValue;
    var t := new u32[16](_ => 0);
    ValueZeros(t[..]);
    RowsStart(a, b);
    for i := 0 to 8
      invariant Value(t[..]) == Value(a[..i]) * Value(b)
      invariant forall k :: i + 8 <= k < 16 ==> t[k] == 0
    {
      MulRow(t, i, a[i], b);
      RowEnd(a, b, i);
    }
    assert a[..8] == a;
    r := ReduceP256(t[..]);
  }

  /** One row of the schoolbook multiplication: adds x * b at limb i, and stores the carry above it. */
  method MulRow(t: array<u32>, i: nat, x: u32, b: Limbs8)
    requires t.Length == 16 && i < 8 && forall k :: i + 8 <= k < 16 ==> t[k] == 0
    modifies t
    ensures Value(t[..]) == old(Value(t[..])) + RowValue(x, b, 8, i)
    ensures forall k :: i + 9 <= k < 16 ==> t[k] == 0
  {
    hide Value, Pow, RowValue;
    var carry: u64 := 0;
    ghost var start := Value(t[..]);
    RowStart(x, b, i);
    for j := 0 to 8
      invariant 0 <= carry < WORD
      invariant forall k :: i + 8 <= k < 16 ==> t[k] == 0
      invariant Value(t[..]) + carry * Pow(WORD, i + j) == start + RowValue(x, b, j, i)
    {
      AccumulatorBound(t[i + j], x, b[j], carry);
      ghost var before := t[..];
      var cur: u64 := t[i + j] as u64 + x as u64 * b[j] as u64 + carry;
      var low: u32 := cur % WORD;
      t[i + j] := low;
      assert t[..] == before[i + j := low];
      RowStep(before, b, i, j, x, carry, cur);
      carry := cur / WORD;
    }
    ghost var before := t[..];
    var top: u32 := carry % WORD;
    t[i + 8] := top;
    assert t[..] == before[i + 8 := top];
    ValueUpdate(before, i + 8, top);
  }

  /** The partial product of one limb with the low j limbs of b, at weight WORD^i. */
  ghost function RowValue(x: int, b: seq<int>, j: nat, i: nat): int
    requires j <= |b|
  {
    x * Value(b[..j]) * Pow(WORD, i)
  }

  /** t + x*y + carry never exceeds 64 bits, and its upper half is a carry again. */
  lemma AccumulatorBound(limb: u32, x: u32, y: u32, carry: int)
    requires 0 <= carry < WORD
    ensures 0 <= x as int * y as int && limb as int + x as int * y as int + carry < 0x1_0000_0000_0000_0000
    ensures 0 <= (limb as int + x as int * y as int + carry) / WORD < WORD
  {
    MulBound(x, y, 0xFFFF_FFFF);
  }

  lemma MulBound(x: int, y: int, m: int)
    requires 0 <= x <= m && 0 <= y <= m
    ensures 0 <= x * y <= m * m
  {
  }

  lemma RowsStart(a: Limbs8, b: Limbs8)
    ensures Value(a[..0]) * Value(b) == 0
  {
  }

  lemma RowStart(x: int, b: Limbs8, i: nat)
    ensures RowValue(x, b, 0, i) == 0
  {
  }

  lemma RowStep(t: seq<u32>, b: Limbs8, i: nat, j: nat, x: u32, carry: int, cur: int)
    requires |t| == 16 && i < 8 && j < 8
    requires cur == t[i + j] as int + x as int * b[j] as int + carry
    ensures Value(t[i + j := cur % WORD]) + cur / WORD * Pow(WORD, i + j + 1) - Value(t) - carry * Pow(WORD, i + j)
      == RowValue(x, b, j + 1, i) - RowValue(x, b, j, i)
  {
    ValueUpdate(t, i + j, cur % WORD);
    ValuePrefix(b, j);
    PowAdd(WORD, j, i);
    RowArithmetic(cur / WORD, cur % WORD, t[i + j], x, b[j], carry,
                  Value(b[..j]), Pow(WORD, j), Pow(WORD, i), Pow(WORD, i + j));
  }

  lemma RowArithmetic(q: int, m: int, limb: int, x: int, y: int, carry: int, vb: int, wj: int, wi: int, wij: int)
    requires q * WORD + m == limb + x * y + carry && wij == wj * wi
    ensures (m - limb) * wij + q * (WORD * wij) - carry * wij == x * (vb + y * wj) * wi - x * vb * wi
  {
  }

  lemma RowEnd(a: Limbs8, b: Limbs8, i: nat)
    requires i < 8
    ensures Value(a[..i]) * Value(b) + RowValue(a[i], b, 8, i) == Value(a[..i + 1]) * Value(b)
  {
    assert b[..8] == b;
    ValuePrefix(a, i);
    RowEndArithmetic(Value(a[..i]), a[i], Value(b), Pow(WORD, i));
  }

  lemma RowEndArithmetic(va: int, x: int, vb: int, w: int)
    ensures va * vb + x * vb * w == (va + x * w) * vb
  {
  }

  // ---------------------------------------------------------------- fast reduction

  /** The nine-term signed recombination of FIPS 186-4 Appendix D.2.3, limb by limb. */
  function Recombine(t: Limbs16): (acc: seq<i64>)
    ensures |acc| == 8
    ensures forall i :: 0 <= i < 8 ==> -4 * (WORD - 1) <= acc[i] <= 7 * (WORD - 1)
  {
    var c := (i: nat) requires i < 16 => t[i] as i64;
    [
      c(0) + c(8) + c(9) - c(11) - c(12) - c(13) - c(14),
      c(1) + c(9) + c(10) - c(12) - c(13) - c(14) - c(15),
      c(2) + c(10) + c(11) - c(13) - c(14) - c(15),
      c(3) + 2 * c(11) + 2 * c(12) + c(13) - c(15) - c(8) - c(9),
      c(4) + 2 * c(12) + 2 * c(13) + c(14) - c(9) - c(10),
      c(5) + 2 * c(13) + 2 * c(14) + c(15) - c(10) - c(11),
      c(6) + 3 * c(14) + 2 * c(15) + c(13) - c(8) - c(9),
      c(7) + 3 * c(15) + c(8) - c(10) - c(11) - c(12) - c(13)
    ]
  }

  /** How many times p the recombination removes. */
  function RemovedMultiple(h: seq<int>): int
    requires |h| == 8
  {
    h[0]
    + 0x1_0000_0001 * h[1]
    + 0x1_0000_0001_0000_0000 * h[2]
    + 0x1_0000_0000_FFFF_FFFF_FFFF_FFFF * h[3]
    + 0x1_0000_0000_FFFF_FFFF_FFFF_FFFE_FFFF_FFFF * h[4]
    + 0x1_0000_0000_FFFF_FFFF_FFFF_FFFE_FFFF_FFFE_FFFF_FFFF * h[5]
    + 0x1_0000_0000_FFFF_FFFF_FFFF_FFFE_FFFF_FFFE_FFFF_FFFE_FFFF_FFFF * h[6]
    + 0x1_0000_0000_FFFF_FFFF_FFFF_FFFE_FFFF_FFFE_FFFF_FFFE_FFFF_FFFF_0000_0000 * h[7]
  }

  /** The contribution of the upper eight limbs to each accumulator. */
  function Upper(h: seq<int>): (d: seq<int>)
    requires |h| == 8
    ensures |d| == 8
  {
    [
      h[0] + h[1] - h[3] - h[4] - h[5] - h[6],
      h[1] + h[2] - h[4] - h[5] - h[6] - h[7],
      h[2] + h[3] - h[5] - h[6] - h[7],
      2 * h[3] + 2 * h[4] + h[5] - h[7] - h[0] - h[1],
      2 * h[4] + 2 * h[5] + h[6] - h[1] - h[2],
      2 * h[5] + 2 * h[6] + h[7] - h[2] - h[3],
      3 * h[6] + 2 * h[7] + h[5] - h[0] - h[1],
      3 * h[7] + h[0] - h[2] - h[3] - h[4] - h[5]
    ]
  }

  /** The identity behind the FIPS 186-4 formula: moving 2^256 * h below 2^256 removes a multiple of p. */
  lemma UpperIdentity(h: seq<int>)
    requires |h| == 8
    ensures Value(h) * R256 == Value(Upper(h)) + RemovedMultiple(h) * PRIME
  {
    hide Value;
    var u := Upper(h);
    Value8(h);
    Value8(u);
    UpperColumns(h[0], h[1], h[2], h[3], h[4], h[5], h[6], h[7],
                 u[0], u[1], u[2], u[3], u[4], u[5], u[6], u[7], Value(h), Value(u), RemovedMultiple(h));
  }

  lemma UpperColumns(h0: int, h1: int, h2: int, h3: int, h4: int, h5: int, h6: int, h7: int,
                     u0: int, u1: int, u2: int, u3: int, u4: int, u5: int, u6: int, u7: int,
                     vh: int, vu: int, removed: int)
    requires vh == h0 + h1 * 0x1_0000_0000 + h2 * 0x1_0000_0000_0000_0000
      + h3 * 0x1_0000_0000_0000_0000_0000_0000 + h4 * 0x1_0000_0000_0000_0000_0000_0000_0000_0000
      + h5 * 0x1_0000_0000_0000_0000_0000_0000_0000_0000_0000_0000
      + h6 * 0x1_0000_0000_0000_0000_0000_0000_0000_0000_0000_0000_0000_0000
      + h7 * 0x1_0000_0000_0000_0000_0000_0000_0000_0000_0000_0000_0000_0000_0000_0000
    requires vu == u0 + u1 * 0x1_0000_0000 + u2 * 0x1_0000_0000_0000_0000
      + u3 * 0x1_0000_0000_0000_0000_0000_0000 + u4 * 0x1_0000_0000_0000_0000_0000_0000_0000_0000
      + u5 * 0x1_0000_0000_0000_0000_0000_0000_0000_0000_0000_0000
      + u6 * 0x1_0000_0000_0000_0000_0000_0000_0000_0000_0000_0000_0000_0000
      + u7 * 0x1_0000_0000_0000_0000_0000_0000_0000_0000_0000_0000_0000_0000_0000_0000
    requires removed == h0
      + 0x1_0000_0001 * h1
      + 0x1_0000_0001_0000_0000 * h2
      + 0x1_0000_0000_FFFF_FFFF_FFFF_FFFF * h3
      + 0x1_0000_0000_FFFF_FFFF_FFFF_FFFE_FFFF_FFFF * h4
      + 0x1_0000_0000_FFFF_FFFF_FFFF_FFFE_FFFF_FFFE_FFFF_FFFF * h5
      + 0x1_0000_0000_FFFF_FFFF_FFFF_FFFE_FFFF_FFFE_FFFF_FFFE_FFFF_FFFF * h6
      + 0x1_0000_0000_FFFF_FFFF_FFFF_FFFE_FFFF_FFFE_FFFF_FFFE_FFFF_FFFF_0000_0000 * h7
    requires u0 == h0 + h1 - h3 - h4 - h5 - h6
    requires u1 == h1 + h2 - h4 - h5 - h6 - h7
    requires u2 == h2 + h3 - h5 - h6 - h7
    requires u3 == 2 * h3 + 2 * h4 + h5 - h7 - h0 - h1
    requires u4 == 2 * h4 + 2 * h5 + h6 - h1 - h2
    requires u5 == 2 * h5 + 2 * h6 + h7 - h2 - h3
    requires u6 == 3 * h6 + 2 * h7 + h5 - h0 - h1
    requires u7 == 3 * h7 + h0 - h2 - h3 - h4 - h5
    ensures vh * R256 == vu + removed * PRIME
  {
  }

  /** The recombination preserves the residue class of every 512-bit number. */
  lemma RecombineCongruent(t: Limbs16)
    ensures Cong(Value(t), Value(Recombine(t)), PRIME)
  {
    hide Value, Pow;
    var low, h, acc := t[..8], t[8..], Recombine(t);
    ValueSplit(t, 8);
    WordPowers();
    UpperIdentity(h);
    assert forall i :: 0 <= i < 8 ==> acc[i] == low[i] + Upper(h)[i];
    ValueSum(low, Upper(h), acc);
    CongFromDiff(Value(t), Value(acc), RemovedMultiple(h), PRIME);
  }

  /** One pass of the carry-folding loop, on values: the part above 2^256 re-enters with weight FOLD. */
  function FoldPass(v: int): int {
    v % R256 + v / R256 * FOLD
  }

  lemma FoldPassCongruent(v: int)
    ensures Cong(FoldPass(v), v, PRIME)
  {
  }

  /** The range a value can occupy after n passes, starting from any recombined 512-bit number. */
  predicate AfterPasses(n: nat, v: int) {
    if n == 0 then -5 * R256 <= v < 7 * R256
    else if n == 1 then -5 * FOLD <= v < R256 + 6 * FOLD
    else n == 2 && 0 <= v < R256
  }

  /** Only the first two passes can ever see a non-zero carry. */
  lemma FoldPassShrinks(n: nat, v: int)
    requires AfterPasses(n, v) && v / R256 != 0
    ensures n < 2 && AfterPasses(n + 1, FoldPass(v))
  {
  }

  /** One pass would not be enough: here both of the first two passes find a carry. */
  lemma SecondPassNeeded(t: Limbs16)
    requires t == seq(8, _ => 0xFFFF_FFFF as u32) + [0, 0, 0, 0, 0, 0, 0, 0x5555_5555]
    ensures Value(Recombine(t)) / R256 == 1 && FoldPass(Value(Recombine(t))) / R256 == 1
  {
    Value8(Recombine(t));
  }

  /** Carry propagation over signed accumulators; the result is the value split at 2^256. */
  method Normalize(acc: seq<i64>, r: array<u32>) returns (carry: i64)
    requires |acc| == 8 && r.Length == 8
    requires forall i :: 0 <= i < 8 ==> -4 * WORD <= acc[i] <= 7 * (WORD - 1)
    modifies r
    ensures carry == Value(acc) / R256 && Value(r[..]) == Value(acc) % R256
    ensures -5 <= carry <= 6
  {
    carry := 0;
    for i := 0 to 8
      invariant -5 <= carry <= 6
      invariant Value(r[..i]) + carry * Pow(WORD, i) == Value(acc[..i])
    {
      ghost var before := r[..i];
      var v: i64 := acc[i] + carry;
      CarryStep(before, Value(acc[..i]), carry, v, acc[i]);
      ValuePrefix(acc, i);
      r[i] := v % WORD;
      carry := v / WORD;
      assert r[..i + 1] == before + [v % WORD];
    }
    assert acc[..8] == acc && r[..8] == r[..];
    PrimeLimbs();
    LimbsBelowR256(r[..]);
    DivModUnique(Value(acc), carry, Value(r[..]), R256);
  }

  /** Fold a residual carry back in at the weight of 2^256 mod p and propagate once more. */
  method AbsorbCarry(r: array<u32>, adj: i64) returns (carry: i64)
    requires r.Length == 8 && -5 <= adj <= 6
    modifies r
    ensures Value(r[..]) + carry * R256 == FoldPass(Value(old(r[..])) + adj * R256)
    ensures -5 <= carry <= 6
  {
    LimbsBelowR256(r[..]);
    DivModUnique(Value(r[..]) + adj * R256, adj, Value(r[..]), R256);
    var acc2: seq<i64> := r[..];
    ghost var before := acc2;
    acc2 := acc2[0 := acc2[0] + adj];
    acc2 := acc2[3 := acc2[3] - adj];
    acc2 := acc2[6 := acc2[6] - adj];
    acc2 := acc2[7 := acc2[7] + adj];
    AbsorbValue(before, acc2, adj);
    carry := Normalize(acc2, r);
  }

  lemma AbsorbValue(r: seq<int>, acc2: seq<int>, adj: int)
    requires |r| == 8 && |acc2| == 8
    requires acc2 == r[0 := r[0] + adj][3 := r[3] - adj][6 := r[6] - adj][7 := r[7] + adj]
    ensures Value(acc2) == Value(r) + adj * FOLD
  {
    hide Value;
    Value8(r);
    Value8(acc2);
  }

  /** Fast reduction of any 512-bit number to its canonical residue. */
  method ReduceP256(t: Limbs16) returns (r: Limbs8)
    ensures Value(r) == Value(t) % PRIME
  {
    var acc := Recombine(t);
    RecombineCongruent(t);
    var out := new u32[8];
    var carry: i64 := Normalize(acc, out);
    ghost var v := Value(acc);
    assert v == carry * R256 + Value(out[..]);
    for pass := 0 to 4
      invariant -5 <= carry <= 6 && v == Value(out[..]) + carry * R256
      invariant AfterPasses(pass, v) && Cong(v, Value(t), PRIME)
    {
      LimbsBelowR256(out[..]);
      DivModUnique(v, carry, Value(out[..]), R256);
      if carry == 0 {
        break;
      }
      FoldPassCongruent(v);
      FoldPassShrinks(pass, v);
      v := FoldPass(v);
      carry := AbsorbCarry(out, carry);
    }
    LimbsBelowR256(out[..]);
    r := SubtractPrime(out[..]);
    CongReduced(Value(r), Value(t), PRIME);
  }

  /** The final conditional subtractions. Since 2^256 < 2p, the second of the two never happens. */
  method SubtractPrime(a: Limbs8) returns (r: Limbs8)
    ensures 0 <= Value(r) < PRIME && (Value(r) == Value(a) || Value(r) == Value(a) - PRIME)
    ensures Cong(Value(r), Value(a), PRIME)
  {
    PrimeLimbs();
    LimbsBelowR256(a);
    r := a;
    for n := 0 to 2
      invariant n == 0 ==> r == a
      invariant n > 0 ==> 0 <= Value(r) < PRIME && Value(r) == Value(a) - PRIME
    {
      var atLeastP := Ge(r, P);
      if !atLeastP {
        break;
      }
      r := Sub256(r, P);
    }
    CongFromDiff(Value(r), Value(a), if Value(r) == Value(a) then 0 else -1, PRIME);
  }
}
