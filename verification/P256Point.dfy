/**
 * Exponentiation modulo p, recovery of the y coordinate from the compact (x-only) representation of
 * RFC 9528, the byte encodings of field elements and the rejection sampling of secret scalars.
 */
module P256Point {
  import opened ModArith
  import opened NumberTheory
  import opened Bytes
  import opened Limbs
  import opened P256Field
  import opened P256Prime

  /** Limbs as a natural number. */
  function Nat(s: seq<u32>): (n: nat)
    ensures n == Value(s)
  {
    ValueBound(s);
    Value(s)
  }

  // ---------------------------------------------------------------- square and multiply

  lemma MulPower(x: int, y: int, base: int, d: nat, e: nat)
    requires Cong(x, Pow(base, d), PRIME) && Cong(y, Pow(base, e), PRIME)
    ensures Cong(x * y % PRIME, Pow(base, d + e), PRIME)
  {
    CongMul(x, Pow(base, d), y, Pow(base, e), PRIME);
    PowAdd(base, d, e);
    CongMod(x * y, PRIME);
  }

  /** result and base hold b^e and b^w modulo p. */
  ghost predicate Holds(result: Limbs8, base: Limbs8, b: int, e: nat, w: nat) {
    && Value(result) == Pow(b, e) % PRIME
    && Cong(Value(base), Pow(b, w), PRIME)
  }

  lemma MultiplyStep(result: Limbs8, base: Limbs8, b: int, e: nat, w: nat, result': Limbs8)
    requires Holds(result, base, b, e, w) && Value(result') == Value(result) * Value(base) % PRIME
    ensures Holds(result', base, b, e + w, w)
  {
    CongMod(Pow(b, e), PRIME);
    MulPower(Value(result), Value(base), b, e, w);
    CongReduced(Value(result'), Pow(b, e + w), PRIME);
  }

  lemma SquareStep(result: Limbs8, base: Limbs8, b: int, e: nat, w: nat, base': Limbs8)
    requires Holds(result, base, b, e, w) && Value(base') == Value(base) * Value(base) % PRIME
    ensures Holds(result, base', b, e, w + w)
  {
    MulPower(Value(base), Value(base), b, w, w);
  }

  lemma HalveWord(word: nat, e: nat, w: nat)
    ensures e + word * w == (if word % 2 != 0 then e + w else e) + word / 2 * (w + w)
  {
    var rest := word / 2;
    assert word == 2 * rest + word % 2;
    assert word * w == rest * (w + w) + word % 2 * w;
  }

  /** The 32 steps for one exponent word: afterwards the word's bits have been absorbed. */
  method PowWord(result0: Limbs8, base0: Limbs8, word0: u32, ghost b: int, ghost e0: nat, ghost w0: nat)
      returns (result: Limbs8, base: Limbs8)
    requires Holds(result0, base0, b, e0, w0)
    ensures word0 * w0 >= 0 && Holds(result, base, b, e0 + word0 * w0, WORD * w0)
  {
    hide Holds, Value, Pow;
    result, base := result0, base0;
    var word: nat := word0;
    ghost var e: nat, w: nat := e0, w0;
    TwoTo32();
    for k := 0 to 32
      invariant Holds(result, base, b, e, w)
      invariant w == Pow(2, k) * w0 && word < Pow(2, 32 - k)
      invariant e + word * w == e0 + word0 * w0
    {
      HalveWord(word, e, w);
      DoubleWeight(k, w0);
      if word % 2 != 0 {
        ghost var before := result;
        result := MulMod(result, base);
        MultiplyStep(before, base, b, e, w, result);
        e := e + w;
      }
      ghost var before := base;
      base := MulMod(base, base);
      SquareStep(result, before, b, e, w, base);
      w := w + w;
      word := word / 2;
    }
  }

  lemma DoubleWeight(k: nat, w0: nat)
    requires k < 32
    ensures Pow(2, 32 - k) == 2 * Pow(2, 31 - k)
    ensures Pow(2, k + 1) * w0 == 2 * (Pow(2, k) * w0)
  {
  }

  /** Square-and-multiply, least significant word and bit first, for any 256-bit base and exponent. */
  method PowMod(b: Limbs8, exp: Limbs8) returns (result: Limbs8)
    ensures Value(result) == Pow(Value(b), Nat(exp)) % PRIME
  {
    result := [1, 0, 0, 0, 0, 0, 0, 0];
    Value8(result);
    var base := b;
    ghost var e: nat, w: nat := 0, 1;
    for i := 0 to 8
      invariant e == Value(exp[..i]) && w == Pow(WORD, i)
      invariant Holds(result, base, Value(b), e, w)
    {
      result, base := PowWord(result, base, exp[i], Value(b), e, w);
      ValuePrefix(exp, i);
      e, w := e + exp[i] * w, WORD * w;
    }
    assert exp[..8] == exp;
  }

  lemma TwoTo32()
    ensures Pow(2, 0) == 1 && Pow(2, 32) == WORD
  {
    PowAdd(2, 16, 16);
    PowAdd(2, 8, 8);
    assert Pow(2, 8) == 256;
  }

  // ---------------------------------------------------------------- byte encodings

  type Bytes32 = s: seq<byte> | |s| == 32 witness seq(32, _ => 0)

  /** `u32::from_be_bytes`, as an integer. */
  function WordFrom(b: seq<byte>): (x: u32)
    requires |b| == 4
    ensures x == BigEndianValue(b)
  {
    BigEndianBound(b);
    FourBytes();
    BigEndianValue(b)
  }

  lemma FourBytes()
    ensures Pow(256, 4) == WORD
  {
    PowAdd(256, 2, 2);
    assert Pow(256, 2) == 0x1_0000;
  }

  lemma ValuePrepend(x: int, s: seq<int>)
    ensures Value([x] + s) == x + WORD * Value(s)
  {
    ValueSplit([x] + s, 1);
    assert ([x] + s)[..1] == [x] && ([x] + s)[1..] == s;
    assert [x][..0] == [];
    assert Pow(WORD, 0) == 1 && Pow(WORD, 1) == WORD;
  }

  /** Four more bytes at the low end of the byte string are one more limb at the low end of the limbs. */
  lemma EncodingStep(high: seq<byte>, b: seq<byte>, s: seq<u32>, x: u32)
    requires |b| == 4 && BigEndianValue(b) == x && BigEndianValue(high) == Value(s)
    ensures BigEndianValue(high + b) == Value([x] + s)
  {
    hide BigEndianValue, Value;
    BigEndianConcat(high, b);
    FourBytes();
    ValuePrepend(x, s);
  }

  lemma EncodingStart(b: seq<byte>, w: seq<u32>)
    requires b == [] && w == []
    ensures BigEndianValue(b) == Value(w)
  {
  }

  /** Big-endian bytes to little-endian limbs; the value is preserved. */
  method BytesToWords(b: Bytes32) returns (w: Limbs8)
    ensures Value(w) == BigEndianValue(b)
  {
    hide Value, BigEndianValue;
    var out := new u32[8];
    var i := 0;
    EncodingStart(b[..0], out[8..]);
    while i < 8
      invariant 0 <= i <= 8
      invariant BigEndianValue(b[..4 * i]) == Value(out[8 - i..])
    {
      ghost var before := out[8 - i..];
      out[7 - i] := WordFrom(b[4 * i..4 * i + 4]);
      EncodingStep(b[..4 * i], b[4 * i..4 * i + 4], before, out[7 - i]);
      assert out[7 - i..] == [out[7 - i]] + before;
      assert b[..4 * i] + b[4 * i..4 * i + 4] == b[..4 * i + 4];
      i := i + 1;
    }
    assert b[..32] == b && out[0..] == out[..];
    w := out[..];
  }

  /** `u32::to_be_bytes`. */
  function WordBytes(x: u32): (b: seq<byte>)
    ensures |b| == 4 && BigEndianValue(b) == x
  {
    BigEndianInverse(x, 4);
    FourBytes();
    DivModUnique(x, 0, x, WORD);
    BigEndian(x, 4)
  }

  /** Little-endian limbs to big-endian bytes; the value is preserved. */
  method WordsToBytes(w: Limbs8) returns (b: Bytes32)
    ensures BigEndianValue(b) == Value(w)
  {
    hide Value, BigEndianValue, WordBytes;
    var out := new byte[32];
    EncodingStart(out[..0], w[8..]);
    for i := 0 to 8
      invariant BigEndianValue(out[..4 * i]) == Value(w[8 - i..])
    {
      ghost var before := out[..4 * i];
      var x := w[7 - i];
      CopyInto(out, i * 4, WordBytes(x));
      EncodingStep(before, WordBytes(x), w[8 - i..], x);
      assert out[..4 * i + 4] == before + WordBytes(x);
      assert w[7 - i..] == [x] + w[8 - i..];
    }
    assert w[0..] == w && out[..32] == out[..];
    b := out[..];
  }

  // ---------------------------------------------------------------- compact point decompression

  /** The curve coefficient b. */
  const COEFFICIENT_B: int := 0x5AC6_35D8_AA3A_93E7_B3EB_BD55_7698_86BC_651D_06B0_CC53_B0F6_3BCE_3C3E_27D2_604B

  const B: Limbs8 := [
    0x27D2_604B, 0x3BCE_3C3E, 0xCC53_B0F6, 0x651D_06B0,
    0x7698_86BC, 0xB3EB_BD55, 0xAA3A_93E7, 0x5AC6_35D8]

  /** The exponent (p + 1) / 4 of the square root. */
  const SQRT_EXP: Limbs8 := [
    0x0000_0000, 0x0000_0000, 0x4000_0000, 0x0000_0000,
    0x0000_0000, 0x4000_0000, 0xC000_0000, 0x3FFF_FFFF]

  datatype Result<T> = Ok(value: T) | ImportError

  /** The right-hand side of the curve equation y^2 = x^3 - 3x + b. */
  function CurveRhs(x: int): int {
    x * x * x - 3 * x + COEFFICIENT_B
  }

  predicate IsRoot(y: nat, z: int) {
    Cong(y * y, z, PRIME)
  }

  /** z is a square modulo p. */
  ghost predicate IsSquare(z: int) {
    exists y: nat :: IsRoot(y, z)
  }

  lemma Constants()
    ensures Value(B) == COEFFICIENT_B < PRIME
    ensures Nat(SQRT_EXP) * 4 == PRIME + 1
    ensures Value([3, 0, 0, 0, 0, 0, 0, 0]) == 3
  {
    Value8(B);
    Value8(SQRT_EXP);
    Value8([3, 0, 0, 0, 0, 0, 0, 0]);
  }

  // The generator, as its big-endian encodings denote it.
  const GENERATOR_X: int := 0x6B17_D1F2_E12C_4247_F8BC_E6E5_63A4_40F2_7703_7D81_2DEB_33A0_F4A1_3945_D898_C296
  const GENERATOR_Y: int := 0x4FE3_42E2_FE1A_7F9B_8EE7_EB4A_7C0F_9E16_2BCE_3357_6B31_5ECE_CBB6_4068_37BF_51F5

  const P256_GX_BYTES: Bytes32 :=
    [0x6b, 0x17, 0xd1, 0xf2, 0xe1, 0x2c, 0x42, 0x47, 0xf8, 0xbc, 0xe6, 0xe5, 0x63, 0xa4, 0x40, 0xf2]
    + [0x77, 0x03, 0x7d, 0x81, 0x2d, 0xeb, 0x33, 0xa0, 0xf4, 0xa1, 0x39, 0x45, 0xd8, 0x98, 0xc2, 0x96]
  const P256_GY_BYTES: Bytes32 :=
    [0x4f, 0xe3, 0x42, 0xe2, 0xfe, 0x1a, 0x7f, 0x9b, 0x8e, 0xe7, 0xeb, 0x4a, 0x7c, 0x0f, 0x9e, 0x16]
    + [0x2b, 0xce, 0x33, 0x57, 0x6b, 0x31, 0x5e, 0xce, 0xcb, 0xb6, 0x40, 0x68, 0x37, 0xbf, 0x51, 0xf5]

  /** The big-endian encodings of the source denote the generator. */
  lemma GeneratorBytes()
    ensures BigEndianValue(P256_GX_BYTES) == GENERATOR_X && BigEndianValue(P256_GY_BYTES) == GENERATOR_Y
  {
    GeneratorXBytes();
    GeneratorYBytes();
  }

  lemma GeneratorXBytes()
    ensures BigEndianValue(P256_GX_BYTES) == GENERATOR_X
  {
    hide BigEndianValue;
    NoValue();
    var s: seq<byte> := [];
    s := AppendWord(s, 0x6b, 0x17, 0xd1, 0xf2);
    s := AppendWord(s, 0xe1, 0x2c, 0x42, 0x47);
    s := AppendWord(s, 0xf8, 0xbc, 0xe6, 0xe5);
    s := AppendWord(s, 0x63, 0xa4, 0x40, 0xf2);
    assert s == P256_GX_BYTES[..16];
    s := AppendWord(s, 0x77, 0x03, 0x7d, 0x81);
    s := AppendWord(s, 0x2d, 0xeb, 0x33, 0xa0);
    s := AppendWord(s, 0xf4, 0xa1, 0x39, 0x45);
    s := AppendWord(s, 0xd8, 0x98, 0xc2, 0x96);
    assert s == P256_GX_BYTES;
  }

  lemma GeneratorYBytes()
    ensures BigEndianValue(P256_GY_BYTES) == GENERATOR_Y
  {
    hide BigEndianValue;
    NoValue();
    var s: seq<byte> := [];
    s := AppendWord(s, 0x4f, 0xe3, 0x42, 0xe2);
    s := AppendWord(s, 0xfe, 0x1a, 0x7f, 0x9b);
    s := AppendWord(s, 0x8e, 0xe7, 0xeb, 0x4a);
    s := AppendWord(s, 0x7c, 0x0f, 0x9e, 0x16);
    assert s == P256_GY_BYTES[..16];
    s := AppendWord(s, 0x2b, 0xce, 0x33, 0x57);
    s := AppendWord(s, 0x6b, 0x31, 0x5e, 0xce);
    s := AppendWord(s, 0xcb, 0xb6, 0x40, 0x68);
    s := AppendWord(s, 0x37, 0xbf, 0x51, 0xf5);
    assert s == P256_GY_BYTES;
  }

  /** The generator lies on the curve. Since b is a field element, this alone determines it. */
  lemma GeneratorOnCurve()
    ensures 0 <= GENERATOR_X < PRIME && 0 <= GENERATOR_Y < PRIME
    ensures IsRoot(GENERATOR_Y, CurveRhs(GENERATOR_X))
  {
  }

  /** The curve is the one that FIPS 186-4 section D.1.2.3 generates from its seed: b^2 * c = -27. */
  lemma SeedRelation()
    ensures var c := 0x7EFB_A166_2985_BE94_03CB_055C_75D4_F7E0_CE8D_84A9_C511_4ABC_AF31_7768_0104_FA0D;
      Cong(COEFFICIENT_B * COEFFICIENT_B * c, -27, PRIME)
  {
  }

  /** b is the only field element that puts the generator on the curve. */
  lemma CoefficientUnique(b: int)
    requires 0 <= b < PRIME
    ensures b == COEFFICIENT_B
      <==> IsRoot(GENERATOR_Y, GENERATOR_X * GENERATOR_X * GENERATOR_X - 3 * GENERATOR_X + b)
  {
    GeneratorOnCurve();
    Constants();
    var c := GENERATOR_X * GENERATOR_X * GENERATOR_X - 3 * GENERATOR_X;
    if IsRoot(GENERATOR_Y, c + b) {
      CongAdd(c + b, c + COEFFICIENT_B, -c, -c, PRIME);
      CongReduced(b, COEFFICIENT_B, PRIME);
      CongReduced(COEFFICIENT_B, COEFFICIENT_B, PRIME);
    }
  }

  /** If z is a square at all, z^((p+1)/4) is one of its roots. */
  lemma CandidateRoot(z: nat, e: nat)
    requires e * 4 == PRIME + 1 && IsSquare(z)
    ensures IsRoot(Pow(z, e) % PRIME, z)
  {
    var w: nat :| IsRoot(w, z);
    var y := Pow(z, e) % PRIME;
    CongMod(Pow(z, e), PRIME);
    CongMul(y, Pow(z, e), y, Pow(z, e), PRIME);
    PowAdd(z, e, e);
    assert Cong(y * y, Pow(z, e + e), PRIME);
    PowCong(w * w, z, e + e, PRIME);
    PowProduct(w, w, e + e);
    PowAdd(w, e + e, e + e);
    assert Pow(w, PRIME + 1) == w * Pow(w, PRIME);
    FieldPrime();
    Fermat(PRIME, w);
    CongMul(w, w, Pow(w, PRIME), w, PRIME);
  }

  /**
   * Recovery of y from x. It succeeds exactly when x is a field element on the curve, and then
   * returns a field element y with y^2 = x^3 - 3x + b.
   */
  method RecoverY(xBytes: Bytes32) returns (r: Result<Bytes32>)
    ensures r.Ok? <==> BigEndianValue(xBytes) < PRIME && IsSquare(CurveRhs(BigEndianValue(xBytes)))
    ensures r.Ok? ==>
      var y := BigEndianValue(r.value); y < PRIME && IsRoot(y, CurveRhs(BigEndianValue(xBytes)))
  {
    var x := BytesToWords(xBytes);
    PrimeLimbs();
    var outOfField := Ge(x, P);
    if outOfField {
      return ImportError;
    }
    Constants();
    var a := Sub256(P, [3, 0, 0, 0, 0, 0, 0, 0]);
    var x2 := MulMod(x, x);
    var x3 := MulMod(x2, x);
    var ax := MulMod(a, x);
    var sum := AddMod(x3, ax);
    var rhs := AddMod(sum, B);
    RhsValue(Value(x), Value(x2), Value(x3), Value(ax), Value(sum), Value(rhs));

    var y := PowMod(rhs, SQRT_EXP);
    var y2 := MulMod(y, y);
    RootCheck(Value(rhs), Value(y), Value(y2), CurveRhs(Value(x)));
    if y2 != rhs {
      if Value(y2) == Value(rhs) {
        ValueInjective(y2, rhs);
      }
      return ImportError;
    }
    var yBytes := WordsToBytes(y);
    return Ok(yBytes);
  }

  /** From the x coordinate of the generator, decompression returns its y coordinate or the opposite one. */
  method RecoverGenerator() returns (y: Bytes32)
    ensures BigEndianValue(y) == GENERATOR_Y || BigEndianValue(y) == PRIME - GENERATOR_Y
  {
    hide BigEndianValue, IsSquare;
    var r := RecoverY(P256_GX_BYTES);
    GeneratorBytes();
    GeneratorOnCurve();
    SquareOf(GENERATOR_Y, CurveRhs(GENERATOR_X));
    y := r.value;
    var v := BigEndianValue(y);
    RootsOpposite(GENERATOR_Y, v, CurveRhs(GENERATOR_X));
    CanonicalOpposite(v, GENERATOR_Y);
  }

  lemma SquareOf(y: nat, z: int)
    requires IsRoot(y, z)
    ensures IsSquare(z)
  {
  }

  lemma CanonicalOpposite(v: nat, y: nat)
    requires v < PRIME && 0 < y < PRIME && (Cong(v, y, PRIME) || Cong(v + y, 0, PRIME))
    ensures v == y || v == PRIME - y
  {
    if Cong(v, y, PRIME) {
      DivModUnique(v, 0, v, PRIME);
      DivModUnique(y, 0, y, PRIME);
    } else {
      var k := DiffFromCong(v + y, 0, PRIME);
    }
  }

  /** There are no other roots: any two are equal or opposite, so either serves for the x-coordinate. */
  lemma RootsOpposite(y: nat, w: nat, z: int)
    requires IsRoot(y, z) && IsRoot(w, z)
    ensures Cong(w, y, PRIME) || Cong(w + y, 0, PRIME)
  {
    FieldPrime();
    var d: int, s := w as int - y, w + y;
    var k := DiffFromCong(w * w, y * y, PRIME);
    DifferenceOfSquares(w, y);
    assert d * s == k * PRIME;
    DividesMultiple(PRIME, k);
    PrimeDividesFactor(PRIME, d, s);
    if Divides(PRIME, d) {
      var q := DividesQuotient(PRIME, d);
      CongFromDiff(w, y, q, PRIME);
    } else {
      var q := DividesQuotient(PRIME, s);
      CongFromDiff(s, 0, q, PRIME);
    }
  }

  lemma DifferenceOfSquares(w: int, y: int)
    ensures (w - y) * (w + y) == w * w - y * y
  {
  }

  /** The straight-line evaluation of the right-hand side, step by step modulo p. */
  lemma RhsValue(x: int, x2: int, x3: int, ax: int, sum: int, rhs: int)
    requires x2 == x * x % PRIME && x3 == x2 * x % PRIME && ax == (PRIME - 3) * x % PRIME
    requires sum == AddModValue(x3, ax) && rhs == AddModValue(sum, COEFFICIENT_B)
    ensures 0 <= rhs < PRIME && Cong(rhs, CurveRhs(x), PRIME)
  {
    PrimeLimbs();
    Constants();
    AddModExact(x3, ax);
    AddModExact(sum, COEFFICIENT_B);
    CongMod(x * x, PRIME);
    CongMul(x2, x * x, x, x, PRIME);
    CongMod(x2 * x, PRIME);
    CongMod((PRIME - 3) * x, PRIME);
    assert (PRIME - 3) * x == -3 * x + x * PRIME;
    CongFromDiff((PRIME - 3) * x, -3 * x, x, PRIME);
    CongAdd(x3, x * x * x, ax, -3 * x, PRIME);
    CongMod(x3 + ax, PRIME);
    CongAdd(sum, x * x * x - 3 * x, COEFFICIENT_B, COEFFICIENT_B, PRIME);
    CongMod(sum + COEFFICIENT_B, PRIME);
  }

  /** The final check passes exactly for squares. */
  lemma RootCheck(rhs: nat, y: nat, y2: nat, z: int)
    requires rhs < PRIME && Cong(rhs, z, PRIME)
    requires y == Pow(rhs, Nat(SQRT_EXP)) % PRIME && y2 == y * y % PRIME
    ensures y2 == rhs <==> IsSquare(z)
    ensures y2 == rhs ==> IsRoot(y, z)
  {
    CongMod(y * y, PRIME);
    if y2 == rhs {
      assert IsRoot(y, z);
    } else if IsSquare(z) {
      var w: nat :| IsRoot(w, z);
      assert IsRoot(w, rhs);
      Constants();
      CandidateRoot(rhs, Nat(SQRT_EXP));
      CongReduced(y2, rhs, PRIME);
      DivModUnique(rhs, 0, rhs, PRIME);
    }
  }

  // ---------------------------------------------------------------- secret scalars

  /** The order n of the P-256 group. */
  const ORDER: int := 0xFFFF_FFFF_0000_0000_FFFF_FFFF_FFFF_FFFF_BCE6_FAAD_A717_9E84_F3B9_CAC2_FC63_2551

  const P256_ORDER: Limbs8 := [
    0xFC63_2551, 0xF3B9_CAC2, 0xA717_9E84, 0xBCE6_FAAD,
    0xFFFF_FFFF, 0xFFFF_FFFF, 0x0000_0000, 0xFFFF_FFFF]

  const ZERO: Limbs8 := [0, 0, 0, 0, 0, 0, 0, 0]

  predicate ValidScalar(b: seq<byte>) {
    1 <= BigEndianValue(b) < ORDER
  }

  lemma ScalarConstants()
    ensures Value(P256_ORDER) == ORDER && Value(ZERO) == 0
  {
    Value8(P256_ORDER);
    Value8(ZERO);
  }

  /** The order is a prime in the interval that Hasse's bound leaves to the order of a curve over the field. */
  lemma OrderPrime()
    ensures IsPrime(ORDER) && (PRIME + 1 - ORDER) * (PRIME + 1 - ORDER) <= 4 * PRIME && ORDER < PRIME
  {
    hide IsPrime;
    PrimeOrder();
  }

  /**
   * Rejection sampling of a secret scalar. The random generator is a finite supply of draws; the
   * first one that is a valid scalar is returned, and ImportError means that the supply ran out.
   */
  method GenerateVisible(draws: seq<Bytes32>) returns (r: Result<Bytes32>)
    ensures r.Ok? ==> ValidScalar(r.value) && 1 <= BigEndianValue(r.value) <= ORDER - 1
    ensures r.Ok? ==>
      exists k :: 0 <= k < |draws| && r.value == draws[k] && forall j :: 0 <= j < k ==> !ValidScalar(draws[j])
    ensures r.ImportError? ==> forall k :: 0 <= k < |draws| ==> !ValidScalar(draws[k])
  {
    for i := 0 to |draws|
      invariant forall j :: 0 <= j < i ==> !ValidScalar(draws[j])
    {
      var scalar := draws[i];
      var w := BytesToWords(scalar);
      var tooLarge := Ge(w, P256_ORDER);
      ScalarConstants();
      ValueBound(w);
      if w != ZERO && !tooLarge {
        if Value(w) == 0 { ValueInjective(w, ZERO); }
        return Ok(scalar);
      }
    }
    return ImportError;
  }

  /** Byte strings and limb arrays of equal value correspond one to one. */
  lemma EncodingBijective(b: Bytes32, w: Limbs8, c: Bytes32, v: Limbs8)
    requires BigEndianValue(b) == Value(w) && BigEndianValue(c) == Value(v)
    ensures b == c <==> w == v
  {
    if b == c { ValueInjective(w, v); }
    if w == v { BigEndianInjective(b, c); }
  }

  /** Both conversions undo each other, in either order. */
  method EncodingRoundTrips(b: Bytes32, w: Limbs8) returns (b': Bytes32, w': Limbs8)
    ensures b' == b && w' == w
  {
    var limbs := BytesToWords(b);
    b' := WordsToBytes(limbs);
    EncodingBijective(b, limbs, b', limbs);
    var bytes := WordsToBytes(w);
    w' := BytesToWords(bytes);
    EncodingBijective(bytes, w, bytes, w');
  }
}
