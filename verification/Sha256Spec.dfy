/** SHA-256 as FIPS 180-4 defines it: sections 4.1.2, 4.2.2, 5.1.1, 5.3.3 and 6.2. */
module Sha256Spec {
  import opened Bytes

  function Ch(x: word, y: word, z: word): word {
    (x & y) ^ (!x & z)
  }

  function Maj(x: word, y: word, z: word): word {
    (x & y) ^ (x & z) ^ (y & z)
  }

  /** Addition modulo 2^32. */
  function WrappingAdd(x: word, y: word): word {
    x + y
  }

  function BigSigma0(x: word): word {
    x.RotateRight(2) ^ x.RotateRight(13) ^ x.RotateRight(22)
  }

  function BigSigma1(x: word): word {
    x.RotateRight(6) ^ x.RotateRight(11) ^ x.RotateRight(25)
  }

  function SmallSigma0(x: word): word {
    x.RotateRight(7) ^ x.RotateRight(18) ^ (x >> 3)
  }

  function SmallSigma1(x: word): word {
    x.RotateRight(17) ^ x.RotateRight(19) ^ (x >> 10)
  }

  function Sum4(p: word, q: word, r: word, s: word): word {
    WrappingAdd(WrappingAdd(WrappingAdd(p, q), r), s)
  }

  // Section 4.2.2, eight words a row; Sha256Constants proves what they are.
  const K_0: seq<word> :=
    [0x428a2f98, 0x71374491, 0xb5c0fbcf, 0xe9b5dba5, 0x3956c25b, 0x59f111f1, 0x923f82a4, 0xab1c5ed5]
  const K_1: seq<word> :=
    [0xd807aa98, 0x12835b01, 0x243185be, 0x550c7dc3, 0x72be5d74, 0x80deb1fe, 0x9bdc06a7, 0xc19bf174]
  const K_2: seq<word> :=
    [0xe49b69c1, 0xefbe4786, 0x0fc19dc6, 0x240ca1cc, 0x2de92c6f, 0x4a7484aa, 0x5cb0a9dc, 0x76f988da]
  const K_3: seq<word> :=
    [0x983e5152, 0xa831c66d, 0xb00327c8, 0xbf597fc7, 0xc6e00bf3, 0xd5a79147, 0x06ca6351, 0x14292967]
  const K_4: seq<word> :=
    [0x27b70a85, 0x2e1b2138, 0x4d2c6dfc, 0x53380d13, 0x650a7354, 0x766a0abb, 0x81c2c92e, 0x92722c85]
  const K_5: seq<word> :=
    [0xa2bfe8a1, 0xa81a664b, 0xc24b8b70, 0xc76c51a3, 0xd192e819, 0xd6990624, 0xf40e3585, 0x106aa070]
  const K_6: seq<word> :=
    [0x19a4c116, 0x1e376c08, 0x2748774c, 0x34b0bcb5, 0x391c0cb3, 0x4ed8aa4a, 0x5b9cca4f, 0x682e6ff3]
  const K_7: seq<word> :=
    [0x748f82ee, 0x78a5636f, 0x84c87814, 0x8cc70208, 0x90befffa, 0xa4506ceb, 0xbef9a3f7, 0xc67178f2]

  const K: seq<word> := K_0 + K_1 + K_2 + K_3 + K_4 + K_5 + K_6 + K_7

  type Chain = h: seq<word> | |h| == 8 witness [0, 0, 0, 0, 0, 0, 0, 0]
  type Block = b: seq<byte> | |b| == 64 witness seq(64, _ => 0)

  /** H(0). */
  const IV: Chain := [
    0x6a09e667, 0xbb67ae85, 0x3c6ef372, 0xa54ff53a, 0x510e527f, 0x9b05688c, 0x1f83d9ab, 0x5be0cd19]

  /** The message schedule W_t. */
  function W(block: Block, t: nat): word {
    if t < 16 then FromBytes(block[4 * t], block[4 * t + 1], block[4 * t + 2], block[4 * t + 3])
    else Sum4(SmallSigma1(W(block, t - 2)), W(block, t - 7), SmallSigma0(W(block, t - 15)), W(block, t - 16))
  }

  datatype Working = Working(a: word, b: word, c: word, d: word, e: word, f: word, g: word, h: word)

  function Round(v: Working, k: word, w: word): Working {
    var t1 := WrappingAdd(Sum4(v.h, BigSigma1(v.e), Ch(v.e, v.f, v.g), k), w);
    var t2 := WrappingAdd(BigSigma0(v.a), Maj(v.a, v.b, v.c));
    Working(WrappingAdd(t1, t2), v.a, v.b, v.c, WrappingAdd(v.d, t1), v.e, v.f, v.g)
  }

  /** The working variables after the first t rounds. */
  function Rounds(h: Chain, block: Block, t: nat): Working
    requires t <= 64
  {
    if t == 0 then Working(h[0], h[1], h[2], h[3], h[4], h[5], h[6], h[7])
    else Round(Rounds(h, block, t - 1), K[t - 1], W(block, t - 1))
  }

  /** One application of the compression function. */
  function Compress(h: Chain, block: Block): Chain {
    var v := Rounds(h, block, 64);
    [WrappingAdd(h[0], v.a), WrappingAdd(h[1], v.b), WrappingAdd(h[2], v.c), WrappingAdd(h[3], v.d),
     WrappingAdd(h[4], v.e), WrappingAdd(h[5], v.f), WrappingAdd(h[6], v.g), WrappingAdd(h[7], v.h)]
  }

  /** The chaining value after whole blocks of data. */
  function Absorb(h: Chain, data: seq<byte>): Chain
    requires |data| % 64 == 0
    decreases |data|
  {
    if |data| == 0 then h else Absorb(Compress(h, data[..64]), data[64..])
  }

  lemma {:induction false} AbsorbConcat(h: Chain, a: seq<byte>, b: seq<byte>)
    requires |a| % 64 == 0 && |b| % 64 == 0
    ensures Absorb(h, a + b) == Absorb(Absorb(h, a), b)
    decreases |a|
  {
    if |a| == 0 {
      assert a + b == b;
    } else {
      assert (a + b)[..64] == a[..64];
      assert (a + b)[64..] == a[64..] + b;
      AbsorbConcat(Compress(h, a[..64]), a[64..], b);
    }
  }

  /** The padding of an n-byte message: a one bit, zeros up to 56 modulo 64, the length in bits. */
  function Padding(n: nat): (p: seq<byte>)
    ensures 9 <= |p| <= 72 && (n + |p|) % 64 == 0
  {
    FillsBlock(n, (55 - n) % 64);
    [0x80] + Zeros((55 - n) % 64) + BigEndian(8 * n, 8)
  }

  lemma FillsBlock(n: nat, zeros: nat)
    requires zeros == (55 - n) % 64
    ensures zeros < 64 && (n + 1 + zeros + 8) % 64 == 0
  {
    var q := (55 - n) / 64;
    assert n + 1 + zeros + 8 == (1 - q) * 64;
  }

  /** The SHA-256 digest. FIPS 180-4 defines it for messages below 2^61 bytes. */
  function Sha256(m: seq<byte>): (d: seq<byte>)
    ensures |d| == 32
  {
    BytesOf(Absorb(IV, m + Padding(|m|)))
  }
}
