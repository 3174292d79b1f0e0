/** Bytes, 32-bit words, big-endian encodings and byte-string helpers shared by the hash and AEAD models. */
module Bytes {
  import opened ModArith

  type byte = bv8
  type word = bv32

  datatype Option<T> = None | Some(value: T)

  function Zeros(n: nat): (s: seq<byte>)
    ensures |s| == n && forall i :: 0 <= i < n ==> s[i] == 0
  {
    seq(n, _ => 0)
  }

  /** The concatenation of a sequence of slices. */
  function Concat(chunks: seq<seq<byte>>): seq<byte> {
    if chunks == [] then [] else Concat(chunks[..|chunks| - 1]) + chunks[|chunks| - 1]
  }

  lemma ConcatPrefix(slices: seq<seq<byte>>, i: nat)
    requires i < |slices|
    ensures Concat(slices[..i + 1]) == Concat(slices[..i]) + slices[i]
    ensures |Concat(slices[..i + 1])| <= |Concat(slices)|
    decreases |slices| - i
  {
    assert slices[..i + 1][..i] == slices[..i];
    if i + 1 < |slices| {
      ConcatPrefix(slices, i + 1);
    } else {
      assert slices[..i + 1] == slices;
    }
  }

  lemma Regroup(a: seq<byte>, b: seq<byte>, c: seq<byte>)
    ensures a + b + c == a + (b + c)
  {
  }

  /** `copy_from_slice` into a part of a buffer. */
  method CopyInto(target: array<byte>, at: nat, source: seq<byte>)
    requires at + |source| <= target.Length
    modifies target
    ensures target[..] == old(target[..at]) + source + old(target[at + |source|..])
  {
    forall i | 0 <= i < |source| { target[at + i] := source[i]; }
  }

  function Xor(a: seq<byte>, b: seq<byte>): (c: seq<byte>)
    requires |a| == |b|
    ensures |c| == |a| && forall i :: 0 <= i < |a| ==> c[i] == a[i] ^ b[i]
  {
    seq(|a|, i requires 0 <= i < |a| => a[i] ^ b[i])
  }

  // ---------------------------------------------------------------- words

  /** `u32::from_be_bytes`. */
  function FromBytes(b0: byte, b1: byte, b2: byte, b3: byte): word {
    (b0 as word << 24) | (b1 as word << 16) | (b2 as word << 8) | b3 as word
  }

  /** `u32::to_be_bytes`. */
  function ToBytes(w: word): (b: seq<byte>)
    ensures |b| == 4
  {
    [(w >> 24) as byte, ((w >> 16) & 0xFF) as byte, ((w >> 8) & 0xFF) as byte, (w & 0xFF) as byte]
  }

  function WordsOf(b: seq<byte>): (w: seq<word>)
    requires |b| % 4 == 0
    ensures |w| == |b| / 4
  {
    seq(|b| / 4, i requires 0 <= i < |b| / 4 => FromBytes(b[4 * i], b[4 * i + 1], b[4 * i + 2], b[4 * i + 3]))
  }

  function BytesOf(w: seq<word>): (b: seq<byte>)
    ensures |b| == 4 * |w|
  {
    if w == [] then [] else BytesOf(w[..|w| - 1]) + ToBytes(w[|w| - 1])
  }

  lemma BytesOfPrefix(w: seq<word>, i: nat)
    requires i < |w|
    ensures BytesOf(w[..i + 1]) == BytesOf(w[..i]) + ToBytes(w[i])
  {
    assert w[..i + 1][..i] == w[..i];
  }

  lemma WordRoundTrip(w: word)
    ensures var b := ToBytes(w); FromBytes(b[0], b[1], b[2], b[3]) == w
  {
  }

  lemma {:induction false} WordsOfBytesOf(w: seq<word>)
    ensures WordsOf(BytesOf(w)) == w
  {
    hide FromBytes, ToBytes;
    if w != [] {
      var n := |w| - 1;
      var b := BytesOf(w);
      WordsOfBytesOf(w[..n]);
      WordRoundTrip(w[n]);
      forall i | 0 <= i < |w|
        ensures WordsOf(b)[i] == w[i]
      {
        if i < n { assert WordsOf(BytesOf(w[..n]))[i] == w[i]; }
      }
    }
  }

  // ---------------------------------------------------------------- integers as bytes

  function ByteOf(n: nat): byte
    requires n < 256
  {
    n as byte
  }

  lemma ByteSuccessor(b: byte)
    requires b != 255
    ensures (b + 1) as int == b as int + 1
  {
  }

  lemma {:induction false} ByteFor(n: nat) returns (b: byte)
    requires n < 256
    ensures b as int == n
  {
    if n == 0 {
      return 0;
    }
    b := ByteFor(n - 1);
    assert (255 as byte) as int == 255;
    ByteSuccessor(b);
    b := b + 1;
  }

  lemma ByteOfInverse(b: byte)
    ensures 0 <= b as int < 256 && ByteOf(b as int) == b
  {
  }

  lemma ByteOfValue(n: nat)
    requires n < 256
    ensures ByteOf(n) as int == n
  {
    var b := ByteFor(n);
    ByteOfInverse(b);
  }

  /** The k low-order bytes of n, most significant first. */
  function BigEndian(n: nat, k: nat): (s: seq<byte>)
    ensures |s| == k
  {
    if k == 0 then [] else BigEndian(n / 256, k - 1) + [ByteOf(n % 256)]
  }

  function BigEndianValue(s: seq<byte>): nat {
    if s == [] then 0 else 256 * BigEndianValue(s[..|s| - 1]) + s[|s| - 1] as int
  }

  lemma {:induction false} BigEndianInverse(n: nat, k: nat)
    ensures Pow(256, k) > 0 && BigEndianValue(BigEndian(n, k)) == n % Pow(256, k)
  {
    if k > 0 {
      BigEndianInverse(n / 256, k - 1);
      ByteOfValue(n % 256);
      assert BigEndian(n, k)[..k - 1] == BigEndian(n / 256, k - 1);
      SplitModulus(n, Pow(256, k - 1));
    }
  }

  lemma SplitModulus(n: nat, m: nat)
    requires m > 0
    ensures n % (256 * m) == 256 * (n / 256 % m) + n % 256
  {
    var q, r := n / 256 / m, n / 256 % m;
    assert n / 256 == q * m + r;
    assert n == 256 * (q * m + r) + n % 256;
    assert q * (256 * m) == 256 * (q * m);
    DivModUnique(n, q, 256 * r + n % 256, 256 * m);
  }

  lemma {:induction false} BigEndianSuffix(n: nat, k: nat, j: nat)
    ensures BigEndian(n, k + j)[j..] == BigEndian(n, k)
  {
    if k > 0 {
      BigEndianSuffix(n / 256, k - 1, j);
    }
  }

  lemma {:induction false} BigEndianCong(n: nat, m: nat, k: nat)
    requires Pow(256, k) > 0 && Cong(n, m, Pow(256, k))
    ensures BigEndian(n, k) == BigEndian(m, k)
  {
    if k > 0 {
      var w := Pow(256, k - 1);
      BigEndianInverse(0, k - 1);
      SplitModulus(n, w);
      SplitModulus(m, w);
      BigEndianCong(n / 256, m / 256, k - 1);
    }
  }

  lemma {:induction false} BigEndianBound(s: seq<byte>)
    ensures BigEndianValue(s) < Pow(256, |s|)
  {
    if s != [] {
      BigEndianBound(s[..|s| - 1]);
      ByteOfInverse(s[|s| - 1]);
    }
  }

  lemma BigEndianLast(s: seq<byte>, x: byte)
    ensures BigEndianValue(s + [x]) == 256 * BigEndianValue(s) + x as int && 0 <= x as int < 256
  {
    hide Pow, BigEndian;
    ByteOfInverse(x);
    assert (s + [x])[..|s|] == s;
  }

  lemma {:induction false} BigEndianConcat(s: seq<byte>, t: seq<byte>)
    ensures BigEndianValue(s + t) == BigEndianValue(s) * Pow(256, |t|) + BigEndianValue(t)
  {
    if t == [] {
      assert s + t == s;
    } else {
      var n := |t| - 1;
      BigEndianConcat(s, t[..n]);
      ConcatLast(s, t);
    }
  }

  lemma ConcatLast(s: seq<byte>, t: seq<byte>)
    requires t != []
    requires var u := t[..|t| - 1]; BigEndianValue(s + u) == BigEndianValue(s) * Pow(256, |u|) + BigEndianValue(u)
    ensures BigEndianValue(s + t) == BigEndianValue(s) * Pow(256, |t|) + BigEndianValue(t)
  {
    hide BigEndianValue;
    var u, x := t[..|t| - 1], t[|t| - 1];
    assert s + t == (s + u) + [x] && t == u + [x];
    BigEndianLast(s + u, x);
    BigEndianLast(u, x);
    AppendDigit(BigEndianValue(s), Pow(256, |u|), BigEndianValue(u), x as int);
  }

  lemma AppendDigit(high: int, w: int, low: int, x: int)
    ensures 256 * (high * w + low) + x == high * (256 * w) + (256 * low + x)
  {
    assert 256 * (high * w) == high * (256 * w);
  }

  /** Byte strings of one length are determined by their value. */
  lemma {:induction false} BigEndianInjective(s: seq<byte>, t: seq<byte>)
    requires |s| == |t| && BigEndianValue(s) == BigEndianValue(t)
    ensures s == t
  {
    if s != [] {
      var n := |s| - 1;
      assert s == s[..n] + [s[n]] && t == t[..n] + [t[n]];
      BigEndianLastInjective(s[..n], s[n], t[..n], t[n]);
      BigEndianInjective(s[..n], t[..n]);
    }
  }

  lemma BigEndianLastInjective(s: seq<byte>, x: byte, t: seq<byte>, y: byte)
    requires BigEndianValue(s + [x]) == BigEndianValue(t + [y])
    ensures BigEndianValue(s) == BigEndianValue(t) && x == y
  {
    hide BigEndianValue;
    BigEndianLast(s, x);
    BigEndianLast(t, y);
    ByteOfInverse(x);
    ByteOfInverse(y);
  }

  // ---------------------------------------------------------------- words as integers

  lemma AppendWord(s: seq<byte>, a: byte, b: byte, c: byte, d: byte) returns (t: seq<byte>)
    ensures t == s + [a, b, c, d]
    ensures BigEndianValue(t) == 0x1_0000_0000 * BigEndianValue(s)
      + 0x100_0000 * a as int + 0x1_0000 * b as int + 0x100 * c as int + d as int
  {
    hide BigEndianValue;
    t := s + [a] + [b] + [c] + [d];
    BigEndianLast(s, a);
    BigEndianLast(s + [a], b);
    BigEndianLast(s + [a] + [b], c);
    BigEndianLast(s + [a] + [b] + [c], d);
  }

  lemma NoValue()
    ensures BigEndianValue([]) == 0
  {
  }

  // Integer values as functions of their own, so that sums of them stay sums of integers.
  function ByteValue(b: byte): int {
    b as int
  }

  function WordValue(w: word): int {
    w as int
  }

  lemma SplitTopByte(w: word)
    ensures WordValue(w) == 0x100_0000 * ByteValue((w >> 24) as byte) + WordValue(w & 0xFF_FFFF)
  {
    assert (w >> 24) as int == ((w >> 24) as byte) as int;
  }

  lemma SplitSecondByte(w: word)
    requires w <= 0xFF_FFFF
    ensures WordValue(w) == 0x1_0000 * ByteValue((w >> 16) as byte) + WordValue(w & 0xFFFF)
  {
    assert (w >> 16) as int == ((w >> 16) as byte) as int;
  }

  lemma SplitThirdByte(w: word)
    requires w <= 0xFFFF
    ensures WordValue(w) == 0x100 * ByteValue((w >> 8) as byte) + ByteValue((w & 0xFF) as byte)
  {
    assert (w >> 8) as int == ((w >> 8) as byte) as int;
    assert (w & 0xFF) as int == ((w & 0xFF) as byte) as int;
  }

  lemma SplitLowBytes(w: word)
    ensures w & 0xFF_FFFF <= 0xFF_FFFF && w & 0xFFFF <= 0xFFFF
    ensures ((w & 0xFF_FFFF) >> 16) as byte == ((w >> 16) & 0xFF) as byte
    ensures (w & 0xFF_FFFF) & 0xFFFF == w & 0xFFFF
    ensures ((w & 0xFFFF) >> 8) as byte == ((w >> 8) & 0xFF) as byte
    ensures ((w & 0xFFFF) & 0xFF) as byte == (w & 0xFF) as byte
  {
  }

  lemma TopTerm(w: word)
    ensures WordValue(w) == 0x100_0000 * ByteValue(ToBytes(w)[0]) + WordValue(w & 0xFF_FFFF)
  {
    hide WordValue, ByteValue;
    SplitTopByte(w);
  }

  lemma SecondTerm(w: word)
    ensures WordValue(w & 0xFF_FFFF) == 0x1_0000 * ByteValue(ToBytes(w)[1]) + WordValue(w & 0xFFFF)
  {
    hide WordValue, ByteValue;
    SplitLowBytes(w);
    SplitSecondByte(w & 0xFF_FFFF);
  }

  lemma LowTerms(w: word)
    ensures WordValue(w & 0xFFFF) == 0x100 * ByteValue(ToBytes(w)[2]) + ByteValue(ToBytes(w)[3])
  {
    hide WordValue, ByteValue;
    SplitLowBytes(w);
    SplitThirdByte(w & 0xFFFF);
  }

  lemma AppendBytes(b: seq<byte>)
    requires |b| == 4
    ensures BigEndianValue(b) == 0x100_0000 * ByteValue(b[0]) + 0x1_0000 * ByteValue(b[1])
      + 0x100 * ByteValue(b[2]) + ByteValue(b[3])
  {
    hide BigEndianValue;
    NoValue();
    var t := AppendWord([], b[0], b[1], b[2], b[3]);
    assert t == b;
  }

  /** The bytes of a word, most significant first, are those of its value. */
  lemma ToBytesValue(w: word)
    ensures BigEndianValue(ToBytes(w)) == WordValue(w)
  {
    hide BigEndianValue, ToBytes, ByteValue, WordValue;
    TopTerm(w);
    SecondTerm(w);
    LowTerms(w);
    AppendBytes(ToBytes(w));
  }

  lemma ByteTripBack(b0: byte, b1: byte, b2: byte, b3: byte)
    ensures ToBytes(FromBytes(b0, b1, b2, b3)) == [b0, b1, b2, b3]
  {
  }

  /** And the word made of four bytes has their big-endian value. */
  lemma FromBytesValue(b0: byte, b1: byte, b2: byte, b3: byte)
    ensures WordValue(FromBytes(b0, b1, b2, b3)) == BigEndianValue([b0, b1, b2, b3])
  {
    hide BigEndianValue, ToBytes, FromBytes, WordValue;
    ByteTripBack(b0, b1, b2, b3);
    ToBytesValue(FromBytes(b0, b1, b2, b3));
  }
}
