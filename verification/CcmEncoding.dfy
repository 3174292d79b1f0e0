/**
 * What the string under the CBC-MAC tells apart. The drivers check neither the length of the additional
 * data nor that of the message; PrefixFreeExactly and DeterminedExactly say up to which lengths the string
 * is a prefix-free encoding of its fields, and up to which it determines them at all.
 */
module CcmEncoding {
  import opened ModArith
  import opened Bytes
  import opened Ccm

  datatype Fields = Fields(nonce: seq<byte>, aad: seq<byte>, message: seq<byte>, tagLen: nat) {
    /** The two-byte length carries additional data of up to 2^16 bytes: 2^16 is written as 0. */
    predicate Encodable() {
      && ValidNonce(nonce) && ValidTagLength(tagLen)
      && |aad| <= 0x1_0000 && |message| < Pow(256, LengthSize(nonce))
    }

    function Encode(): seq<byte>
      requires Encodable()
    {
      Auth()
    }

    /** Nonce and tag length are those of RFC 3610; the lengths are arbitrary. */
    predicate Framed() {
      ValidNonce(nonce) && ValidTagLength(tagLen)
    }

    function Auth(): seq<byte>
      requires Framed()
    {
      AuthString(nonce, aad, message, tagLen)
    }

    predicate Within(maxAad: nat, maxMessage: nat) {
      |aad| <= maxAad && |message| <= maxMessage
    }
  }

  /** What the first byte announces: L, the tag length, and whether additional data follows. */
  function ParseFlags(f: int): (int, int, bool) {
    (f % 8 + 1, 2 * (f / 8 % 8) + 2, f / 64 % 2 == 1)
  }

  lemma ParseFields(a: nat, m: nat, l: nat)
    requires a < 2 && m < 8 && l < 8
    ensures ParseFlags(64 * a + 8 * m + l) == (l + 1, 2 * m + 2, a == 1)
  {
    FlagFields(a, m, l);
  }

  lemma ParseFlagsInverse(lengthSize: nat, hasAad: bool, tagLen: nat)
    requires 2 <= lengthSize <= 8 && ValidTagLength(tagLen)
    ensures ParseFlags(Flags(lengthSize, hasAad, tagLen) as int) == (lengthSize, tagLen, hasAad)
  {
    hide Flags, ParseFlags;
    FlagsValue(lengthSize, hasAad, tagLen);
    ParseFields(if hasAad then 1 else 0, (tagLen - 2) / 2, lengthSize - 1);
  }

  /** Reads the additional data at the head of s and returns it with the offset of what follows. */
  function DecodeAad(hasAad: bool, s: seq<byte>): Option<(seq<byte>, nat)> {
    if !hasAad then Some(([], 0))
    else if |s| < 2 then None
    else
      var length := BigEndianValue(s[..2]);
      var n := if length == 0 then 0x1_0000 else length;
      if |s| < RoundUp(2 + n) then None else Some((s[2..2 + n], RoundUp(2 + n)))
  }

  function Decode(s: seq<byte>): Option<Fields> {
    if |s| < 16 then None
    else
      var (l, t, hasAad) := ParseFlags(s[0] as int);
      var aad := DecodeAad(hasAad, s[16..]);
      if l > 8 || aad == None then None
      else
        var msgLen := BigEndianValue(s[16 - l..16]);
        var start := 16 + aad.value.1;
        if |s| < start + msgLen then None
        else Some(Fields(s[1..16 - l], aad.value.0, s[start..start + msgLen], t))
  }

  lemma DecodeAadInverse(aad: seq<byte>, rest: seq<byte>)
    requires |aad| <= 0x1_0000
    ensures DecodeAad(aad != [], AadBlocks(aad) + rest) == Some((aad, |AadBlocks(aad)|))
  {
    hide BigEndian, BigEndianValue, Pad16;
    if aad != [] {
      assert |AadBlocks(aad)| == RoundUp(2 + |aad|) by { RoundUpPads(BigEndian(|aad|, 2) + aad); }
      var s := AadBlocks(aad) + rest;
      BigEndianInverse(|aad|, 2);
      assert Pow(256, 2) == 256 * Pow(256, 1) == 0x1_0000;
      if |aad| < 0x1_0000 {
        DivModUnique(|aad|, 0, |aad|, 0x1_0000);
      }
      assert s[..2] == BigEndian(|aad|, 2);
      assert s[2..2 + |aad|] == aad;
    }
  }

  /** Every field is recovered, even when more bytes follow. */
  lemma DecodeInverse(f: Fields, rest: seq<byte>)
    requires f.Encodable()
    ensures Decode(f.Encode() + rest) == Some(f)
  {
    hide BigEndian, BigEndianValue, DecodeAad, AadBlocks, Pad16, ParseFlags, Flags;
    var l := LengthSize(f.nonce);
    var b0 := B0(f.nonce, |f.message|, |f.aad|, f.tagLen);
    var h, p := AadBlocks(f.aad), Pad16(f.message);
    var s := f.Encode() + rest;
    assert s[0] == b0[0];
    ParseFlagsInverse(l, |f.aad| > 0, f.tagLen);
    assert s[16..] == h + (p + rest);
    DecodeAadInverse(f.aad, p + rest);
    assert s[16 - l..16] == BigEndian(|f.message|, l);
    BigEndianInverse(|f.message|, l);
    DivModUnique(|f.message|, 0, |f.message|, Pow(256, l));
    assert s[1..16 - l] == f.nonce;
    var start := 16 + |h|;
    assert s[start..start + |f.message|] == p[..|f.message|];
  }

  /** No authenticated string is a prefix of another one, or equal to it, unless all fields agree. */
  lemma PrefixFree(f: Fields, g: Fields)
    requires f.Encodable() && g.Encodable() && f.Encode() <= g.Encode()
    ensures f == g
  {
    hide Decode, AuthString;
    var rest := g.Encode()[|f.Encode()|..];
    assert g.Encode() == f.Encode() + rest == g.Encode() + [];
    DecodeInverse(f, rest);
    DecodeInverse(g, []);
  }

  /**
   * What B0 alone tells apart: nonce, tag length, presence of additional data, and the message length
   * modulo 256^L -- longer lengths are truncated silently.
   */
  lemma B0Exact(nonce: seq<byte>, m: nat, a: nat, t: nat, nonce': seq<byte>, m': nat, a': nat, t': nat)
    requires ValidNonce(nonce) && ValidTagLength(t) && ValidNonce(nonce') && ValidTagLength(t')
    ensures Pow(256, LengthSize(nonce)) > 0
    ensures B0(nonce, m, a, t) == B0(nonce', m', a', t')
      <==> nonce == nonce' && t == t' && (a > 0 <==> a' > 0) && Cong(m, m', Pow(256, LengthSize(nonce)))
  {
    hide BigEndian, BigEndianValue, ParseFlags, Flags;
    var l, l' := LengthSize(nonce), LengthSize(nonce');
    BigEndianInverse(m, l);
    BigEndianInverse(m', l');
    ParseFlagsInverse(l, a > 0, t);
    ParseFlagsInverse(l', a' > 0, t');
    var b, b' := B0(nonce, m, a, t), B0(nonce', m', a', t');
    if b == b' {
      assert b[0] == b'[0];
      assert b[1..16 - l] == nonce && b'[1..16 - l'] == nonce';
      assert b[16 - l..] == BigEndian(m, l) && b'[16 - l'..] == BigEndian(m', l');
    }
    if l == l' && Cong(m, m', Pow(256, l)) {
      BigEndianCong(m, m', l);
    }
  }

  // ---------------------------------------------------------------- beyond the length fields

  /** Counter blocks repeat with period 256^L: block 256^L of the key stream is the mask of the tag. */
  lemma CounterExact(nonce: seq<byte>, i: nat, j: nat)
    requires ValidNonce(nonce)
    ensures Pow(256, LengthSize(nonce)) > 0
    ensures CounterBlock(nonce, i) == CounterBlock(nonce, j) <==> Cong(i, j, Pow(256, LengthSize(nonce)))
  {
    hide BigEndian, BigEndianValue, ByteOf;
    var l := LengthSize(nonce);
    BigEndianInverse(i, l);
    BigEndianInverse(j, l);
    var b, b' := CounterBlock(nonce, i), CounterBlock(nonce, j);
    assert b[16 - l..] == BigEndian(i, l) && b'[16 - l..] == BigEndian(j, l);
    if Cong(i, j, Pow(256, l)) {
      BigEndianCong(i, j, l);
    }
  }

  /**
   * A message of n bytes takes the counters 1 to ceil(n / 16), and its tag takes 0. No two of the blocks
   * are equal exactly when they are at most 256^L.
   */
  lemma CountersDistinct(nonce: seq<byte>, n: nat)
    requires ValidNonce(nonce)
    ensures (forall i, j :: 0 <= i < j <= (n + 15) / 16 ==> CounterBlock(nonce, i) != CounterBlock(nonce, j))
      <==> (n + 15) / 16 < Pow(256, LengthSize(nonce))
  {
    hide CounterBlock;
    var w, last := Pow(256, LengthSize(nonce)), (n + 15) / 16;
    CounterExact(nonce, 0, 0);
    if last < w {
      forall i, j | 0 <= i < j <= last
        ensures CounterBlock(nonce, i) != CounterBlock(nonce, j)
      {
        CounterExact(nonce, i, j);
        DivModUnique(i, 0, i, w);
        DivModUnique(j, 0, j, w);
      }
    } else {
      CounterExact(nonce, 0, w);
      CongFromDiff(w, 0, 1, w);
    }
  }

  /** Equal lengths modulo 2^16 give equal two-byte lengths, and only those do. */
  lemma TwoByteCong(m: nat, n: nat)
    ensures BigEndian(m, 2) == BigEndian(n, 2) <==> Cong(m, n, 0x1_0000)
  {
    hide BigEndian, BigEndianValue;
    BigEndianInverse(m, 2);
    BigEndianInverse(n, 2);
    assert Pow(256, 2) == 256 * Pow(256, 1) == 0x1_0000;
    if Cong(m, n, 0x1_0000) {
      BigEndianCong(m, n, 2);
    }
  }

  lemma PadInjective(s: seq<byte>, t: seq<byte>)
    requires Pad16(s) == Pad16(t) && |s| == |t|
    ensures s == t
  {
    hide Pad16;
    assert Pad16(s)[..|s|] == s && Pad16(t)[..|t|] == t;
  }

  /** What additional data that is not empty contributes. */
  lemma AadBlocksShape(aad: seq<byte>)
    requires aad != []
    ensures |AadBlocks(aad)| == RoundUp(2 + |aad|) >= 2 + |aad|
    ensures AadBlocks(aad)[..2] == BigEndian(|aad|, 2) && AadBlocks(aad)[2..2 + |aad|] == aad
  {
    hide Pad16, BigEndian;
    var s := BigEndian(|aad|, 2) + aad;
    RoundUpPads(s);
    assert Pad16(s)[..|s|] == s;
    assert Pad16(s)[..2] == s[..2] && Pad16(s)[2..|s|] == s[2..];
  }

  /** A string that is a prefix of another shares its header with it. */
  lemma SameHeader(f: Fields, g: Fields)
    requires f.Framed() && g.Framed() && f.Auth() <= g.Auth()
    ensures f.nonce == g.nonce && f.tagLen == g.tagLen && (f.aad == [] <==> g.aad == [])
    ensures Pow(256, LengthSize(f.nonce)) > 0 && Cong(|f.message|, |g.message|, Pow(256, LengthSize(f.nonce)))
    ensures AadBlocks(f.aad) + Pad16(f.message) <= AadBlocks(g.aad) + Pad16(g.message)
  {
    hide AadBlocks, Pad16, B0;
    var x: seq<byte> := B0(f.nonce, |f.message|, |f.aad|, f.tagLen);
    var y: seq<byte> := B0(g.nonce, |g.message|, |g.aad|, g.tagLen);
    assert f.Auth()[..16] == x && g.Auth()[..16] == y;
    assert f.Auth()[16..] == AadBlocks(f.aad) + Pad16(f.message);
    assert g.Auth()[16..] == AadBlocks(g.aad) + Pad16(g.message);
    B0Exact(f.nonce, |f.message|, |f.aad|, f.tagLen, g.nonce, |g.message|, |g.aad|, g.tagLen);
  }

  /** Strings agree on their first length of additional data if one is a prefix of the other. */
  lemma SameTwoBytes(a: seq<byte>, b: seq<byte>, p: seq<byte>, q: seq<byte>)
    requires a != [] && b != [] && AadBlocks(a) + p <= AadBlocks(b) + q
    ensures Cong(|a|, |b|, 0x1_0000)
  {
    hide AadBlocks, BigEndian;
    AadBlocksShape(a);
    AadBlocksShape(b);
    assert (AadBlocks(a) + p)[..2] == AadBlocks(a)[..2];
    assert (AadBlocks(b) + q)[..2] == AadBlocks(b)[..2];
    TwoByteCong(|a|, |b|);
  }

  // ---------------------------------------------------------------- exactly when it is prefix-free

  /** Over all fields of bounded lengths, no string is a prefix of another one, or equal to it. */
  ghost predicate PrefixFreeWithin(nonce: seq<byte>, tagLen: nat, maxAad: nat, maxMessage: nat) {
    forall f: Fields, g: Fields
      | f.Within(maxAad, maxMessage) && g.Within(maxAad, maxMessage) && f.Framed() && g.Framed()
        && f.nonce == nonce && f.tagLen == tagLen && f.Auth() <= g.Auth()
      :: f == g
  }

  lemma PrefixFreeExactly(nonce: seq<byte>, tagLen: nat, maxAad: nat, maxMessage: nat)
    requires ValidNonce(nonce) && ValidTagLength(tagLen)
    ensures PrefixFreeWithin(nonce, tagLen, maxAad, maxMessage)
      <==> maxAad <= 0x1_0000 && maxMessage < Pow(256, LengthSize(nonce))
  {
    hide AuthString;
    if maxAad <= 0x1_0000 && maxMessage < Pow(256, LengthSize(nonce)) {
      forall f: Fields, g: Fields
        | f.Within(maxAad, maxMessage) && g.Within(maxAad, maxMessage) && f.Framed() && g.Framed()
          && f.nonce == nonce && f.tagLen == tagLen && f.Auth() <= g.Auth()
        ensures f == g
      {
        SameHeader(f, g);
        PrefixFree(f, g);
      }
    } else if maxAad > 0x1_0000 {
      var f, g := Fields(nonce, Zeros(1), [], tagLen), Fields(nonce, Zeros(0x1_0001), [], tagLen);
      OverlongAadExtends(nonce, tagLen);
      assert f.Within(maxAad, maxMessage) && g.Within(maxAad, maxMessage);
      assert |f.aad| != |g.aad|;
    } else {
      var w := Pow(256, LengthSize(nonce));
      var k := LengthRange(nonce);
      var f, g := Fields(nonce, [], [], tagLen), Fields(nonce, [], Zeros(w), tagLen);
      CongFromDiff(w, 0, 1, w);
      OverlongExtends(nonce, [], Zeros(w), tagLen);
      assert f.Within(maxAad, maxMessage) && g.Within(maxAad, maxMessage);
      assert |f.message| != |g.message|;
    }
  }

  /** The encoding of zeros, when one byte is left over in the last block. */
  lemma ZeroAad(n: nat)
    requires n % 16 == 1
    ensures AadBlocks(Zeros(n)) == BigEndian(n, 2) + Zeros(n + 13)
  {
    hide Pad16, BigEndian, RoundUp;
    var s := BigEndian(n, 2) + Zeros(n);
    RoundUpPads(s);
    RoundUpOne(n);
    assert Zeros(n) + Zeros(13) == Zeros(n + 13);
  }

  lemma RoundUpOne(n: nat)
    requires n % 16 == 1
    ensures RoundUp(n + 2) == n + 15
  {
    DivModUnique(n + 17, n / 16 + 1, 2, 16);
  }

  /** Too much additional data: the two-byte length of 0x10001 bytes is that of a single one. */
  lemma OverlongAadExtends(nonce: seq<byte>, tagLen: nat)
    requires ValidNonce(nonce) && ValidTagLength(tagLen)
    ensures AuthString(nonce, Zeros(1), [], tagLen) <= AuthString(nonce, Zeros(0x1_0001), [], tagLen)
  {
    hide BigEndian, Pad16, AadBlocks, B0;
    B0Exact(nonce, 0, 1, tagLen, nonce, 0, 0x1_0001, tagLen);
    TwoByteCong(1, 0x1_0001);
    ZeroAad(1);
    ZeroAad(0x1_0001);
    Aligned([]);
    assert Zeros(0x1_000E) == Zeros(14) + Zeros(0x1_0000);
  }

  /** Too long a message: one of a multiple of 256^L bytes extends the empty one. */
  lemma OverlongExtends(nonce: seq<byte>, aad: seq<byte>, message: seq<byte>, tagLen: nat)
    requires ValidNonce(nonce) && ValidTagLength(tagLen)
    requires Pow(256, LengthSize(nonce)) > 0 && Cong(|message|, 0, Pow(256, LengthSize(nonce)))
    ensures AuthString(nonce, aad, [], tagLen) <= AuthString(nonce, aad, message, tagLen)
  {
    hide AadBlocks, Pad16, B0;
    B0Exact(nonce, 0, |aad|, tagLen, nonce, |message|, |aad|, tagLen);
    Aligned([]);
  }

  lemma Aligned(s: seq<byte>)
    requires |s| % 16 == 0
    ensures Pad16(s) == s
  {
  }

  // ---------------------------------------------------------------- exactly when it determines the fields

  lemma RoundUpShift(n: nat, q: int)
    requires n + 16 * q >= 0
    ensures RoundUp(n + 16 * q) == RoundUp(n) + 16 * q
  {
    DivModUnique(n + 15 + 16 * q, (n + 15) / 16 + q, (n + 15) % 16, 16);
  }

  /**
   * Equal strings, whatever the lengths: what one has more in additional data the other has more in
   * message, and it is a multiple of 256^L. Only for the multiple 0 are the fields equal.
   */
  lemma EqualStrings(f: Fields, g: Fields) returns (k: int)
    requires f.Framed() && g.Framed() && f.Auth() == g.Auth()
    ensures f.nonce == g.nonce && f.tagLen == g.tagLen && (f.aad == [] <==> g.aad == [])
    ensures |g.aad| - |f.aad| == |f.message| - |g.message| == k * Pow(256, LengthSize(f.nonce))
    ensures k == 0 <==> f == g
  {
    hide AadBlocks, Pad16, RoundUp, Fields.Auth;
    var w := Pow(256, LengthSize(f.nonce));
    var a, b, p, q := AadBlocks(f.aad), AadBlocks(g.aad), Pad16(f.message), Pad16(g.message);
    SameHeader(f, g);
    SameHeader(g, f);
    assert a + p == b + q;
    k := DiffFromCong(|f.message|, |g.message|, w);
    var u := LengthRange(f.nonce);
    RoundUpPads(f.message);
    RoundUpPads(g.message);
    MultipleOf16(k, u, w);
    RoundUpShift(|g.message|, 0x1000 * (k * u));
    AadDifference(f.aad, g.aad, p, q);
    if k == 0 {
      assert k * w == 0;
      SplitsEqual(f.aad, g.aad, f.message, g.message);
    } else {
      NonZeroMultiple(k, w);
    }
  }

  lemma MultipleOf16(k: int, u: int, w: int)
    requires w == u * 0x1_0000
    ensures k * w == 16 * (0x1000 * (k * u))
  {
    assert k * (u * 0x1_0000) == k * u * 0x1_0000;
  }

  lemma NonZeroMultiple(k: int, w: int)
    requires k != 0 && w > 0
    ensures k >= 1 ==> k * w >= w
    ensures k <= -1 ==> k * w <= -w
  {
    assert k >= 1 ==> (k - 1) * w >= 0;
    assert k <= -1 ==> (k + 1) * w <= 0;
  }

  /** The encodings of additional data differ in length by exactly as much as the data. */
  lemma AadDifference(a: seq<byte>, b: seq<byte>, p: seq<byte>, q: seq<byte>)
    requires (a == [] <==> b == []) && AadBlocks(a) + p == AadBlocks(b) + q
    ensures |AadBlocks(b)| - |AadBlocks(a)| == |b| - |a| == |p| - |q|
  {
    hide AadBlocks, RoundUp;
    assert |AadBlocks(a) + p| == |AadBlocks(b) + q|;
    if a != [] {
      SameTwoBytes(a, b, p, q);
      AadBlocksShape(a);
      AadBlocksShape(b);
      var c := DiffFromCong(|b|, |a|, 0x1_0000);
      RoundUpShift(2 + |a|, 0x1000 * c);
    }
  }

  lemma SplitsEqual(a: seq<byte>, b: seq<byte>, m: seq<byte>, n: seq<byte>)
    requires |a| == |b| && |m| == |n| && AadBlocks(a) + Pad16(m) == AadBlocks(b) + Pad16(n)
    ensures a == b && m == n
  {
    hide AadBlocks, Pad16;
    AadDifference(a, b, Pad16(m), Pad16(n));
    var s, i := AadBlocks(a) + Pad16(m), |AadBlocks(a)|;
    assert AadBlocks(a) == s[..i] == AadBlocks(b) && Pad16(m) == s[i..] == Pad16(n);
    PadInjective(m, n);
    if a != [] {
      AadBlocksShape(a);
      AadBlocksShape(b);
    }
  }

  /** The string determines the fields if the data or the messages of both are within 256^L bytes. */
  lemma AuthStringInjective(f: Fields, g: Fields)
    requires f.Framed() && g.Framed()
    requires var w := Pow(256, LengthSize(f.nonce));
      (|f.aad| <= w && |g.aad| <= w) || (|f.message| < w && |g.message| < w)
    ensures f.Auth() == g.Auth() <==> f == g
  {
    hide AuthString;
    if f.Auth() == g.Auth() {
      var k := EqualStrings(f, g);
      var u := LengthRange(f.nonce);
      if k != 0 {
        NonZeroMultiple(k, Pow(256, LengthSize(f.nonce)));
      }
    }
  }

  /** Over all fields of bounded lengths, equal strings have equal fields. */
  ghost predicate DeterminedWithin(nonce: seq<byte>, tagLen: nat, maxAad: nat, maxMessage: nat) {
    forall f: Fields, g: Fields
      | f.Within(maxAad, maxMessage) && g.Within(maxAad, maxMessage) && f.Framed() && g.Framed()
        && f.nonce == nonce && f.tagLen == tagLen && f.Auth() == g.Auth()
      :: f == g
  }

  lemma DeterminedExactly(nonce: seq<byte>, tagLen: nat, maxAad: nat, maxMessage: nat)
    requires ValidNonce(nonce) && ValidTagLength(tagLen)
    ensures DeterminedWithin(nonce, tagLen, maxAad, maxMessage)
      <==> maxAad <= Pow(256, LengthSize(nonce)) || maxMessage < Pow(256, LengthSize(nonce))
  {
    hide AuthString;
    var w := Pow(256, LengthSize(nonce));
    var u := LengthRange(nonce);
    if maxAad <= w || maxMessage < w {
      forall f: Fields, g: Fields
        | f.Within(maxAad, maxMessage) && g.Within(maxAad, maxMessage) && f.Framed() && g.Framed()
          && f.nonce == nonce && f.tagLen == tagLen && f.Auth() == g.Auth()
        ensures f == g
      {
        AuthStringInjective(f, g);
      }
    } else {
      var f, g := Fields(nonce, Zeros(w + 1), [], tagLen), Fields(nonce, Zeros(1), Zeros(w), tagLen);
      ZerosCollide(nonce, tagLen);
      assert f.Within(maxAad, maxMessage) && g.Within(maxAad, maxMessage);
      assert |f.message| != |g.message|;
    }
  }

  /** The shortest collision: 256^L zeros are the rest of the additional data, or the message. */
  lemma ZerosCollide(nonce: seq<byte>, tagLen: nat)
    requires ValidNonce(nonce) && ValidTagLength(tagLen) && Pow(256, LengthSize(nonce)) > 0
    ensures var w := Pow(256, LengthSize(nonce));
      AuthString(nonce, Zeros(w + 1), [], tagLen) == AuthString(nonce, Zeros(1), Zeros(w), tagLen)
  {
    hide BigEndian, Pad16, AadBlocks, B0, Pow;
    var w := Pow(256, LengthSize(nonce));
    SameFront(nonce, tagLen, w + 1, 1);
    ZeroAad(1);
    ZeroAad(w + 1);
    Aligned([]);
    Aligned(Zeros(w));
    assert Zeros(w + 14) == Zeros(14) + Zeros(w);
    Regroup(BigEndian(1, 2), Zeros(14), Zeros(w));
  }

  /** B0 and the two-byte length do not tell these apart. */
  lemma SameFront(nonce: seq<byte>, tagLen: nat, long: nat, short: nat)
    requires ValidNonce(nonce) && ValidTagLength(tagLen) && short > 0
    requires long == Pow(256, LengthSize(nonce)) + short
    ensures var w := Pow(256, LengthSize(nonce));
      w > 0 && w % 16 == 0 && B0(nonce, 0, long, tagLen) == B0(nonce, w, short, tagLen)
    ensures BigEndian(long, 2) == BigEndian(short, 2) && long % 16 == short % 16
  {
    hide BigEndian, B0, Pow;
    var w := Pow(256, LengthSize(nonce));
    var u := LengthRange(nonce);
    CongFromDiff(w, 0, 1, w);
    B0Exact(nonce, 0, long, tagLen, nonce, w, short, tagLen);
    CongFromDiff(long, short, u, 0x1_0000);
    CongFromDiff(long, short, 0x1000 * u, 16);
    CongFromDiff(w, 0, 0x1000 * u, 16);
    TwoByteCong(long, short);
  }

  /** Nor does it take zeros: any data of 256^L + 14 bytes can be cut in two ways. */
  lemma CutsCollide(nonce: seq<byte>, tagLen: nat, data: seq<byte>)
    requires ValidNonce(nonce) && ValidTagLength(tagLen) && |data| == Pow(256, LengthSize(nonce)) + 14
    ensures AuthString(nonce, data, [], tagLen) == AuthString(nonce, data[..14], data[14..], tagLen)
  {
    hide BigEndian, Pad16, AadBlocks, B0, Pow;
    SameFront(nonce, tagLen, |data|, 14);
    var head, tail := data[..14], data[14..];
    AlignedAad(data);
    AlignedAad(head);
    Aligned(tail);
    Aligned([]);
    assert data == head + tail;
    Regroup(BigEndian(14, 2), head, tail);
  }

  lemma AlignedAad(aad: seq<byte>)
    requires |aad| % 16 == 14
    ensures AadBlocks(aad) == BigEndian(|aad|, 2) + aad
  {
    hide BigEndian;
    Aligned(BigEndian(|aad|, 2) + aad);
  }
}
