/**
 * AES-CCM over an arbitrary block cipher: as RFC 3610 defines it, as the drivers compute it, and the B0
 * builder they share.
 *
 * The drivers write the length of the additional data in two bytes, whatever it is, and let the message
 * length of B0 wrap at 256^L. The functions without `Rfc` in their names do the same.
 */
module Ccm {
  import opened ModArith
  import opened Bytes

  type Block16 = b: seq<byte> | |b| == 16 witness seq(16, _ => 0)

  /** A keyed 128-bit block cipher. Nothing is assumed about it. */
  type Cipher = (seq<byte>, Block16) -> Block16

  /** One past the largest length a 64-bit `usize` can hold. */
  const USIZE_LIMIT: nat := 0x1_0000_0000_0000_0000

  /** The nonces of RFC 3610. */
  predicate ValidNonce(nonce: seq<byte>) {
    7 <= |nonce| <= 13
  }

  /** The nonces that B0 can hold; RFC 3610 does not admit the longest. */
  predicate NonceFits(nonce: seq<byte>) {
    7 <= |nonce| <= 14
  }

  /** L, the size of the length and counter fields. */
  function LengthSize(nonce: seq<byte>): nat
    requires NonceFits(nonce)
  {
    15 - |nonce|
  }

  predicate ValidTagLength(t: nat) {
    4 <= t <= 16 && t % 2 == 0
  }

  /** The tag lengths for which M' = (t - 2) / 2 fits its three bits. */
  predicate TagLengthFits(t: nat) {
    2 <= t < 18
  }

  // ---------------------------------------------------------------- authenticated string

  /** RFC 3610 section 2.2: the flags are 64*Adata + 8*M' + L'. */
  function Flags(lengthSize: nat, hasAad: bool, tagLen: nat): byte
    requires 1 <= lengthSize <= 8 && TagLengthFits(tagLen)
  {
    ByteOf((if hasAad then 64 else 0) + 8 * ((tagLen - 2) / 2) + (lengthSize - 1))
  }

  lemma FlagsValue(lengthSize: nat, hasAad: bool, tagLen: nat)
    requires 1 <= lengthSize <= 8 && TagLengthFits(tagLen)
    ensures Flags(lengthSize, hasAad, tagLen) as int
      == 64 * (if hasAad then 1 else 0) + 8 * ((tagLen - 2) / 2) + (lengthSize - 1)
  {
    hide ByteOf;
    ByteOfValue((if hasAad then 64 else 0) + 8 * ((tagLen - 2) / 2) + (lengthSize - 1));
  }

  lemma FlagFields(a: nat, m: nat, l: nat)
    requires a < 2 && m < 8 && l < 8
    ensures var f := 64 * a + 8 * m + l; f % 8 == l && f / 8 % 8 == m && f / 64 % 2 == a
  {
    var f := 64 * a + 8 * m + l;
    DivModUnique(f, 8 * a + m, l, 8);
    DivModUnique(8 * a + m, a, m, 8);
    DivModUnique(f, a, 8 * m + l, 64);
  }

  function B0(nonce: seq<byte>, msgLen: nat, aLen: nat, tagLen: nat): (b: Block16)
    requires NonceFits(nonce) && TagLengthFits(tagLen)
  {
    [Flags(LengthSize(nonce), aLen > 0, tagLen)] + nonce + BigEndian(msgLen, LengthSize(nonce))
  }

  /** Fills up with zeros to a multiple of 16 bytes. */
  function Pad16(s: seq<byte>): (p: seq<byte>)
    ensures |p| % 16 == 0 && |s| <= |p| < |s| + 16 && p[..|s|] == s
  {
    s + Zeros((-|s|) % 16)
  }

  /** Rounds up to a multiple of 16; `(n + 15) & !15`. */
  function RoundUp(n: nat): nat {
    (n + 15) / 16 * 16
  }

  lemma RoundUpPads(s: seq<byte>)
    ensures |Pad16(s)| == RoundUp(|s|) && Pad16(s) == s + Zeros(RoundUp(|s|) - |s|)
  {
  }

  /** As the drivers encode it: the additional data with a two-byte length, padded; nothing if empty. */
  function AadBlocks(aad: seq<byte>): (p: seq<byte>)
    ensures |p| % 16 == 0
  {
    if aad == [] then [] else Pad16(BigEndian(|aad|, 2) + aad)
  }

  /** RFC 3610 section 2.2: the length of the additional data takes two, six or ten bytes. */
  function RfcLength(n: nat): seq<byte> {
    if n < 0xFF00 then BigEndian(n, 2)
    else if n < 0x1_0000_0000 then [0xFF, 0xFE] + BigEndian(n, 4)
    else [0xFF, 0xFF] + BigEndian(n, 8)
  }

  /** RFC 3610 section 2.2: the additional data with its length, padded; nothing if empty. */
  function RfcAadBlocks(aad: seq<byte>): (p: seq<byte>)
    ensures |p| % 16 == 0
  {
    if aad == [] then [] else Pad16(RfcLength(|aad|) + aad)
  }

  /** The string under the CBC-MAC, for a given encoding of the additional data. */
  function AuthStringOver(nonce: seq<byte>, aLen: nat, blocks: seq<byte>, message: seq<byte>,
                          tagLen: nat): (s: seq<byte>)
    requires ValidNonce(nonce) && ValidTagLength(tagLen) && |blocks| % 16 == 0
    ensures |s| % 16 == 0
  {
    SumOfBlocks(|blocks|, |Pad16(message)|);
    B0(nonce, |message|, aLen, tagLen) + blocks + Pad16(message)
  }

  function AuthString(nonce: seq<byte>, aad: seq<byte>, message: seq<byte>, tagLen: nat): (s: seq<byte>)
    requires ValidNonce(nonce) && ValidTagLength(tagLen)
    ensures |s| % 16 == 0
  {
    AuthStringOver(nonce, |aad|, AadBlocks(aad), message, tagLen)
  }

  function RfcAuthString(nonce: seq<byte>, aad: seq<byte>, message: seq<byte>, tagLen: nat): (s: seq<byte>)
    requires ValidNonce(nonce) && ValidTagLength(tagLen)
    ensures |s| % 16 == 0
  {
    AuthStringOver(nonce, |aad|, RfcAadBlocks(aad), message, tagLen)
  }

  lemma SumOfBlocks(m: nat, n: nat)
    requires m % 16 == 0 && n % 16 == 0
    ensures (16 + m + n) % 16 == 0 && (m + n) % 16 == 0
  {
    var k := m / 16 + n / 16;
    DivModUnique(m + n, k, 0, 16);
    DivModUnique(16 + m + n, k + 1, 0, 16);
  }

  // ---------------------------------------------------------------- CBC-MAC and counter mode

  function CbcMac(e: Cipher, key: seq<byte>, x: Block16, s: seq<byte>): Block16
    requires |s| % 16 == 0
    decreases |s|
  {
    if |s| == 0 then x else CbcMac(e, key, e(key, Xor(x, s[..16])), s[16..])
  }

  lemma {:induction false} CbcMacConcat(e: Cipher, key: seq<byte>, x: Block16, s: seq<byte>, t: seq<byte>)
    requires |s| % 16 == 0 && |t| % 16 == 0
    ensures CbcMac(e, key, x, s + t) == CbcMac(e, key, CbcMac(e, key, x, s), t)
    decreases |s|
  {
    if |s| == 0 {
      assert s + t == t;
    } else {
      assert (s + t)[..16] == s[..16];
      assert (s + t)[16..] == s[16..] + t;
      CbcMacConcat(e, key, e(key, Xor(x, s[..16])), s[16..], t);
    }
  }

  /** RFC 3610 section 2.3: the counter block A_i. */
  function CounterBlock(nonce: seq<byte>, i: nat): Block16
    requires ValidNonce(nonce)
  {
    [ByteOf(LengthSize(nonce) - 1)] + nonce + BigEndian(i, LengthSize(nonce))
  }

  /** Key stream from counter i on, applied to data: its own inverse. */
  function CtrXor(e: Cipher, key: seq<byte>, nonce: seq<byte>, i: nat, data: seq<byte>): (r: seq<byte>)
    requires ValidNonce(nonce)
    ensures |r| == |data|
    decreases |data|
  {
    if data == [] then []
    else
      var n := if |data| < 16 then |data| else 16;
      Xor(data[..n], e(key, CounterBlock(nonce, i))[..n]) + CtrXor(e, key, nonce, i + 1, data[n..])
  }

  lemma XorInvolutive(a: seq<byte>, k: seq<byte>)
    requires |a| == |k|
    ensures Xor(Xor(a, k), k) == a
  {
  }

  lemma {:induction false} CtrXorInvolutive(e: Cipher, key: seq<byte>, nonce: seq<byte>, i: nat, data: seq<byte>)
    requires ValidNonce(nonce)
    ensures CtrXor(e, key, nonce, i, CtrXor(e, key, nonce, i, data)) == data
    decreases |data|
  {
    if data != [] {
      var n := if |data| < 16 then |data| else 16;
      var k := e(key, CounterBlock(nonce, i))[..n];
      var c := CtrXor(e, key, nonce, i, data);
      assert c[..n] == Xor(data[..n], k);
      assert c[n..] == CtrXor(e, key, nonce, i + 1, data[n..]);
      XorInvolutive(data[..n], k);
      CtrXorInvolutive(e, key, nonce, i + 1, data[n..]);
      assert data == data[..n] + data[n..];
    }
  }

  /** RFC 3610 section 2.3: the encrypted authentication value U, of a given authenticated string. */
  function TagOver(e: Cipher, key: seq<byte>, nonce: seq<byte>, s: seq<byte>, tagLen: nat): (t: seq<byte>)
    requires ValidNonce(nonce) && ValidTagLength(tagLen) && |s| % 16 == 0
    ensures |t| == tagLen
  {
    Xor(CbcMac(e, key, Zeros(16), s), e(key, CounterBlock(nonce, 0)))[..tagLen]
  }

  function Tag(e: Cipher, key: seq<byte>, nonce: seq<byte>, aad: seq<byte>, message: seq<byte>,
               tagLen: nat): (t: seq<byte>)
    requires ValidNonce(nonce) && ValidTagLength(tagLen)
    ensures |t| == tagLen
  {
    TagOver(e, key, nonce, AuthString(nonce, aad, message, tagLen), tagLen)
  }

  function Encrypt(e: Cipher, key: seq<byte>, nonce: seq<byte>, aad: seq<byte>, message: seq<byte>, tagLen: nat)
      : (r: (seq<byte>, seq<byte>))
    requires ValidNonce(nonce) && ValidTagLength(tagLen)
  {
    (CtrXor(e, key, nonce, 1, message), Tag(e, key, nonce, aad, message, tagLen))
  }

  function Decrypt(e: Cipher, key: seq<byte>, nonce: seq<byte>, aad: seq<byte>, ciphertext: seq<byte>, tag: seq<byte>,
                   tagLen: nat)
      : (r: Option<seq<byte>>)
    requires ValidNonce(nonce) && ValidTagLength(tagLen)
  {
    var message := CtrXor(e, key, nonce, 1, ciphertext);
    if tag == Tag(e, key, nonce, aad, message, tagLen) then Some(message) else None
  }

  /** Decryption accepts a ciphertext and tag, with message m, exactly when they are the encryption of m. */
  lemma DecryptExact(e: Cipher, key: seq<byte>, nonce: seq<byte>, aad: seq<byte>, message: seq<byte>,
                     ciphertext: seq<byte>, tag: seq<byte>, tagLen: nat)
    requires ValidNonce(nonce) && ValidTagLength(tagLen)
    ensures Decrypt(e, key, nonce, aad, ciphertext, tag, tagLen) == Some(message)
      <==> (ciphertext, tag) == Encrypt(e, key, nonce, aad, message, tagLen)
  {
    hide Tag;
    CtrXorInvolutive(e, key, nonce, 1, ciphertext);
    CtrXorInvolutive(e, key, nonce, 1, message);
  }

  // ---------------------------------------------------------------- RFC 3610

  /** 256^L is a multiple of 2^16, the range of the two-byte length. */
  lemma LengthRange(nonce: seq<byte>) returns (k: nat)
    requires ValidNonce(nonce)
    ensures Pow(256, LengthSize(nonce)) == k * 0x1_0000 && k > 0
  {
    var l := LengthSize(nonce);
    PowAdd(256, 2, l - 2);
    assert Pow(256, 2) == 256 * Pow(256, 1) == 0x1_0000;
    BigEndianInverse(0, l - 2);
    k := Pow(256, l - 2);
  }

  /** The lengths RFC 3610 admits. */
  predicate Admitted(nonce: seq<byte>, aLen: nat, msgLen: nat)
    requires ValidNonce(nonce)
  {
    aLen < 0x1_0000_0000_0000_0000 && msgLen < Pow(256, LengthSize(nonce))
  }

  function RfcTag(e: Cipher, key: seq<byte>, nonce: seq<byte>, aad: seq<byte>, message: seq<byte>,
                  tagLen: nat): (t: seq<byte>)
    requires ValidNonce(nonce) && ValidTagLength(tagLen)
    ensures |t| == tagLen
  {
    TagOver(e, key, nonce, RfcAuthString(nonce, aad, message, tagLen), tagLen)
  }

  /** Encryption as RFC 3610 defines it; None for lengths it does not admit. */
  function RfcEncrypt(e: Cipher, key: seq<byte>, nonce: seq<byte>, aad: seq<byte>, message: seq<byte>, tagLen: nat)
      : (r: Option<(seq<byte>, seq<byte>)>)
    requires ValidNonce(nonce) && ValidTagLength(tagLen)
  {
    if !Admitted(nonce, |aad|, |message|) then None
    else Some((CtrXor(e, key, nonce, 1, message), RfcTag(e, key, nonce, aad, message, tagLen)))
  }

  /** Decryption as RFC 3610 section 2.5 defines it. */
  function RfcDecrypt(e: Cipher, key: seq<byte>, nonce: seq<byte>, aad: seq<byte>, ciphertext: seq<byte>,
                      tag: seq<byte>, tagLen: nat)
      : (r: Option<seq<byte>>)
    requires ValidNonce(nonce) && ValidTagLength(tagLen)
  {
    var message := CtrXor(e, key, nonce, 1, ciphertext);
    if Admitted(nonce, |aad|, |message|) && tag == RfcTag(e, key, nonce, aad, message, tagLen) then Some(message)
    else None
  }

  /** The lengths for which the drivers compute what RFC 3610 defines; see AuthStringExact. */
  predicate Conforming(nonce: seq<byte>, aLen: nat, msgLen: nat)
    requires ValidNonce(nonce)
  {
    aLen < 0xFF00 && msgLen < Pow(256, LengthSize(nonce))
  }

  lemma TagConformity(e: Cipher, key: seq<byte>, nonce: seq<byte>, aad: seq<byte>, message: seq<byte>, tagLen: nat)
    requires ValidNonce(nonce) && ValidTagLength(tagLen) && |aad| < 0xFF00
    ensures Tag(e, key, nonce, aad, message, tagLen) == RfcTag(e, key, nonce, aad, message, tagLen)
  {
    hide CbcMac, Pad16, BigEndian;
  }

  lemma Conformity(e: Cipher, key: seq<byte>, nonce: seq<byte>, aad: seq<byte>, text: seq<byte>, tag: seq<byte>,
                   tagLen: nat)
    requires ValidNonce(nonce) && ValidTagLength(tagLen) && Conforming(nonce, |aad|, |text|)
    ensures RfcEncrypt(e, key, nonce, aad, text, tagLen) == Some(Encrypt(e, key, nonce, aad, text, tagLen))
    ensures RfcDecrypt(e, key, nonce, aad, text, tag, tagLen) == Decrypt(e, key, nonce, aad, text, tag, tagLen)
  {
    hide CtrXor, Tag, RfcTag;
    TagConformity(e, key, nonce, aad, text, tagLen);
    TagConformity(e, key, nonce, aad, CtrXor(e, key, nonce, 1, text), tagLen);
  }

  // ---------------------------------------------------------------- the B0 block

  /**
   * The first byte the source computes, for any M'. Only for M' below 8 do the fields keep apart; beyond,
   * M' loses its upper bits and may set the bit that announces additional data.
   */
  function FlagSum(lengthSize: nat, hasAad: bool, m: nat): nat
    requires lengthSize >= 1
  {
    var f := 8 * (m % 32) + lengthSize - 1;
    if hasAad && f / 64 % 2 == 0 then f + 64 else f
  }

  /** Builds B0 with the bit operations of the source: the B0 of RFC 3610 for every tag length that fits. */
  method BuildB0(nonce: seq<byte>, msgLen: nat, aLen: nat, tagLen: nat) returns (b0: array<byte>)
    requires NonceFits(nonce) && tagLen >= 2 && msgLen < USIZE_LIMIT
    ensures fresh(b0) && b0.Length == 16
    ensures b0[0] as int == FlagSum(LengthSize(nonce), aLen > 0, (tagLen - 2) / 2)
    ensures b0[1..] == nonce + BigEndian(msgLen, LengthSize(nonce))
    ensures TagLengthFits(tagLen) ==> b0[..] == B0(nonce, msgLen, aLen, tagLen)
  {
    hide BigEndian, ByteOf, Flags, FlagSum;
    b0 := new byte[16](_ => 0);
    var l := 15 - |nonce|;
    var flags := FlagByte(l, aLen, tagLen);
    b0[0] := flags;
    CopyInto(b0, 1, nonce);
    assert b0[..] == [flags] + nonce + Zeros(l);
    var msgLenBytes := BigEndian(msgLen, 8);
    BigEndianSuffix(msgLen, l, 8 - l);
    var tail := msgLenBytes[8 - l..];
    LengthInPlace([flags] + nonce, tail);
    CopyInto(b0, 16 - l, tail);
    assert b0[..] == [flags] + nonce + tail;
    assert b0[1..] == b0[..][1..] == nonce + tail;
  }

  lemma LengthInPlace(front: seq<byte>, tail: seq<byte>)
    requires |front| + |tail| == 16
    ensures var b := front + Zeros(|tail|); b[..|front|] + tail + b[16..] == front + tail
  {
  }

  method FlagByte(lengthSize: nat, aLen: nat, tagLen: nat) returns (flags: byte)
    requires 1 <= lengthSize <= 8 && tagLen >= 2
    ensures flags as int == FlagSum(lengthSize, aLen > 0, (tagLen - 2) / 2)
    ensures TagLengthFits(tagLen) ==> flags == Flags(lengthSize, aLen > 0, tagLen)
  {
    hide ByteOf, Flags, FlagSum;
    var m := (tagLen - 2) / 2;
    SumOfBits(lengthSize, m);
    flags := ByteOf(lengthSize - 1) | (ByteOf(m % 256) << 3);
    if aLen > 0 {
      flags := flags | 0x40;
    }
    if TagLengthFits(tagLen) {
      FlagsSum(lengthSize, aLen > 0, tagLen);
      SameByte(flags, Flags(lengthSize, aLen > 0, tagLen));
    }
  }

  lemma SumOfBits(lengthSize: nat, m: nat)
    requires 1 <= lengthSize <= 8
    ensures var f := ByteOf(lengthSize - 1) | (ByteOf(m % 256) << 3);
      f as int == FlagSum(lengthSize, false, m) && (f | 0x40) as int == FlagSum(lengthSize, true, m)
  {
    hide ByteOf;
    FlagBits(lengthSize - 1, m);
    var v := 8 * (m % 32) + lengthSize - 1;
    assert (ByteOf(lengthSize - 1) | (ByteOf(m % 256) << 3)) as int == v;
  }

  lemma SameByte(a: byte, b: byte)
    requires a as int == b as int
    ensures a == b
  {
    ByteOfInverse(a);
    ByteOfInverse(b);
  }

  /** For a tag length that fits, the sum is that of RFC 3610. */
  lemma FlagsSum(lengthSize: nat, hasAad: bool, tagLen: nat)
    requires 1 <= lengthSize <= 8 && TagLengthFits(tagLen)
    ensures Flags(lengthSize, hasAad, tagLen) as int == FlagSum(lengthSize, hasAad, (tagLen - 2) / 2)
  {
    hide Flags;
    var m := (tagLen - 2) / 2;
    assert m < 8;
    FlagsValue(lengthSize, hasAad, tagLen);
    DivModUnique(m, 0, m, 32);
    DivModUnique(8 * m + lengthSize - 1, 0, 8 * m + lengthSize - 1, 64);
  }

  /** The bit operations add the fields up, unless M' has set the additional-data bit already. */
  lemma FlagBits(l: nat, m: nat)
    requires l < 8
    ensures var f := ByteOf(l) | (ByteOf(m % 256) << 3);
      && f as int == 8 * (m % 32) + l
      && (f | 0x40) as int == f as int + if f as int / 64 % 2 == 0 then 64 else 0
  {
    hide ByteOf;
    ByteOfValue(l);
    ByteOfValue(m % 256);
    LowBits(ByteOf(l), ByteOf(m % 256));
    AadBit(ByteOf(l) | (ByteOf(m % 256) << 3));
    var r := m % 256;
    assert r == r / 32 * 32 + r % 32 && m == m / 256 * 256 + r;
    DivModUnique(m, 8 * (m / 256) + r / 32, r % 32, 32);
  }

  lemma LowBits(l: byte, m: byte)
    requires l as int < 8
    ensures (l | (m << 3)) as int == 8 * (m as int % 32) + l as int
  {
    FiveBits(m);
    DisjointBits(l, m & 0x1F);
    assert m << 3 == (m & 0x1F) << 3;
  }

  lemma FiveBits(m: byte)
    ensures (m & 0x1F) as int == m as int % 32
  {
  }

  lemma DisjointBits(l: byte, n: byte)
    requires l as int < 8 && n as int < 32
    ensures (l | (n << 3)) as int == 8 * n as int + l as int
  {
  }

  lemma AadBit(f: byte)
    ensures (f | 0x40) as int == f as int + if f as int / 64 % 2 == 0 then 64 else 0
  {
  }

  // ---------------------------------------------------------------- what an engine derives from B0

  /** The tag length of both AES-CCM-16-64 algorithms. */
  const TAG_LEN: nat := 8

  /** The counter block that belongs to an initial block: its L, its nonce, counter i. */
  function CounterBlockOf(b0: Block16, i: nat): Block16 {
    var l := b0[0] as int % 8 + 1;
    [ByteOf(l - 1)] + b0[1..16 - l] + BigEndian(i, l)
  }

  /** The block announces this nonce, and the length field size that goes with it. */
  predicate Announces(ivr: Block16, nonce: seq<byte>)
    requires ValidNonce(nonce)
  {
    ivr[0] as int % 8 == LengthSize(nonce) - 1 && ivr[1..1 + |nonce|] == nonce
  }

  lemma B0Announces(nonce: seq<byte>, msgLen: nat, aLen: nat, tagLen: nat)
    requires ValidNonce(nonce) && ValidTagLength(tagLen)
    ensures Announces(B0(nonce, msgLen, aLen, tagLen), nonce)
  {
    hide ByteOf, BigEndian, Flags;
    FlagsLow(LengthSize(nonce), aLen > 0, tagLen);
  }

  /** The counter blocks the engine derives from B0 are those of RFC 3610. */
  lemma EngineCounters(ivr: Block16, nonce: seq<byte>, i: nat)
    requires ValidNonce(nonce) && Announces(ivr, nonce)
    ensures CounterBlockOf(ivr, i) == CounterBlock(nonce, i)
  {
  }

  lemma FlagsLow(lengthSize: nat, hasAad: bool, tagLen: nat)
    requires 2 <= lengthSize <= 8 && ValidTagLength(tagLen)
    ensures Flags(lengthSize, hasAad, tagLen) as int % 8 == lengthSize - 1
  {
    hide Flags;
    FlagsValue(lengthSize, hasAad, tagLen);
    FlagFields(if hasAad then 1 else 0, (tagLen - 2) / 2, lengthSize - 1);
  }
}
