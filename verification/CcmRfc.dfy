/**
 * RFC 3610 from its own text: the chain of the CBC-MAC, the fields of B0 and of the counter blocks, and
 * every byte of a ciphertext and a tag.
 */
module CcmRfc {
  import opened ModArith
  import opened Bytes
  import opened Ccm

  /** Section 2.2, from the other end: one more block is one more step. */
  lemma CbcMacStep(e: Cipher, key: seq<byte>, x: Block16, s: seq<byte>, b: Block16)
    requires |s| % 16 == 0
    ensures CbcMac(e, key, x, []) == x
    ensures |s + b| % 16 == 0 && CbcMac(e, key, x, s + b) == e(key, Xor(CbcMac(e, key, x, s), b))
  {
    SumOfBlocks(|s|, 16);
    CbcMacConcat(e, key, x, s, b);
    OneBlockMac(e, key, CbcMac(e, key, x, s), b);
  }

  lemma OneBlockMac(e: Cipher, key: seq<byte>, x: Block16, b: Block16)
    ensures CbcMac(e, key, x, b) == e(key, Xor(x, b))
  {
    assert b[..16] == b && b[16..] == [];
  }

  lemma {:induction false} BlocksLength(blocks: seq<Block16>)
    ensures |Concat(blocks)| == 16 * |blocks|
  {
    if blocks != [] {
      BlocksLength(blocks[..|blocks| - 1]);
    }
  }

  /**
   * Section 2.2: X_1 is the encryption of B_0, X_i+1 that of X_i xor B_i, and the last one is the MAC. Here
   * xs[i] is X_i+1.
   */
  lemma {:induction false} MacChain(e: Cipher, key: seq<byte>, blocks: seq<Block16>, xs: seq<Block16>)
    requires |xs| == |blocks| > 0 && xs[0] == e(key, blocks[0])
    requires forall i :: 0 < i < |xs| ==> xs[i] == e(key, Xor(xs[i - 1], blocks[i]))
    ensures |Concat(blocks)| % 16 == 0 && CbcMac(e, key, Zeros(16), Concat(blocks)) == xs[|xs| - 1]
  {
    hide CbcMac, Concat;
    var n := |blocks| - 1;
    BlocksLength(blocks);
    BlocksLength(blocks[..n]);
    ConcatLast(blocks);
    if n == 0 {
      NoBlocks(e, key, blocks[..0]);
      assert Xor(Zeros(16), blocks[0]) == blocks[0];
    } else {
      MacChain(e, key, blocks[..n], xs[..n]);
    }
    CbcMacStep(e, key, Zeros(16), Concat(blocks[..n]), blocks[n]);
  }

  lemma ConcatLast(blocks: seq<Block16>)
    requires blocks != []
    ensures Concat(blocks) == Concat(blocks[..|blocks| - 1]) + blocks[|blocks| - 1]
  {
  }

  lemma NoBlocks(e: Cipher, key: seq<byte>, blocks: seq<Block16>)
    requires blocks == []
    ensures Concat(blocks) == [] && CbcMac(e, key, Zeros(16), []) == Zeros(16)
  {
  }

  // ---------------------------------------------------------------- the fields of the blocks

  /** Section 2.2: flags, nonce, message length. */
  lemma B0Fields(nonce: seq<byte>, msgLen: nat, aLen: nat, tagLen: nat)
    requires ValidNonce(nonce) && ValidTagLength(tagLen)
    ensures Pow(256, 15 - |nonce|) > 0
    ensures var b := B0(nonce, msgLen, aLen, tagLen);
      && b[0] as int == (if aLen > 0 then 64 else 0) + 8 * ((tagLen - 2) / 2) + (14 - |nonce|)
      && b[1..1 + |nonce|] == nonce
      && BigEndianValue(b[1 + |nonce|..]) == msgLen % Pow(256, 15 - |nonce|)
  {
    hide Flags, BigEndian, BigEndianValue;
    var l := LengthSize(nonce);
    FlagsValue(l, aLen > 0, tagLen);
    BigEndianInverse(msgLen, l);
    var b := B0(nonce, msgLen, aLen, tagLen);
    assert b[1..1 + |nonce|] == nonce && b[1 + |nonce|..] == BigEndian(msgLen, l);
  }

  /** Section 2.3: L', nonce, counter. */
  lemma CounterFields(nonce: seq<byte>, i: nat)
    requires ValidNonce(nonce)
    ensures Pow(256, 15 - |nonce|) > 0
    ensures var a := CounterBlock(nonce, i);
      && a[0] as int == 14 - |nonce|
      && a[1..1 + |nonce|] == nonce
      && BigEndianValue(a[1 + |nonce|..]) == i % Pow(256, 15 - |nonce|)
  {
    hide BigEndian, BigEndianValue, ByteOf;
    var l := LengthSize(nonce);
    ByteOfValue(l - 1);
    BigEndianInverse(i, l);
    var a := CounterBlock(nonce, i);
    assert a[1..1 + |nonce|] == nonce && a[1 + |nonce|..] == BigEndian(i, l);
  }

  /** No counter block is an initial block, whatever the nonces and lengths: M' is zero in one only. */
  lemma CounterNeverB0(nonce: seq<byte>, i: nat, nonce': seq<byte>, msgLen: nat, aLen: nat, tagLen: nat)
    requires ValidNonce(nonce) && ValidNonce(nonce') && ValidTagLength(tagLen)
    ensures CounterBlock(nonce, i) != B0(nonce', msgLen, aLen, tagLen)
  {
    hide CounterBlock, B0;
    CounterFields(nonce, i);
    B0Fields(nonce', msgLen, aLen, tagLen);
    assert (tagLen - 2) / 2 >= 1;
  }

  // ---------------------------------------------------------------- every byte

  /** Section 2.3: byte j of the message is masked with byte j mod 16 of block 1 + j div 16 of the key stream. */
  lemma CiphertextByte(e: Cipher, key: seq<byte>, nonce: seq<byte>, aad: seq<byte>, message: seq<byte>,
                       tagLen: nat, j: nat)
    requires ValidNonce(nonce) && ValidTagLength(tagLen) && j < |message|
    ensures var c := Encrypt(e, key, nonce, aad, message, tagLen).0;
      |c| == |message| && c[j] == message[j] ^ e(key, CounterBlock(nonce, 1 + j / 16))[j % 16]
  {
    hide CtrXor, Tag;
    KeyStreamByte(e, key, nonce, 1, message, j);
  }

  lemma {:induction false} KeyStreamByte(e: Cipher, key: seq<byte>, nonce: seq<byte>, i: nat, data: seq<byte>, j: nat)
    requires ValidNonce(nonce) && j < |data|
    ensures CtrXor(e, key, nonce, i, data)[j] == data[j] ^ KeyByte(e, key, nonce, i, j)
    decreases |data|
  {
    hide CtrXor, KeyByte;
    if j < 16 {
      FirstBlockByte(e, key, nonce, i, data, j);
    } else {
      LaterBlockByte(e, key, nonce, i, data, j);
      KeyStreamByte(e, key, nonce, i + 1, data[16..], j - 16);
      KeyByteShift(e, key, nonce, i, j);
    }
  }

  /** Byte j of the key stream from counter i on. */
  function KeyByte(e: Cipher, key: seq<byte>, nonce: seq<byte>, i: nat, j: nat): byte
    requires ValidNonce(nonce)
  {
    e(key, CounterBlock(nonce, i + j / 16))[j % 16]
  }

  lemma KeyByteShift(e: Cipher, key: seq<byte>, nonce: seq<byte>, i: nat, j: nat)
    requires ValidNonce(nonce) && j >= 16
    ensures KeyByte(e, key, nonce, i + 1, j - 16) == KeyByte(e, key, nonce, i, j)
  {
    hide CounterBlock;
    DivModUnique(j - 16, j / 16 - 1, j % 16, 16);
  }

  lemma FirstBlockByte(e: Cipher, key: seq<byte>, nonce: seq<byte>, i: nat, data: seq<byte>, j: nat)
    requires ValidNonce(nonce) && j < |data| && j < 16
    ensures CtrXor(e, key, nonce, i, data)[j] == data[j] ^ KeyByte(e, key, nonce, i, j)
  {
    hide CounterBlock;
    DivModUnique(j, 0, j, 16);
  }

  lemma LaterBlockByte(e: Cipher, key: seq<byte>, nonce: seq<byte>, i: nat, data: seq<byte>, j: nat)
    requires ValidNonce(nonce) && 16 <= j < |data|
    ensures CtrXor(e, key, nonce, i, data)[j] == CtrXor(e, key, nonce, i + 1, data[16..])[j - 16]
  {
    hide CounterBlock;
  }

  /**
   * Sections 2.2 and 2.3: byte j of the tag is that of the MAC of the authenticated string, masked with A_0.
   * The string is B_0, then the additional data, then the message.
   */
  lemma TagByte(e: Cipher, key: seq<byte>, nonce: seq<byte>, aad: seq<byte>, message: seq<byte>, tagLen: nat,
                blocks: seq<Block16>, xs: seq<Block16>, j: nat)
    requires ValidNonce(nonce) && ValidTagLength(tagLen) && j < tagLen
    requires Concat(blocks) == B0(nonce, |message|, |aad|, tagLen) + AadBlocks(aad) + Pad16(message)
    requires |xs| == |blocks| > 0 && xs[0] == e(key, blocks[0])
    requires forall i :: 0 < i < |xs| ==> xs[i] == e(key, Xor(xs[i - 1], blocks[i]))
    ensures var tag := Encrypt(e, key, nonce, aad, message, tagLen).1;
      |tag| == tagLen && tag[j] == xs[|xs| - 1][j] ^ e(key, CounterBlock(nonce, 0))[j]
  {
    hide CbcMac, Concat, B0, AadBlocks, Pad16, CounterBlock, CtrXor;
    MacChain(e, key, blocks, xs);
  }

  /** The additional data as the drivers encode it: two length bytes, the data, zeros to the next block. */
  lemma AadBlocksFields(aad: seq<byte>)
    requires aad != []
    ensures var p := AadBlocks(aad);
      && |p| % 16 == 0 && 2 + |aad| <= |p| < 18 + |aad|
      && BigEndianValue(p[..2]) == |aad| % 0x1_0000 && p[2..2 + |aad|] == aad
      && forall j :: 2 + |aad| <= j < |p| ==> p[j] == 0
  {
    hide BigEndian, BigEndianValue, Pad16;
    var s := BigEndian(|aad|, 2) + aad;
    RoundUpPads(s);
    BigEndianInverse(|aad|, 2);
    assert Pow(256, 2) == 256 * Pow(256, 1) == 0x1_0000;
    assert Pad16(s)[..2] == BigEndian(|aad|, 2);
    assert Pad16(s)[2..2 + |aad|] == aad;
  }

  /** RFC 3610's own length encoding: two bytes, FF FE and four, or FF FF and eight. */
  lemma RfcLengthFields(n: nat)
    requires n < 0x1_0000_0000_0000_0000
    ensures var s := RfcLength(n);
      if n < 0xFF00 then |s| == 2 && BigEndianValue(s) == n
      else if n < 0x1_0000_0000 then |s| == 6 && s[..2] == [0xFF, 0xFE] && BigEndianValue(s[2..]) == n
      else |s| == 10 && s[..2] == [0xFF, 0xFF] && BigEndianValue(s[2..]) == n
  {
    hide BigEndian, BigEndianValue;
    Powers();
    var k := if n < 0xFF00 then 2 else if n < 0x1_0000_0000 then 4 else 8;
    BigEndianInverse(n, k);
    DivModUnique(n, 0, n, Pow(256, k));
    assert n >= 0xFF00 ==> RfcLength(n)[2..] == BigEndian(n, k);
  }

  lemma Powers()
    ensures Pow(256, 2) == 0x1_0000 && Pow(256, 4) == 0x1_0000_0000 && Pow(256, 8) == 0x1_0000_0000_0000_0000
  {
    assert Pow(256, 2) == 256 * Pow(256, 1) == 0x1_0000;
    PowAdd(256, 2, 2);
    PowAdd(256, 4, 4);
  }
}
