/**
 * Where the drivers' encoding of the additional data is that of RFC 3610 section 2.2: below 0xFF00 bytes,
 * and nowhere else. The drivers do not check the length.
 */
module CcmConformity {
  import opened ModArith
  import opened Bytes
  import opened Ccm

  /** The two-byte encoding is the encoding of RFC 3610 exactly below 0xFF00 bytes. */
  lemma AadExact(aad: seq<byte>)
    ensures AadBlocks(aad) == RfcAadBlocks(aad) <==> |aad| < 0xFF00
  {
    hide AadBlocks, RfcAadBlocks;
    if |aad| < 0xFF00 {
      ShortAad(aad);
    } else if |aad| < 0x1_0000_0000 {
      MediumAad(aad);
    } else {
      LongAad(aad);
    }
  }

  lemma ShortAad(aad: seq<byte>)
    requires |aad| < 0xFF00
    ensures AadBlocks(aad) == RfcAadBlocks(aad)
  {
    hide Pad16, BigEndian;
  }

  /** The two length bytes are FF FE for a multiple of 2^16 plus 0xFFFE only. */
  lemma TwoByteLength(n: nat, hi: byte, lo: byte)
    requires BigEndian(n, 2) == [hi, lo]
    ensures n % 0x1_0000 == 256 * hi as int + lo as int
  {
    hide BigEndian, BigEndianValue;
    BigEndianInverse(n, 2);
    assert Pow(256, 2) == 256 * Pow(256, 1) == 0x1_0000;
    assert [hi, lo] == [] + [hi] + [lo];
    BigEndianLast([], hi);
    BigEndianLast([] + [hi], lo);
    NoValue();
  }

  lemma PaddedHead(s: seq<byte>, k: nat)
    requires k <= |s|
    ensures Pad16(s)[..k] == s[..k]
  {
    assert Pad16(s)[..|s|][..k] == Pad16(s)[..k];
  }

  /** Up to 2^32 bytes: where the first two bytes agree, the padded lengths differ. */
  lemma MediumAad(aad: seq<byte>)
    requires 0xFF00 <= |aad| < 0x1_0000_0000
    ensures AadBlocks(aad) != RfcAadBlocks(aad)
  {
    hide BigEndian, Pad16, RoundUp;
    var n := |aad|;
    var two, long: seq<byte> := BigEndian(n, 2), [0xFF, 0xFE] + BigEndian(n, 4);
    assert AadBlocks(aad) == Pad16(two + aad) && RfcAadBlocks(aad) == Pad16(long + aad);
    if AadBlocks(aad) == RfcAadBlocks(aad) {
      HeadsAgree(two, long, aad);
      TwoByteLength(n, 0xFF, 0xFE);
      RoundUpPads(two + aad);
      RoundUpPads(long + aad);
      PaddedApart(n);
    }
  }

  lemma HeadsAgree(two: seq<byte>, long: seq<byte>, aad: seq<byte>)
    requires |two| == 2 <= |long| && Pad16(two + aad) == Pad16(long + aad)
    ensures two == long[..2]
  {
    hide Pad16;
    PaddedHead(two + aad, 2);
    PaddedHead(long + aad, 2);
    assert (two + aad)[..2] == two && (long + aad)[..2] == long[..2];
  }

  lemma PaddedApart(n: nat)
    requires n % 0x1_0000 == 0xFFFE
    ensures RoundUp(n + 2) != RoundUp(n + 6)
  {
    var q := n / 0x1_0000;
    DivModUnique(n + 17, 0x1000 * q + 0x1000, 15, 16);
    DivModUnique(n + 21, 0x1000 * q + 0x1001, 3, 16);
  }

  /** From 2^32 bytes on: agreement would make every eighth byte 0xFF, and the last of them zero. */
  lemma LongAad(aad: seq<byte>)
    requires |aad| >= 0x1_0000_0000
    ensures AadBlocks(aad) != RfcAadBlocks(aad)
  {
    hide BigEndian, Pad16, RoundUp;
    var n := |aad|;
    var two, length, long: seq<byte> := BigEndian(n, 2), BigEndian(n, 8), [0xFF, 0xFF] + BigEndian(n, 8);
    assert AadBlocks(aad) == Pad16(two + aad) && RfcAadBlocks(aad) == Pad16(long + aad);
    if AadBlocks(aad) == RfcAadBlocks(aad) {
      HeadsAgree(two, long, aad);
      TwoByteLength(n, 0xFF, 0xFF);
      var k, room := LongLength(n);
      RoundUpPads(two + aad);
      RoundUpPads(long + aad);
      DropHeads(two, length, aad, room);
      LastLengthByte(n, length);
      Periodic(aad, length, room, k);
    }
  }

  lemma DropHeads(two: seq<byte>, length: seq<byte>, aad: seq<byte>, room: nat)
    requires |two| == 2 && |length| == 8 <= room
    requires two + aad + Zeros(room) == two + length + aad + Zeros(room - 8)
    ensures aad + Zeros(room) == length + aad + Zeros(room - 8)
  {
    assert (two + aad + Zeros(room))[2..] == aad + Zeros(room);
    assert (two + length + aad + Zeros(room - 8))[2..] == length + aad + Zeros(room - 8);
  }

  lemma LongLength(n: nat) returns (k: nat, room: nat)
    requires n % 0x1_0000 == 0xFFFF
    ensures n == 8 * k + 7 && room == 15 && RoundUp(n + 2) == RoundUp(n + 10) == n + 2 + room
  {
    var q := n / 0x1_0000;
    k, room := 0x2000 * q + 0x1FFF, 15;
    DivModUnique(n + 17, 0x1000 * q + 0x1001, 0, 16);
    DivModUnique(n + 25, 0x1000 * q + 0x1001, 8, 16);
  }

  lemma LastLengthByte(n: nat, length: seq<byte>)
    requires n % 0x1_0000 == 0xFFFF && length == BigEndian(n, 8)
    ensures length[7] == 0xFF
  {
    hide ByteOf, BigEndian;
    var q := n / 0x1_0000;
    DivModUnique(n, 0x100 * q + 0xFF, 0xFF, 0x100);
    LastByte(n, 8);
    ByteOfInverse(0xFF);
  }

  lemma LastByte(n: nat, k: nat)
    requires k > 0
    ensures BigEndian(n, k)[k - 1] == ByteOf(n % 256)
  {
  }

  /** Shifting by the eight length bytes copies the last of them along the data. */
  lemma {:induction false} Periodic(aad: seq<byte>, length: seq<byte>, room: nat, k: nat)
    requires |length| == 8 && room >= 8 && 8 * k + 7 <= |aad|
    requires aad + Zeros(room) == length + aad + Zeros(room - 8)
    ensures (aad + Zeros(room))[8 * k + 7] == length[7]
  {
    var s := aad + Zeros(room);
    assert s[8 * k + 7] == (length + aad + Zeros(room - 8))[8 * k + 7];
    if k > 0 {
      Periodic(aad, length, room, k - 1);
    }
  }

  /** The authenticated string is the one of RFC 3610 exactly below 0xFF00 bytes of additional data. */
  lemma AuthStringExact(nonce: seq<byte>, aad: seq<byte>, message: seq<byte>, tagLen: nat)
    requires ValidNonce(nonce) && ValidTagLength(tagLen)
    ensures AuthString(nonce, aad, message, tagLen) == RfcAuthString(nonce, aad, message, tagLen)
      <==> |aad| < 0xFF00
  {
    hide AadBlocks, RfcAadBlocks, Pad16, B0;
    AadExact(aad);
    var b: seq<byte>, p := B0(nonce, |message|, |aad|, tagLen), Pad16(message);
    var code, rfc := AadBlocks(aad), RfcAadBlocks(aad);
    if b + code + p == b + rfc + p {
      assert (b + code + p)[16..16 + |code|] == code;
      assert (b + rfc + p)[16..16 + |rfc|] == rfc;
    }
  }

  /** The first length at which they part: the drivers write FF 00 where RFC 3610 has FF FE 00 00 FF 00. */
  lemma FirstDivergence(aad: seq<byte>)
    requires |aad| == 0xFF00
    ensures AadBlocks(aad)[..2] == [0xFF, 0x00] && RfcAadBlocks(aad)[..6] == [0xFF, 0xFE, 0x00, 0x00, 0xFF, 0x00]
  {
    hide BigEndian, Pad16;
    DivergentLengths();
    var two, six: seq<byte> := [0xFF, 0x00], [0xFF, 0xFE, 0x00, 0x00, 0xFF, 0x00];
    assert RfcLength(|aad|) == six;
    PaddedHead(two + aad, 2);
    PaddedHead(six + aad, 6);
    assert (two + aad)[..2] == two && (six + aad)[..6] == six;
  }

  lemma DivergentLengths()
    ensures BigEndian(0xFF00, 2) == [0xFF, 0x00] && BigEndian(0xFF00, 4) == [0x00, 0x00, 0xFF, 0x00]
  {
    assert BigEndian(0, 2) == [0x00, 0x00];
    assert BigEndian(0xFF, 1) == [0xFF] && BigEndian(0xFF, 3) == [0x00, 0x00, 0xFF];
  }
}
