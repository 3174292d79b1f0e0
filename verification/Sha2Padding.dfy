/** The SHA-2 padding routine, and why the padded string determines the message. */
module Sha2Padding {
  import opened ModArith
  import opened Bytes
  import opened Sha256Spec

  /** Merkle-Damgard strengthening for any SHA-2 block geometry. */
  function PaddingFor(n: nat, blockSize: nat, lengthOffset: nat, lengthBytes: nat): seq<byte>
    requires 0 < blockSize
  {
    [0x80] + Zeros((lengthOffset - n - 1) % blockSize) + BigEndian(8 * n, lengthBytes)
  }

  /** Writes the padding of a message of msgLen bytes to the front of out and returns its length. */
  method Sha2Padding(msgLen: nat, blockSize: nat, lengthOffset: nat, lengthBytes: nat, out: array<byte>)
      returns (size: nat)
    requires out.Length == 256
    requires lengthOffset < blockSize && lengthBytes <= 16 && blockSize + lengthBytes <= 256
    modifies out
    ensures size <= 256 && out[..size] == PaddingFor(msgLen, blockSize, lengthOffset, lengthBytes)
  {
    hide BigEndian;
    out[0] := 0x80;
    var rem := (msgLen + 1) % blockSize;
    var zeroPad := if rem <= lengthOffset then lengthOffset - rem else lengthOffset + (blockSize - rem);
    ZeroRun(msgLen, blockSize, lengthOffset, zeroPad);
    for i := 1 to zeroPad + 1
      invariant out[0] == 0x80 && forall j :: 1 <= j < i ==> out[j] == 0
    {
      out[i] := 0;
    }
    var bitLen := msgLen * 8;
    var lenBytes := BigEndian(bitLen, 16);
    var start := 1 + zeroPad;
    BigEndianSuffix(bitLen, lengthBytes, 16 - lengthBytes);
    var tail := lenBytes[16 - lengthBytes..];
    assert out[..start] == [0x80] + Zeros(zeroPad);
    CopyInto(out, start, tail);
    size := 1 + zeroPad + lengthBytes;
    assert out[..size] == [0x80] + Zeros(zeroPad) + tail;
  }

  lemma ZeroRun(n: nat, blockSize: nat, lengthOffset: nat, zeroPad: nat)
    requires lengthOffset < blockSize
    requires var rem := (n + 1) % blockSize;
      zeroPad == if rem <= lengthOffset then lengthOffset - rem else lengthOffset + (blockSize - rem)
    ensures zeroPad == (lengthOffset - n - 1) % blockSize
  {
    var q, rem := (n + 1) / blockSize, (n + 1) % blockSize;
    assert n + 1 == q * blockSize + rem;
    if rem <= lengthOffset {
      assert lengthOffset - n - 1 == (-q) * blockSize + zeroPad;
      DivModUnique(lengthOffset - n - 1, -q, zeroPad, blockSize);
    } else {
      assert lengthOffset - n - 1 == (-q - 1) * blockSize + zeroPad;
      DivModUnique(lengthOffset - n - 1, -q - 1, zeroPad, blockSize);
    }
  }

  method Sha256Padding(msgLen: nat, out: array<byte>) returns (size: nat)
    requires out.Length == 256
    modifies out
    ensures size <= 256 && out[..size] == Padding(msgLen)
  {
    size := Sha2Padding(msgLen, 64, 56, 8, out);
  }

  /** The zero run is the shortest that leaves the length field at the end of a block. */
  lemma PaddingMinimal(n: nat, k: nat)
    ensures (n + 1 + k + 8) % 64 == 0 ==> k >= |Padding(n)| - 9
  {
    hide Padding;
  }

  lemma {:induction false} ZerosValue(k: nat)
    ensures BigEndianValue(Zeros(k)) == 0
  {
    if k > 0 {
      ZerosValue(k - 1);
      assert Zeros(k) == Zeros(k - 1) + [0];
      BigEndianLast(Zeros(k - 1), 0);
    }
  }

  /**
   * The padding as a number: a one bit at the very top, and the length in bits, modulo the size of its
   * field, at the very bottom.
   */
  lemma PaddingValue(n: nat, blockSize: nat, lengthOffset: nat, lengthBytes: nat)
    requires blockSize > 0
    ensures Pow(256, lengthBytes) > 0
    ensures var p := PaddingFor(n, blockSize, lengthOffset, lengthBytes);
      && |p| >= 1 + lengthBytes
      && BigEndianValue(p) == 128 * Pow(256, |p| - 1) + 8 * n % Pow(256, lengthBytes)
  {
    hide BigEndianValue, BigEndian;
    var z := (lengthOffset - n - 1) % blockSize;
    var field := BigEndian(8 * n, lengthBytes);
    BigEndianInverse(8 * n, lengthBytes);
    ZerosValue(z);
    NoValue();
    BigEndianLast([], 0x80);
    assert [] + [0x80 as byte] == [0x80];
    BigEndianConcat([0x80], Zeros(z));
    BigEndianConcat([0x80] + Zeros(z), field);
    PowAdd(256, z, lengthBytes);
    assert 128 * Pow(256, z) * Pow(256, lengthBytes) == 128 * (Pow(256, z) * Pow(256, lengthBytes));
  }

  /** The padding of SHA-256 is the case of 64-byte blocks with an eight-byte length at offset 56. */
  lemma PaddingIs(n: nat)
    ensures Padding(n) == PaddingFor(n, 64, 56, 8)
  {
  }

  // ---------------------------------------------------------------- unpadding

  /** The message length, in bits, that a padded string announces. */
  function AnnouncedBits(s: seq<byte>): nat
    requires |s| >= 8
  {
    BigEndianValue(s[|s| - 8..])
  }

  /** Recovers the message from a correctly padded string. */
  function Unpad(s: seq<byte>): Option<seq<byte>> {
    if |s| < 9 then None
    else
      var n := AnnouncedBits(s) / 8;
      if n <= |s| && s == s[..n] + Padding(n) then Some(s[..n]) else None
  }

  const TWO_TO_61: nat := 0x2000_0000_0000_0000

  lemma TwoTo64()
    ensures Pow(256, 8) == 8 * TWO_TO_61
  {
  }

  lemma AnnouncedLength(m: seq<byte>, n: nat)
    ensures AnnouncedBits(m + Padding(n)) / 8 == n % TWO_TO_61
  {
    var s := m + Padding(n);
    assert s[|s| - 8..] == BigEndian(8 * n, 8);
    BigEndianInverse(8 * n, 8);
    TwoTo64();
    var q, r := n / TWO_TO_61, n % TWO_TO_61;
    DivModUnique(8 * n, q, 8 * r, 8 * TWO_TO_61);
  }

  /**
   * Unpadding recovers the message exactly when it is shorter than 2^61 bytes: from there on the
   * 64-bit length field wraps around and no longer matches the string it terminates.
   */
  lemma UnpadPadded(m: seq<byte>)
    ensures Unpad(m + Padding(|m|)) == Some(m) <==> |m| < TWO_TO_61
    ensures |m| >= TWO_TO_61 ==> Unpad(m + Padding(|m|)) == None
  {
    hide Padding, AnnouncedBits;
    var s := m + Padding(|m|);
    AnnouncedLength(m, |m|);
    if |m| < TWO_TO_61 {
      assert s[..|m|] == m;
    } else {
      var n := |m| % TWO_TO_61;
      assert n <= |m| - TWO_TO_61;
      assert |s[..n] + Padding(n)| != |s|;
    }
  }

  /** Padding is injective on messages of any length. */
  lemma PaddingInjective(m: seq<byte>, m': seq<byte>)
    requires m + Padding(|m|) == m' + Padding(|m'|)
    ensures m == m'
  {
    hide Padding, AnnouncedBits;
    AnnouncedLength(m, |m|);
    AnnouncedLength(m', |m'|);
    var k := DiffFromCong(|m|, |m'|, TWO_TO_61);
    assert -63 <= |m| - |m'| <= 63;
    assert k == 0;
    assert (m + Padding(|m|))[..|m|] == m;
    assert (m' + Padding(|m'|))[..|m'|] == m';
  }
}
