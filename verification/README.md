# Verification of embedded-cal

`embedded-cal` is a cryptographic abstraction layer for embedded systems. This project models three
of its cores in Dafny 4.11 and proves what they promise:

* **P-256 arithmetic.** 32-bit limb arithmetic modulo the P-256 prime: the fast reduction of FIPS 186-4
  Appendix D.2.3, multiplication, exponentiation, point decompression (the compact representation of
  RFC 9528) and the sampling of secret scalars.
* **Hashing.** SHA-256 in software, the buffering hash over the `Sha2Short` plumbing with its three kinds
  of back end, HMAC and HKDF.
* **AES-CCM.** The shared B0 builder and the STM32WBA55 and nRF54L15 drivers, over an RFC 3610 engine.

The main theorems hold for all inputs:

* `ReduceP256`, `MulMod` and `PowMod` deliver the canonical residue for every 512-bit or 256-bit operand.
  No machine integer overflows, the carry of the reduction is gone after two of its four passes, and its
  final subtraction happens at most once.
* `RecoverY` succeeds exactly when x is a field element and x^3 - 3x + b is a square modulo p; then it
  returns a root. There is no primality assumption: Fermat's little theorem is proved from Bezout's
  identity and the binomial expansion, and the 256-bit modulus is proved prime by Pocklington
  certificates.
* Every way of slicing a message through the streaming hash or HMAC, over every legal back end, gives the
  value that FIPS 180-4 or RFC 2104 defines for the whole message. Any number of HMAC operations from
  clones of one key may start, be fed and finish in any order. HKDF computes RFC 5869 over any HMAC of any
  output length.
* Both CCM drivers compute RFC 3610 for additional data below 0xFF00 bytes and messages below 256^L bytes,
  and each decrypts what the other encrypted. The first bound is exact: the authenticated string is the one
  of RFC 3610 if and only if the additional data is below 0xFF00 bytes.
* The drivers' authenticated string is a prefix-free encoding of its fields if and only if the additional
  data is limited to at most 2^16 bytes and the message to less than 256^L. It determines its fields if and
  only if the additional data is limited to at most 256^L bytes or the message to less than 256^L.
* The STM32 driver accepts exactly the encryptions. The nRF54L15 driver does so for tags of eight bytes,
  and for no other length.
* The specifications are tied down apart from the code. b is the one coefficient that puts the generator on
  the curve; K and the initial value are cube and square roots of the first primes, and a SHA-256 test
  vector is computed in the model; HMAC, the HKDF output and every byte of CCM are characterised by the
  formulas of RFC 2104, RFC 5869 and RFC 3610 written out.

## Layout

| file | content |
|---|---|
| `ModArith.dfy`, `NumberTheory.dfy`, `Pocklington.dfy` | congruences and powers; Fermat's little theorem; the primality criterion |
| `Limbs.dfy`, `P256Field.dfy`, `P256Point.dfy` | limbs and their values; field arithmetic; exponentiation, decompression, scalars |
| `P256Prime.dfy` | the certificate data for the modulus and the group order |
| `Bytes.dfy` | bytes, words, big-endian encodings, buffer copies |
| `Sha256Spec.dfy`, `SoftwareSha256.dfy`, `Sha2Padding.dfy` | FIPS 180-4; the software compression; padding and unpadding |
| `Sha256Constants.dfy`, `Sha256Laws.dfy`, `Sha256Example.dfy` | what the constants and functions of FIPS 180-4 are; a digest computed |
| `Plumbing.dfy`, `StreamingHash.dfy`, `Hmac.dfy`, `Hkdf.dfy` | the chunk protocol and back ends; the buffering hash; HMAC; HKDF |
| `Ccm.dfy` | CCM over any block cipher, as RFC 3610 defines it and as the drivers compute it; B0 |
| `CcmRfc.dfy` | RFC 3610 from its own text, byte by byte |
| `CcmEncoding.dfy`, `CcmConformity.dfy` | what the encodings tell apart; where they are those of RFC 3610 |
| `Stm32Aead.dfy`, `Nrf54Aead.dfy` | the two drivers |

## How the code is modelled

* Limb buffers, the message schedule, hash and HMAC buffers, header buffers and messages are arrays
  updated in place; the hash, HMAC and peripheral states are classes. Arrays that Rust passes or returns
  by value are sequences.
* `u32`, `u64` and `i64` are subset types of the integers, so each use proves its own range. `as u32` and
  `>> 32` on `i64` are floored remainder and quotient by 2^32. SHA-256 words and bytes are bit-vectors.
* `usize` is explicit where it can overflow: `Config.usizeMax` is the platform's largest value. The
  streaming hash needs room for the message and, where it sends the padding, for 72 more bytes
  (`Config.Fits`). On a 32-bit platform that bounds messages just below 4 GiB.
* HKDF is one implementation for all HMAC providers. `Hkdf.Provider` is the repository's software HMAC,
  which the proof follows into its streaming operations, or any function with outputs of a fixed length.
* Beyond 2^61 bytes the 64-bit length field wraps; `Sha256` is defined with the same truncation, and
  `UnpadPadded` shows where it stops being the function of FIPS 180-4.
* The back ends of the plumbing are one datatype. Software and nRF54L15 follow their own code; `Device`
  stands for any peripheral that meets the trait's contract. The nRF54L15 hash engine, the STM32 AES
  peripheral (`AesPeripheral`) and the BA411E engine (`Ba411e`) are environment: they do what the
  drivers' comments say they do. The block cipher is an arbitrary function.
* Chunk sizes, one chunk or several, are preconditions of `Plumbing.Update` and `Plumbing.Finalize`. That the buffering hash
  calls them proves the protocol in every run, including that the nRF54L15 state is never missing.
* The random generator is the sequence of its draws.

## Where code and documentation differ

* The AEAD documentation announces a panic for a nonce whose length is not the algorithm's 13 bytes. The
  drivers do not check it and work for every nonce that RFC 3610 admits; the model follows the code.
* The plumbing documentation asks implementations to accept overlong digest buffers. Only the software
  back end does; the other two copy into exactly 32 bytes.
* The STM32 hash announces that an update takes several chunks, and then asserts the size of a single one
  (embedded-cal-stm32wba55/src/lib.rs:375-391). Of the two hardware back ends only the nRF54L15 takes more.
* The STM32 AEAD accepts additional data of any length and always writes its length in two bytes. A comment
  says that this covers lengths below 0xFF00; nothing checks it, and the interface sets no limit. RFC 3610
  section 2.2 admits up to 2^64 - 1 bytes, with a six-byte length from 0xFF00 and a ten-byte length from
  2^32 on; `CcmConformity` shows that the code agrees with it below 0xFF00 bytes only.
* `sha256_of` passes a full chunk to the finalisation, which the plumbing documentation would have sent
  as an update. `Plumbing.Finalize` allows it for self-padding back ends.
* Nothing states that a back end that is sent the padding needs a first chunk that is a multiple of 64
  bytes; `PaddedStreamChunks` shows that this is exactly the condition.
* The STM32 driver rejects tags of any length but eight. The nRF54L15 driver compares the first eight
  bytes of a longer tag and ignores the rest, so that it accepts tags that are no encryption
  (`Nrf54Aead.AcceptsExactly`).
* On a tag mismatch the documentation recommends zeroing the buffer. The STM32 driver leaves the
  decrypted text in it, the nRF54L15 driver the ciphertext.

## Model

| member | source | states |
|---|---|---|
| P256Field.PrimeLimbs | embedded-cal/src/util/p256.rs:10-20 | the limbs of P denote 2^256 - 2^224 + 2^192 + 2^96 - 1 |
| P256Prime.FieldPrime | embedded-cal/src/util/p256.rs:10-20 | the modulus is prime |
| P256Field.Ge | embedded-cal/src/util/p256.rs:88-98 | decides the order of the values of two limb arrays |
| P256Field.Sub256 | embedded-cal/src/util/p256.rs:100-109 | subtraction modulo 2^256, for any operands |
| P256Field.AddMod | embedded-cal/src/util/p256.rs:111-124 | the sum less at most one p, modulo 2^256, for any operands |
| P256Field.AddModExact | embedded-cal/src/util/p256.rs:111-124 | that is addition modulo p if and only if the true sum is below 2p |
| P256Field.MulMod | embedded-cal/src/util/p256.rs:126-138 | the canonical residue of the product of any two 256-bit numbers |
| P256Field.MulRow | embedded-cal/src/util/p256.rs:128-136 | one row adds limb times operand at its weight and loses no carry |
| P256Field.RecombineCongruent | embedded-cal/src/util/p256.rs:141-152 | the signed recombination keeps the residue class of every 512-bit number |
| P256Field.UpperIdentity | embedded-cal/src/util/p256.rs:144-152 | the identity behind it: moving the upper half down removes an explicit multiple of p |
| P256Field.Normalize | embedded-cal/src/util/p256.rs:154-160 | carry propagation splits signed accumulators at 2^256, with carry between -5 and 6 |
| P256Field.AbsorbCarry | embedded-cal/src/util/p256.rs:163-182 | one folding pass takes the value v to v mod 2^256 + (v div 2^256) * (2^256 mod p) |
| P256Field.FoldPassCongruent | embedded-cal/src/util/p256.rs:162-183 | a folding pass keeps the residue class |
| P256Field.FoldPassShrinks | embedded-cal/src/util/p256.rs:162-183 | only the first two passes can see a carry, so the cap of four is never reached |
| P256Field.SecondPassNeeded | embedded-cal/src/util/p256.rs:162-183 | an input on which both of the first two passes see a carry |
| P256Field.SubtractPrime | embedded-cal/src/util/p256.rs:185-192 | the final loop ends below p, having subtracted p at most once |
| P256Field.ReduceP256 | embedded-cal/src/util/p256.rs:140-192 | the canonical residue of every 512-bit number |
| P256Point.PowWord | embedded-cal/src/util/p256.rs:198-206 | the 32 steps for one word absorb exactly its bits into the exponent |
| P256Point.PowMod | embedded-cal/src/util/p256.rs:194-208 | the power modulo p for every 256-bit base and exponent |
| P256Point.BytesToWords | embedded-cal/src/util/p256.rs:70-78 | keeps the value, from big-endian bytes to limbs |
| P256Point.WordsToBytes | embedded-cal/src/util/p256.rs:80-86 | keeps the value, from limbs to big-endian bytes |
| P256Point.EncodingBijective | embedded-cal/src/util/p256.rs:70-86 | byte strings and limb arrays of equal value correspond one to one |
| P256Point.EncodingRoundTrips | embedded-cal/src/util/p256.rs:70-86 | the two conversions undo each other, in either order |
| P256Point.Constants | embedded-cal/src/util/p256.rs:33-68 | B denotes b, and four times the root exponent is p + 1 |
| P256Point.GeneratorBytes | embedded-cal/src/util/p256.rs:45-52 | the value of the generator's two encodings |
| P256Point.GeneratorOnCurve | embedded-cal/src/util/p256.rs:33-56 | the generator satisfies the curve equation with this b |
| P256Point.CoefficientUnique | embedded-cal/src/util/p256.rs:33-56 | b is the only field element for which it does |
| P256Point.SeedRelation | embedded-cal/src/util/p256.rs:33-42 | b^2 * c = -27 modulo p for the constant c that FIPS 186-4 section D.1.2.3 derives from the seed |
| P256Point.RhsValue | embedded-cal/src/util/p256.rs:220-225 | the straight-line code reduces x^3 - 3x + b to its canonical residue |
| P256Point.CandidateRoot | embedded-cal/src/util/p256.rs:227-228 | if z is a square, z^((p+1)/4) is a root of it |
| P256Point.RootCheck | embedded-cal/src/util/p256.rs:227-232 | the final comparison passes exactly for squares |
| P256Point.RootsOpposite | embedded-cal/src/util/p256.rs:210-212 | any two roots are equal or opposite, so either serves |
| P256Point.RecoverY | embedded-cal/src/util/p256.rs:213-235 | succeeds exactly for x below p on the curve, and then returns a root below p |
| P256Point.RecoverGenerator | embedded-cal/src/util/p256.rs:213-235 | from the generator's x it succeeds, with the generator's y or the opposite one |
| P256Point.GenerateVisible | embedded-cal-stm32wba55/src/dh.rs:171-183 | returns the first draw between 1 and n - 1, and none only if there is none |
| P256Point.ScalarConstants | embedded-cal/src/util/p256.rs:22-31 | the value of the group order limbs |
| P256Point.OrderPrime | embedded-cal/src/util/p256.rs:22-31 | the order is prime and within Hasse's bound of p + 1 |
| SoftwareSha256.Schedule | embedded-cal-software-demo/src/hash_plumbing.rs:81-93 | the in-place array holds the message schedule of FIPS 180-4 section 6.2.2 |
| SoftwareSha256.RunRounds | embedded-cal-software-demo/src/hash_plumbing.rs:95-117 | the loop over eight variables is 64 rounds of the recursive definition |
| SoftwareSha256.Update | embedded-cal-software-demo/src/hash_plumbing.rs:73-122 | the chaining value is replaced by its compression with the block |
| SoftwareSha256.Finalize | embedded-cal-software-demo/src/hash_plumbing.rs:124-137 | the big-endian digest is written to the front of the target and nothing else changes |
| Sha256Constants.PrimesAreFirst | embedded-cal-software-demo/src/hash_plumbing.rs:140-150 | the table that the next two rows refer to holds the first 64 primes, without gaps |
| Sha256Constants.KIsCubeRoots | embedded-cal-software-demo/src/hash_plumbing.rs:140-150 | K holds the first 32 fractional bits of the cube roots of the first 64 primes |
| Sha256Constants.IvIsSquareRoots | embedded-cal-software-demo/src/hash_plumbing.rs:67-70 | the initial value holds those of the square roots of the first eight |
| Sha256Laws.ChSelects | embedded-cal-software-demo/src/hash_plumbing.rs:97-98 | bit by bit, ch chooses between f and g by e |
| Sha256Laws.MajAgrees | embedded-cal-software-demo/src/hash_plumbing.rs:105-105 | bit by bit, maj is what two of the three agree on |
| Sha256Laws.SigmaShifts | embedded-cal-software-demo/src/hash_plumbing.rs:86-104 | the four sigma functions in shifts |
| Bytes.ToBytesValue | embedded-cal-software-demo/src/hash_plumbing.rs:134-136 | the bytes of a word have its value, most significant first |
| Bytes.FromBytesValue | embedded-cal-software-demo/src/hash_plumbing.rs:81-84 | the word of four bytes has their big-endian value |
| Sha256Example.HelloWorld | embedded-cal-testvectors/src/hash/sha2.rs:11-14 | the digest of "hello world", computed in the model, is that of the test vector |
| Sha256Spec.AbsorbConcat | embedded-cal-software-demo/src/hash_plumbing.rs:73-122 | compressing whole blocks in two goes is compressing their concatenation |
| Sha2Padding.Sha2Padding | embedded-cal-software-demo/src/hash.rs:271-299 | writes one bit, the zero run and the length for any block geometry |
| Sha2Padding.Sha256Padding | embedded-cal-software-demo/src/hash.rs:267-269 | writes the padding of FIPS 180-4 section 5.1.1 |
| Sha2Padding.PaddingValue | embedded-cal-software-demo/src/hash.rs:271-299 | as a number, the padding is one bit at the top and the length in bits at the bottom, for any block geometry |
| Sha2Padding.PaddingIs | embedded-cal-software-demo/src/hash.rs:267-269 | the padding of FIPS 180-4 section 5.1.1 is the case of 64-byte blocks with an eight-byte length at offset 56 |
| Sha2Padding.PaddingMinimal | embedded-cal-software-demo/src/hash.rs:280-286 | no shorter zero run ends the length field on a block boundary |
| Sha2Padding.UnpadPadded | embedded-cal-software-demo/src/hash.rs:271-299 | unpadding recovers the message if and only if it is below 2^61 bytes |
| Sha2Padding.PaddingInjective | embedded-cal-software-demo/src/hash.rs:271-299 | the padded string determines the message, at any length |
| Plumbing.PaddedStreamChunks | embedded-cal-software-demo/src/hash.rs:101-117 | a padded stream fills its chunks if and only if the first chunk is a multiple of 64 |
| Plumbing.PendingAfterFill | embedded-cal-software-demo/src/hash.rs:45-77 | filling either leaves the buffer partly full or completes exactly the chunk that is due |
| Plumbing.Init | embedded-cal-nrf54l15/src/lib.rs:132-141 | a fresh state represents the empty input on every back end |
| Plumbing.Update | embedded-cal/src/plumbing/hash/sha2short.rs:42-60 | whole chunks of the sizes that are due, several at once where the back end takes them, extend what the state represents |
| Plumbing.ResumeFromBytes | embedded-cal-nrf54l15/src/lib.rs:143-171 | the engine, resumed from saved bytes or from nothing, continues the chain |
| Plumbing.Finalize | embedded-cal/src/plumbing/hash/sha2short.rs:61-79 | the digest of what was sent, padded by whoever is responsible for it, at the front of the target |
| StreamingHash.HashState.Init | embedded-cal-software-demo/src/hash.rs:21-33 | a valid operation over the empty message |
| StreamingHash.HashState.Clone | embedded-cal-software-demo/src/hash.rs:234-251 | an independent copy over the same message |
| StreamingHash.HashState.FillAndSend | embedded-cal-software-demo/src/hash.rs:56-78 | one loop iteration takes bytes into the message, makes progress, and sends each full chunk |
| StreamingHash.HashState.Update | embedded-cal-software-demo/src/hash.rs:35-81 | appends the data to the message, whatever its length |
| StreamingHash.HashState.Finalize | embedded-cal-software-demo/src/hash.rs:83-128 | the SHA-256 digest of the whole message, on every legal back end |
| StreamingHash.Hash | embedded-cal/src/hash.rs:48-52 | the one-pass digest |
| StreamingHash.HashSlices | embedded-cal-software-demo/src/hash.rs:35-128 | every run of init, updates and finalize gives the digest of the concatenated slices |
| StreamingHash.Sha256Of | embedded-cal-stm32wba55/src/lib.rs:521-548 | the lazy chunker gives the same digest as the buffering hash |
| Hmac.NormaliseKey | embedded-cal-software-demo/src/hmac.rs:89-99 | one block: the key, or its digest if oversized, filled up with zeros |
| Hmac.HmacIsRfc2104 | embedded-cal-software-demo/src/hmac.rs:86-150 | the HMAC is RFC 2104 section 2 with the blocks written out: zero-filled key, hashed if oversized, exclusive-or 0x36 and 0x5c |
| Hmac.HmacKey.LoadFromKeydata | embedded-cal-software-demo/src/hmac.rs:86-120 | the inner hash has absorbed the ipad block, and the outer key is the opad block |
| Hmac.HmacKey.Clone | embedded-cal-software-demo/src/hmac.rs:46-57 | an independent copy of a loaded key |
| Hmac.HmacState.Init | embedded-cal-software-demo/src/hmac.rs:122-126 | an operation over the empty text under the loaded key |
| Hmac.HmacState.Update | embedded-cal-software-demo/src/hmac.rs:128-134 | appends to the text |
| Hmac.HmacState.Finalize | embedded-cal-software-demo/src/hmac.rs:136-150 | the HMAC of RFC 2104 section 2 over the whole text |
| Hmac.HmacWithKeydata | embedded-cal/src/hmac.rs:33-42 | the one-pass HMAC |
| Hmac.HmacSlices | embedded-cal-software-demo/src/hmac.rs:86-150 | for every key length and slicing, the HMAC of the concatenation |
| Hmac.InterleavedRuns | embedded-cal-software-demo/src/hmac.rs:36-57 | any number of operations from clones of one key, started, fed and finished in any order, each return the HMAC of what they were fed, once they have finished |
| Hmac.SameKeyBlock | embedded-cal-software-demo/src/hmac.rs:89-99 | keys of at most one block share a key block if and only if they differ in trailing zeros only |
| Hkdf.HkdfExtract | embedded-cal/src/hkdf.rs:61-80 | the pseudorandom key of RFC 5869 section 2.2: the HMAC of the input keyed with the salt, or with HashLen zeros if there is none, for any provider |
| Hkdf.MissingSalt | embedded-cal/src/hkdf.rs:71-79 | for HMAC-SHA256, no salt is the same as any all-zero salt of up to 64 bytes |
| Hkdf.ExpandBlock | embedded-cal/src/hkdf.rs:103-120 | one iteration computes T(i), the MAC of T(i-1), info and the byte i, for any provider |
| Hkdf.CounterIs | embedded-cal/src/hkdf.rs:101-104 | in every iteration HashLen is not zero, and the position gives back the block number, below 255 |
| Hkdf.FillBlock | embedded-cal/src/hkdf.rs:102-125 | one iteration extends the output by the next block, cut where the request ends |
| Hkdf.HkdfExpand | embedded-cal/src/hkdf.rs:82-128 | for any output length, zero included: fails exactly above 255 * HashLen, leaving the buffer alone, else each block of the buffer is the MAC of the block before it, info and its number |
| Hkdf.OkmIsExpansion | embedded-cal/src/hkdf.rs:102-125 | the first bytes of T(1), T(2), ... satisfy the recurrence of RFC 5869 section 2.3 on the output |
| Hkdf.ExpansionUnique | embedded-cal/src/hkdf.rs:102-125 | only one output of a given length satisfies it |
| Hkdf.OkmPrefix | embedded-cal/src/hkdf.rs:102-125 | a shorter request is a prefix of a longer one, for any HMAC |
| Hkdf.ExtractAndExpand | embedded-cal/src/hkdf.rs:47-57 | extract, then expand, for any provider |
| Ccm.BuildB0 | embedded-cal/src/util/aesccm.rs:7-18 | the bit operations build the B0 of RFC 3610 section 2.2 for every tag length that fits its field, and the overlapping sum of the fields otherwise |
| Ccm.Conformity | embedded-cal-stm32wba55/src/aead.rs:303-472 | with additional data below 0xFF00 bytes and a message below 256^L, the drivers' CCM is that of RFC 3610 |
| CcmConformity.AadExact | embedded-cal-stm32wba55/src/aead.rs:250-285 | the encoding of the additional data is that of RFC 3610 section 2.2 if and only if it is below 0xFF00 bytes |
| CcmConformity.AuthStringExact | embedded-cal-stm32wba55/src/aead.rs:250-285 | so is the whole authenticated string |
| CcmConformity.FirstDivergence | embedded-cal-stm32wba55/src/aead.rs:257-263 | at 0xFF00 bytes the driver writes FF 00 where RFC 3610 has FF FE 00 00 FF 00 |
| Ccm.FlagBits | embedded-cal/src/util/aesccm.rs:10-13 | the bit operations add the flag fields up, unless M' has set the additional-data bit already |
| CcmEncoding.B0Exact | embedded-cal/src/util/aesccm.rs:7-18 | two B0 are equal if and only if nonce, tag length, presence of additional data and the length modulo 256^L agree |
| CcmEncoding.DecodeInverse | embedded-cal-nrf54l15/src/aead.rs:103-130 | a decoder recovers every field of the authenticated string, whatever follows it |
| CcmEncoding.PrefixFree | embedded-cal-nrf54l15/src/aead.rs:103-130 | with additional data of at most 2^16 bytes and messages below 256^L, one authenticated string is a prefix of another only if all fields agree |
| CcmEncoding.PrefixFreeExactly | embedded-cal-stm32wba55/src/aead.rs:250-285 | over all fields of bounded lengths the string is prefix-free if and only if the bounds are at most 2^16 for the additional data and below 256^L for the message |
| CcmEncoding.OverlongAadExtends | embedded-cal-stm32wba55/src/aead.rs:257-261 | the string of 0x10001 zeros of additional data extends that of one |
| CcmEncoding.EqualStrings | embedded-cal-stm32wba55/src/aead.rs:250-285 | for any lengths: equal strings shift a multiple of 256^L bytes between additional data and message, and the fields are equal if and only if it is zero |
| CcmEncoding.AuthStringInjective | embedded-cal-nrf54l15/src/aead.rs:103-130 | strings are equal if and only if all fields are, if both pieces of additional data are at most 256^L bytes or both messages below 256^L |
| CcmEncoding.DeterminedExactly | embedded-cal-stm32wba55/src/aead.rs:250-285 | over all fields of bounded lengths the string determines its fields if and only if one of the bounds is at most 256^L for the additional data or below 256^L for the message |
| CcmEncoding.ZerosCollide | embedded-cal-stm32wba55/src/aead.rs:250-285 | the shortest collision, for every nonce length: 256^L zeros as additional data or as message |
| CcmEncoding.CutsCollide | embedded-cal-stm32wba55/src/aead.rs:250-285 | any data of 256^L + 14 bytes can be cut in two ways with equal strings, for every nonce length |
| CcmEncoding.OverlongExtends | embedded-cal/src/util/aesccm.rs:15-16 | a message of a multiple of 256^L bytes extends the string of the empty message |
| CcmEncoding.CounterExact | embedded-cal-stm32wba55/src/aead.rs:203-206 | counter blocks are equal if and only if the counters agree modulo 256^L |
| CcmEncoding.CountersDistinct | embedded-cal-stm32wba55/src/aead.rs:203-206 | an operation on n bytes uses no counter block twice, that of the tag included, if and only if n bytes are fewer than 256^L blocks |
| Ccm.CtrXorInvolutive | embedded-cal-stm32wba55/src/aead.rs:153-179 | counter mode undoes itself |
| Ccm.DecryptExact | embedded-cal/src/aead.rs:39-71 | decryption yields a message exactly for its own encryption |
| CcmRfc.MacChain | embedded-cal-stm32wba55/src/aead.rs:114-129 | the MAC is the last X of RFC 3610 section 2.2: the first block encrypted, then each X exclusive-or the next block encrypted |
| CcmRfc.CbcMacStep | embedded-cal-stm32wba55/src/aead.rs:54-67 | one more block is one more encryption of the chaining value exclusive-or the block |
| CcmRfc.TagByte | embedded-cal-stm32wba55/src/aead.rs:114-129 | each tag byte is that of the last X, masked with the encryption of A_0 |
| CcmRfc.CiphertextByte | embedded-cal-stm32wba55/src/aead.rs:153-179 | byte j of the message is masked with byte j mod 16 of the encryption of A_(1 + j div 16) |
| CcmRfc.B0Fields | embedded-cal/src/util/aesccm.rs:7-18 | flags, nonce and length modulo 256^L, each in its place |
| CcmRfc.CounterFields | embedded-cal-stm32wba55/src/aead.rs:203-206 | L - 1, nonce and counter modulo 256^L, each in its place |
| CcmRfc.CounterNeverB0 | embedded-cal-stm32wba55/src/aead.rs:203-206 | no counter block is an initial block |
| CcmRfc.AadBlocksFields | embedded-cal-stm32wba55/src/aead.rs:250-285 | two length bytes, the data, zeros to the next block |
| CcmRfc.RfcLengthFields | embedded-cal-stm32wba55/src/aead.rs:257-261 | the length encoding of RFC 3610 section 2.2 that the two-byte length is compared with |
| Ccm.EngineCounters | embedded-cal-stm32wba55/src/aead.rs:203-206 | the counter blocks that an engine derives from B0 are those of RFC 3610 section 2.3 |
| Stm32Aead.RunInitPhase | embedded-cal-stm32wba55/src/aead.rs:181-248 | the engine has authenticated B0, with counter 1 and no stale padding count |
| Stm32Aead.FeedSlice | embedded-cal-stm32wba55/src/aead.rs:267-280 | streaming a slice feeds every block that fills up and keeps the rest |
| Stm32Aead.RunHeaderPhase | embedded-cal-stm32wba55/src/aead.rs:250-285 | for any slicing, the blocks fed are the padded length-prefixed additional data |
| Stm32Aead.ExchangeChunk | embedded-cal-stm32wba55/src/aead.rs:164-176 | a chunk becomes its counter-mode image, and the zero-padded plaintext is authenticated in both directions |
| Stm32Aead.RunPayloadPhase | embedded-cal-stm32wba55/src/aead.rs:153-179 | the message becomes its counter-mode image in place, and the padded plaintext is authenticated |
| Stm32Aead.RunFinalPhase | embedded-cal-stm32wba55/src/aead.rs:114-129 | the encrypted CBC-MAC of everything fed |
| Stm32Aead.TotalLength | embedded-cal-stm32wba55/src/aead.rs:321-321 | the length of the concatenated slices |
| Stm32Aead.RunCcm | embedded-cal-stm32wba55/src/aead.rs:314-343 | the four phases give counter mode and the drivers' tag, which is that of RFC 3610 below 0xFF00 bytes of additional data |
| Stm32Aead.EncryptInPlace | embedded-cal-stm32wba55/src/aead.rs:303-378 | CCM encryption, and that of RFC 3610 for additional data below 0xFF00 bytes and messages below 256^L |
| Stm32Aead.TagsMatch | embedded-cal-stm32wba55/src/aead.rs:457-463 | the accumulated comparison decides equality of length and content |
| Stm32Aead.DecryptInPlace | embedded-cal-stm32wba55/src/aead.rs:380-472 | CCM decryption, and that of RFC 3610 for the same lengths, with the decrypted text in the buffer in either case |
| Stm32Aead.RoundTrip | embedded-cal-stm32wba55/src/aead.rs:303-472 | decrypting what was encrypted succeeds and restores the message, for any slicings of the same data |
| Nrf54Aead.CopyAad | embedded-cal-nrf54l15/src/aead.rs:107-112 | the slices end up concatenated at offset 18 |
| Nrf54Aead.AssembleHeader | embedded-cal-nrf54l15/src/aead.rs:103-124 | the padded header is B0 followed by the blocks that the STM32 driver feeds, for any slicing |
| Nrf54Aead.EngineIsCcm | embedded-cal-nrf54l15/src/aead.rs:139-162 | over that header and text the engine's tag is that of RFC 3610 |
| Nrf54Aead.CcmEncrypt | embedded-cal-nrf54l15/src/aead.rs:86-169 | CCM encryption of RFC 3610 |
| Nrf54Aead.CcmDecrypt | embedded-cal-nrf54l15/src/aead.rs:171-252 | CCM decryption of RFC 3610 on the first eight tag bytes; the buffer changes only on success |
| Nrf54Aead.AcceptsExactly | embedded-cal-nrf54l15/src/aead.rs:213-252 | among tags of n bytes, acceptance means being an encryption if and only if n is eight |
| Nrf54Aead.OverlongAccepted | embedded-cal-nrf54l15/src/aead.rs:213-252 | an encryption with anything appended to its tag is accepted, and is no encryption |
| Nrf54Aead.OverlongTag | embedded-cal-nrf54l15/src/aead.rs:171-252 | the driver restores the message from an encryption with an overlong tag |
| Nrf54Aead.CrossBackend | embedded-cal-nrf54l15/src/aead.rs:171-252 | decrypts what the STM32 driver encrypted, for any slicings of the same data |
| Nrf54Aead.CrossBackendReturn | embedded-cal-nrf54l15/src/aead.rs:86-169 | what it encrypts, the STM32 driver decrypts |

## Left out

- Stm32Aead.RunInitPhase: one method for the 128-bit and the 256-bit variant, which differ in the key size bit only; key registers and B0 are written whole, not as big-endian words.
- Stm32Aead.EncryptInPlace: nonces of 14 bytes, which B0 can hold but for which RFC 3610 defines no L. Outside the lengths for which the contract states RFC 3610, it states what the code computes.
- Hkdf.HkdfExpand: overflow of 255 * HashLen in `usize`, and the debug assertions that a provider's buffer type and outputs have the announced length.
- P256Point.GenerateVisible: termination of the rejection loop, which rests on the random generator; the supply of draws is finite in the model.
- Polling of status flags, DMA descriptors, clocks, microcode, key and coordinate RAM layout: hardware not described in the repository.
- The hardware HMAC of the STM32WBA55 and its context switching: its block size comes from a live register.
- Random number generators, scalar multiplication, X25519: done in hardware or in other crates.
- The `Direct` variants that forward to an underlying implementation, and the rustcrypto, libcrux and rand crates: thin wrappers.
- Algorithm identifiers, trait forwarding, loading of AEAD keys: one-branch lookups and length checks.
- SHA-224: the plumbing enumerates it, and no back end implements it.
- Timing, secret independence, zeroization and any computational notion of security.
