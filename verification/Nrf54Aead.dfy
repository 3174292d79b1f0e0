/**
 * The nRF54L15 AES-CCM driver: header and payload are assembled in fixed buffers and handed to the
 * engine in one run. Ba411e is an assumption about the environment, made from the driver's comments.
 */
module Nrf54Aead {
  import opened Bytes
  import opened Ccm
  import Stm32Aead

  const HEADER_BUF: nat := 288
  const MSG_BUF: nat := 256
  /** Additional data is written at offset 18 of the header buffer. */
  const MAX_AAD: nat := 270

  /** The nonce an initial block announces. */
  function NonceOf(b0: Block16): (nonce: seq<byte>)
    requires 1 <= b0[0] as int % 8
    ensures ValidNonce(nonce)
  {
    b0[1..15 - b0[0] as int % 8]
  }

  /** The full authentication value over a header (B0 first) and a text. */
  function EngineTag(cipher: Cipher, key: seq<byte>, header: seq<byte>, text: seq<byte>): Block16
    requires |header| >= 16 && 1 <= header[0] as int % 8
  {
    SumOfBlocks(|Pad16(header)|, |Pad16(text)|);
    Xor(CbcMac(cipher, key, Zeros(16), Pad16(header) + Pad16(text)), cipher(key, CounterBlockOf(header[..16], 0)))
  }

  /**
   * One run of the engine. Of header and data the last few bytes are padding to be ignored. When
   * decrypting, the tag output is the computed tag xor the expected one, on the bytes that count.
   */
  method Ba411e(cipher: Cipher, key: seq<byte>, decrypt: bool, header: seq<byte>, headerIgn: nat,
                data: seq<byte>, dataIgn: nat, expected: Block16)
      returns (out: seq<byte>, tagOut: Block16)
    requires |header| % 16 == 0 && headerIgn < 16 && 16 + headerIgn <= |header| && 1 <= header[0] as int % 8
    requires |data| % 16 == 0 && dataIgn < 16 && dataIgn <= |data|
    ensures |out| == |data|
    ensures out[..|data| - dataIgn] == CtrXor(cipher, key, NonceOf(header[..16]), 1, data[..|data| - dataIgn])
    ensures var n := |data| - dataIgn;
      var tag := EngineTag(cipher, key, header[..|header| - headerIgn], if decrypt then out[..n] else data[..n]);
      tagOut[..TAG_LEN] == if decrypt then Xor(tag[..TAG_LEN], expected[..TAG_LEN]) else tag[..TAG_LEN]
  {
    var n := |data| - dataIgn;
    var text := CtrXor(cipher, key, NonceOf(header[..16]), 1, data[..n]);
    out := text + Zeros(dataIgn);
    var tag := EngineTag(cipher, key, header[..|header| - headerIgn], if decrypt then out[..n] else data[..n]);
    tagOut := if decrypt then Xor(tag, expected) else tag;
  }

  /** Padding ignores a whole block in front. */
  lemma PadAfterBlock(b: Block16, s: seq<byte>)
    ensures Pad16(b + s) == b + Pad16(s)
  {
    hide Pad16;
    RoundUpPads(b + s);
    RoundUpPads(s);
    assert RoundUp(16 + |s|) == 16 + RoundUp(|s|);
  }

  /** The header: B0, then the length-prefixed additional data if there is any, zero-padded. */
  function Header(nonce: seq<byte>, msgLen: nat, aad: seq<byte>): (h: seq<byte>)
    requires ValidNonce(nonce)
    ensures |h| == if aad == [] then 16 else 18 + |aad|
  {
    B0(nonce, msgLen, |aad|, TAG_LEN) + if aad == [] then [] else BigEndian(|aad|, 2) + aad
  }

  /** Assembles the header in its fixed buffer, whatever the slicing of the additional data. */
  method AssembleHeader(nonce: seq<byte>, msgLen: nat, aad: seq<seq<byte>>)
      returns (headerBuf: array<byte>, dataLen: nat, paddedLen: nat)
    requires ValidNonce(nonce) && |Concat(aad)| <= MAX_AAD && msgLen <= MSG_BUF
    ensures fresh(headerBuf) && headerBuf.Length == HEADER_BUF && dataLen <= paddedLen <= HEADER_BUF
    ensures paddedLen == RoundUp(dataLen)
    ensures headerBuf[..dataLen] == Header(nonce, msgLen, Concat(aad))
    ensures headerBuf[..paddedLen] == B0(nonce, msgLen, |Concat(aad)|, TAG_LEN) + AadBlocks(Concat(aad))
      == Pad16(Header(nonce, msgLen, Concat(aad)))
  {
    hide Concat, B0, BigEndian, Pad16, AadBlocks, Header, Laid;
    headerBuf := new byte[HEADER_BUF](_ => 0);
    ghost var all := Concat(aad);
    var aadLen := CopyAad(headerBuf, aad);
    dataLen := WriteFront(headerBuf, nonce, msgLen, aadLen, all);
    HeaderIs(nonce, msgLen, all, headerBuf[..], dataLen);
    paddedLen := RoundUp(dataLen);
    assert headerBuf[..][..paddedLen] == headerBuf[..paddedLen];
    assert headerBuf[..][..dataLen] == headerBuf[..dataLen];
    PaddedHeader(nonce, msgLen, all, headerBuf[..paddedLen], dataLen);
  }

  /** The layout of the whole header buffer. */
  ghost predicate Laid(nonce: seq<byte>, msgLen: nat, aad: seq<byte>, buf: seq<byte>, dataLen: nat)
    requires ValidNonce(nonce) && |aad| <= MAX_AAD
  {
    var b0 := B0(nonce, msgLen, |aad|, TAG_LEN);
    if aad == [] then dataLen == 16 && buf == b0 + [0, 0] + aad + Zeros(MAX_AAD)
    else dataLen == 18 + |aad| && buf == b0 + BigEndian(|aad|, 2) + aad + Zeros(MAX_AAD - |aad|)
  }

  /** Fills in B0 and the length prefix in front of the additional data. */
  method WriteFront(headerBuf: array<byte>, nonce: seq<byte>, msgLen: nat, aadLen: nat, ghost aad: seq<byte>)
      returns (dataLen: nat)
    requires ValidNonce(nonce) && aadLen == |aad| <= MAX_AAD && msgLen <= MSG_BUF
    requires headerBuf.Length == HEADER_BUF && headerBuf[..] == Zeros(18) + aad + Zeros(MAX_AAD - aadLen)
    modifies headerBuf
    ensures Laid(nonce, msgLen, aad, headerBuf[..], dataLen)
  {
    hide B0, BigEndian;
    var b0 := BuildB0(nonce, msgLen, aadLen, TAG_LEN);
    ghost var first := b0[..];
    AadTail(aad);
    CopyInto(headerBuf, 0, b0[..]);
    assert headerBuf[..] == first + ([0, 0] + aad + Zeros(MAX_AAD - aadLen));
    Regroup4(first, [0, 0], aad, Zeros(MAX_AAD - aadLen));
    dataLen := 16;
    if aadLen != 0 {
      WriteLength(headerBuf, aadLen, first, aad + Zeros(MAX_AAD - aadLen));
      Regroup4(first, BigEndian(aadLen, 2), aad, Zeros(MAX_AAD - aadLen));
      dataLen := 18 + aadLen;
    }
  }

  lemma Regroup4(a: seq<byte>, b: seq<byte>, c: seq<byte>, d: seq<byte>)
    ensures a + b + c + d == a + (b + c + d) == a + b + (c + d)
  {
    assert a + b + c + d == a + (b + c + d);
  }

  method WriteLength(headerBuf: array<byte>, aadLen: nat, ghost first: seq<byte>, ghost rest: seq<byte>)
    requires |first| == 16 && headerBuf[..] == first + [0, 0] + rest
    modifies headerBuf
    ensures headerBuf[..] == first + BigEndian(aadLen, 2) + rest
  {
    hide BigEndian, ByteOf;
    TwoBytes(aadLen);
    LengthWritten(first, BigEndian(aadLen, 2), rest);
    assert |headerBuf[..]| == headerBuf.Length;
    CopyInto(headerBuf, 16, [ByteOf(aadLen / 256 % 256), ByteOf(aadLen % 256)]);
  }

  lemma AadTail(aad: seq<byte>)
    requires |aad| <= MAX_AAD
    ensures (Zeros(18) + aad + Zeros(MAX_AAD - |aad|))[16..] == [0, 0] + aad + Zeros(MAX_AAD - |aad|)
  {
  }

  lemma LengthWritten(first: seq<byte>, length: seq<byte>, rest: seq<byte>)
    requires |first| == 16 && |length| == 2
    ensures (first + [0, 0] + rest)[..16] + length + (first + [0, 0] + rest)[18..] == first + length + rest
  {
  }

  lemma SliceCopied(done: seq<byte>, slice: seq<byte>)
    requires |done| + |slice| <= MAX_AAD
    ensures var buf, at := Zeros(18) + done + Zeros(MAX_AAD - |done|), 18 + |done|;
      buf[..at] + slice + buf[at + |slice|..] == Zeros(18) + (done + slice) + Zeros(MAX_AAD - |done + slice|)
  {
  }

  /** Copies the additional data, slice by slice, to offset 18 of a zeroed buffer. */
  method CopyAad(headerBuf: array<byte>, aad: seq<seq<byte>>) returns (aadLen: nat)
    requires headerBuf.Length == HEADER_BUF && headerBuf[..] == Zeros(HEADER_BUF) && |Concat(aad)| <= MAX_AAD
    modifies headerBuf
    ensures aadLen == |Concat(aad)|
    ensures headerBuf[..] == Zeros(18) + Concat(aad) + Zeros(MAX_AAD - aadLen)
  {
    hide Concat;
    aadLen := 0;
    ConcatStart(aad[..0]);
    for k := 0 to |aad|
      invariant aadLen == |Concat(aad[..k])| && aadLen <= MAX_AAD
      invariant headerBuf[..] == Zeros(18) + Concat(aad[..k]) + Zeros(MAX_AAD - aadLen)
    {
      ConcatPrefix(aad, k);
      SliceCopied(Concat(aad[..k]), aad[k]);
      CopyInto(headerBuf, 18 + aadLen, aad[k]);
      aadLen := aadLen + |aad[k]|;
    }
    assert aad[..|aad|] == aad;
  }

  lemma HeaderIs(nonce: seq<byte>, msgLen: nat, aad: seq<byte>, buf: seq<byte>, dataLen: nat)
    requires ValidNonce(nonce) && |aad| <= MAX_AAD
    requires Laid(nonce, msgLen, aad, buf, dataLen)
    ensures |buf| == HEADER_BUF && dataLen == if aad == [] then 16 else 18 + |aad|
    ensures buf[..dataLen] == Header(nonce, msgLen, aad)
    ensures forall i :: dataLen <= i < HEADER_BUF ==> buf[i] == 0
  {
  }

  lemma ConcatStart(s: seq<seq<byte>>)
    requires s == []
    ensures Concat(s) == []
  {
  }

  lemma TwoBytes(n: nat)
    ensures BigEndian(n, 2) == [ByteOf(n / 256 % 256), ByteOf(n % 256)]
  {
  }

  lemma PaddedHeader(nonce: seq<byte>, msgLen: nat, aad: seq<byte>, buf: seq<byte>, dataLen: nat)
    requires ValidNonce(nonce) && dataLen <= |buf| == RoundUp(dataLen)
    requires buf[..dataLen] == Header(nonce, msgLen, aad) && forall i :: dataLen <= i < |buf| ==> buf[i] == 0
    ensures buf == B0(nonce, msgLen, |aad|, TAG_LEN) + AadBlocks(aad) == Pad16(Header(nonce, msgLen, aad))
  {
    hide B0, BigEndian, Pad16;
    var b, h := B0(nonce, msgLen, |aad|, TAG_LEN), Header(nonce, msgLen, aad);
    RoundUpPads(h);
    assert buf == h + Zeros(|buf| - dataLen);
    if aad == [] {
      assert h == b;
      assert RoundUp(16) == 16;
    } else {
      PadAfterBlock(b, BigEndian(|aad|, 2) + aad);
    }
  }

  /** A zero-padded copy of a message in a fixed buffer. */
  method PadMessage(message: array<byte>) returns (buf: array<byte>)
    requires message.Length <= MSG_BUF
    ensures fresh(buf) && buf.Length == MSG_BUF
    ensures RoundUp(message.Length) <= MSG_BUF && buf[..message.Length] == message[..]
  {
    buf := new byte[MSG_BUF](_ => 0);
    CopyInto(buf, 0, message[..]);
  }

  lemma EngineIsCcm(cipher: Cipher, key: seq<byte>, nonce: seq<byte>, aad: seq<byte>, text: seq<byte>,
                    header: seq<byte>)
    requires ValidNonce(nonce) && header == Header(nonce, |text|, aad)
    requires Pad16(header) == B0(nonce, |text|, |aad|, TAG_LEN) + AadBlocks(aad)
    ensures 1 <= header[0] as int % 8 && NonceOf(header[..16]) == nonce
    ensures EngineTag(cipher, key, header, text)[..TAG_LEN] == Tag(cipher, key, nonce, aad, text, TAG_LEN)
  {
    hide CbcMac, Pad16, AadBlocks, BigEndian, Flags, CounterBlock, CounterBlockOf;
    var b := B0(nonce, |text|, |aad|, TAG_LEN);
    assert header[..16] == b;
    B0Announces(nonce, |text|, |aad|, TAG_LEN);
    EngineCounters(b, nonce, 0);
    assert header[0] == b[0];
    assert Pad16(header) + Pad16(text) == AuthString(nonce, aad, text, TAG_LEN);
  }

  /** Whatever fits the buffers is within the lengths for which the encoding is that of RFC 3610. */
  lemma BuffersConform(nonce: seq<byte>, aLen: nat, msgLen: nat)
    requires ValidNonce(nonce) && aLen <= MAX_AAD && msgLen <= MSG_BUF
    ensures Conforming(nonce, aLen, msgLen)
  {
    var k := LengthRange(nonce);
    assert k * 0x1_0000 >= 0x1_0000;
  }

  /** Encrypts in place and returns the tag: CCM encryption of RFC 3610. */
  method CcmEncrypt(cipher: Cipher, key: seq<byte>, nonce: seq<byte>, message: array<byte>, aad: seq<seq<byte>>)
      returns (tag: seq<byte>)
    requires ValidNonce(nonce) && |Concat(aad)| <= MAX_AAD && message.Length <= MSG_BUF
    modifies message
    ensures (message[..], tag) == Encrypt(cipher, key, nonce, Concat(aad), old(message[..]), TAG_LEN)
    ensures |tag| == 8
    ensures RfcEncrypt(cipher, key, nonce, Concat(aad), old(message[..]), TAG_LEN) == Some((message[..], tag))
  {
    hide Concat, CtrXor, Tag, EngineTag, NonceOf, Header, B0, AadBlocks, Pad16, RfcEncrypt, RfcDecrypt, Conforming;
    ghost var input := message[..];
    var headerBuf, dataLen, paddedLen := AssembleHeader(nonce, message.Length, aad);
    var msgPaddedLen := RoundUp(message.Length);
    var msgInBuf := PadMessage(message);
    ghost var header := headerBuf[..dataLen];
    EngineIsCcm(cipher, key, nonce, Concat(aad), input, header);
    SameHead(headerBuf[..paddedLen], dataLen);
    assert msgInBuf[..msgPaddedLen][..message.Length] == input;
    var ctBuf, tagOut := Ba411e(cipher, key, false, headerBuf[..paddedLen], paddedLen - dataLen,
                                msgInBuf[..msgPaddedLen], msgPaddedLen - message.Length, Zeros(16));
    ghost var ct := ctBuf[..message.Length];
    CopyInto(message, 0, ctBuf[..message.Length]);
    assert message[..] == ct;
    tag := tagOut[..TAG_LEN];
    BuffersConform(nonce, |Concat(aad)|, message.Length);
    Conformity(cipher, key, nonce, Concat(aad), input, tag, TAG_LEN);
  }

  lemma SameHead(buf: seq<byte>, n: nat)
    requires 16 <= n <= |buf|
    ensures buf[..n][..16] == buf[..16] && buf[..n][0] == buf[0]
  {
  }

  /** All bytes of a tag comparison are zero. */
  method AllZero(s: seq<byte>) returns (r: bool)
    ensures r <==> s == Zeros(|s|)
  {
    for i := 0 to |s|
      invariant forall j :: 0 <= j < i ==> s[j] == 0
    {
      if s[i] != 0 {
        return false;
      }
    }
    return true;
  }

  lemma XorZero(a: seq<byte>, b: seq<byte>)
    requires |a| == |b|
    ensures Xor(a, b) == Zeros(|a|) <==> a == b
  {
  }

  /** Comparing tags by their difference is what decryption asks for. */
  lemma Verdict(cipher: Cipher, key: seq<byte>, nonce: seq<byte>, aad: seq<byte>, ciphertext: seq<byte>,
                tag: seq<byte>, difference: seq<byte>)
    requires ValidNonce(nonce) && |aad| <= MAX_AAD && |ciphertext| <= MSG_BUF && |tag| == TAG_LEN
    requires var plain := CtrXor(cipher, key, nonce, 1, ciphertext);
      difference == Xor(Tag(cipher, key, nonce, aad, plain, TAG_LEN), tag)
    ensures Decrypt(cipher, key, nonce, aad, ciphertext, tag, TAG_LEN)
      == RfcDecrypt(cipher, key, nonce, aad, ciphertext, tag, TAG_LEN)
      == if difference == Zeros(TAG_LEN) then Some(CtrXor(cipher, key, nonce, 1, ciphertext)) else None
  {
    hide CtrXor, Tag, RfcDecrypt, Conforming;
    XorZero(Tag(cipher, key, nonce, aad, CtrXor(cipher, key, nonce, 1, ciphertext), TAG_LEN), tag);
    BuffersConform(nonce, |aad|, |ciphertext|);
    Conformity(cipher, key, nonce, aad, ciphertext, tag, TAG_LEN);
  }

  /**
   * Decrypts in place if the tag's first eight bytes are right, and leaves the buffer alone otherwise.
   * Further bytes of an overlong tag are not looked at.
   */
  method CcmDecrypt(cipher: Cipher, key: seq<byte>, nonce: seq<byte>, ciphertext: array<byte>, tagIn: seq<byte>,
                    aad: seq<seq<byte>>)
      returns (macOk: bool)
    requires ValidNonce(nonce) && |tagIn| >= 8
    requires |Concat(aad)| <= MAX_AAD && ciphertext.Length <= MSG_BUF
    modifies ciphertext
    ensures Decrypt(cipher, key, nonce, Concat(aad), old(ciphertext[..]), tagIn[..TAG_LEN], TAG_LEN)
      == RfcDecrypt(cipher, key, nonce, Concat(aad), old(ciphertext[..]), tagIn[..TAG_LEN], TAG_LEN)
      == if macOk then Some(ciphertext[..]) else None
    ensures !macOk ==> ciphertext[..] == old(ciphertext[..])
  {
    hide Concat, CtrXor, Tag, EngineTag, NonceOf, Header, B0, AadBlocks, Pad16, Decrypt, RfcDecrypt;
    ghost var input := ciphertext[..];
    var headerBuf, dataLen, paddedLen := AssembleHeader(nonce, ciphertext.Length, aad);
    var ctPaddedLen := RoundUp(ciphertext.Length);
    var ctInBuf := PadMessage(ciphertext);
    ghost var header := headerBuf[..dataLen];
    ghost var plain := CtrXor(cipher, key, nonce, 1, input);
    EngineIsCcm(cipher, key, nonce, Concat(aad), plain, header);
    SameHead(headerBuf[..paddedLen], dataLen);
    assert ctInBuf[..ctPaddedLen][..ciphertext.Length] == input;
    var expected := tagIn[..TAG_LEN] + Zeros(8);
    var ptBuf, xorTagBuf := Ba411e(cipher, key, true, headerBuf[..paddedLen], paddedLen - dataLen,
                                   ctInBuf[..ctPaddedLen], ctPaddedLen - ciphertext.Length, expected);
    assert ptBuf[..ciphertext.Length] == plain;
    macOk := AllZero(xorTagBuf[..TAG_LEN]);
    assert expected[..TAG_LEN] == tagIn[..TAG_LEN];
    Verdict(cipher, key, nonce, Concat(aad), input, tagIn[..TAG_LEN], xorTagBuf[..TAG_LEN]);
    if macOk {
      CopyInto(ciphertext, 0, ptBuf[..ciphertext.Length]);
      assert ciphertext[..] == plain;
    }
  }

  /** CcmDecrypt's verdict on a tag of any length of at least eight bytes. */
  predicate Accepts(cipher: Cipher, key: seq<byte>, nonce: seq<byte>, aad: seq<byte>, ciphertext: seq<byte>,
                    tag: seq<byte>)
    requires ValidNonce(nonce) && |tag| >= TAG_LEN
  {
    Decrypt(cipher, key, nonce, aad, ciphertext, tag[..TAG_LEN], TAG_LEN).Some?
  }

  ghost predicate IsEncryption(cipher: Cipher, key: seq<byte>, nonce: seq<byte>, aad: seq<byte>,
                               ciphertext: seq<byte>, tag: seq<byte>)
    requires ValidNonce(nonce)
  {
    exists message: seq<byte> :: (ciphertext, tag) == Encrypt(cipher, key, nonce, aad, message, TAG_LEN)
  }

  /**
   * Among tags of length n, acceptance means "is an encryption" exactly when n is eight: the driver does
   * not look at what follows.
   */
  lemma AcceptsExactly(cipher: Cipher, key: seq<byte>, nonce: seq<byte>, aad: seq<byte>, n: nat)
    requires ValidNonce(nonce) && n >= 8
    ensures (forall ciphertext: seq<byte>, tag: seq<byte> | |tag| == n ::
        Accepts(cipher, key, nonce, aad, ciphertext, tag) <==> IsEncryption(cipher, key, nonce, aad, ciphertext, tag))
      <==> n == 8
  {
    hide Encrypt, Decrypt;
    if n == TAG_LEN {
      forall ciphertext: seq<byte>, tag: seq<byte> | |tag| == n
        ensures Accepts(cipher, key, nonce, aad, ciphertext, tag)
          <==> IsEncryption(cipher, key, nonce, aad, ciphertext, tag)
      {
        EightByteTag(cipher, key, nonce, aad, ciphertext, tag);
      }
    } else {
      var tag := Encrypt(cipher, key, nonce, aad, [], TAG_LEN).1 + Zeros(n - TAG_LEN);
      OverlongAccepted(cipher, key, nonce, aad, [], Zeros(n - TAG_LEN));
      assert |tag| == n;
    }
  }

  lemma EightByteTag(cipher: Cipher, key: seq<byte>, nonce: seq<byte>, aad: seq<byte>, ciphertext: seq<byte>,
                     tag: seq<byte>)
    requires ValidNonce(nonce) && |tag| == TAG_LEN
    ensures Accepts(cipher, key, nonce, aad, ciphertext, tag)
      <==> IsEncryption(cipher, key, nonce, aad, ciphertext, tag)
  {
    hide Encrypt, Decrypt;
    assert tag[..TAG_LEN] == tag;
    var decrypted := Decrypt(cipher, key, nonce, aad, ciphertext, tag, TAG_LEN);
    if decrypted.Some? {
      DecryptExact(cipher, key, nonce, aad, decrypted.value, ciphertext, tag, TAG_LEN);
    }
    if IsEncryption(cipher, key, nonce, aad, ciphertext, tag) {
      var message: seq<byte> :| (ciphertext, tag) == Encrypt(cipher, key, nonce, aad, message, TAG_LEN);
      DecryptExact(cipher, key, nonce, aad, message, ciphertext, tag, TAG_LEN);
    }
  }

  /** An encryption with anything appended to its tag is accepted, and is no encryption. */
  lemma OverlongAccepted(cipher: Cipher, key: seq<byte>, nonce: seq<byte>, aad: seq<byte>, message: seq<byte>,
                         junk: seq<byte>)
    requires ValidNonce(nonce) && junk != []
    ensures var (ciphertext, tag) := Encrypt(cipher, key, nonce, aad, message, TAG_LEN);
      && |tag| == TAG_LEN
      && Accepts(cipher, key, nonce, aad, ciphertext, tag + junk)
      && !IsEncryption(cipher, key, nonce, aad, ciphertext, tag + junk)
      && Decrypt(cipher, key, nonce, aad, ciphertext, tag + junk, TAG_LEN) == None
  {
    hide CtrXor, Tag;
    var (ciphertext, tag) := Encrypt(cipher, key, nonce, aad, message, TAG_LEN);
    assert (tag + junk)[..TAG_LEN] == tag;
    DecryptExact(cipher, key, nonce, aad, message, ciphertext, tag, TAG_LEN);
  }

  /** The same on the driver: the junk goes unnoticed, and the message comes back. */
  method OverlongTag(cipher: Cipher, key: seq<byte>, nonce: seq<byte>, message: array<byte>, aad: seq<seq<byte>>,
                     junk: seq<byte>)
      returns (ok: bool, ghost ciphertext: seq<byte>, tag: seq<byte>)
    requires ValidNonce(nonce) && |Concat(aad)| <= MAX_AAD && message.Length <= MSG_BUF && junk != []
    modifies message
    ensures |tag| == TAG_LEN + |junk|
    ensures (ciphertext, tag[..TAG_LEN]) == Encrypt(cipher, key, nonce, Concat(aad), old(message[..]), TAG_LEN)
    ensures tag[TAG_LEN..] == junk
    ensures Decrypt(cipher, key, nonce, Concat(aad), ciphertext, tag, TAG_LEN) == None
    ensures ok && message[..] == old(message[..])
  {
    hide Tag, CtrXor, Concat;
    ghost var input := message[..];
    var good := CcmEncrypt(cipher, key, nonce, message, aad);
    ciphertext, tag := message[..], good + junk;
    OverlongAccepted(cipher, key, nonce, Concat(aad), input, junk);
    DecryptExact(cipher, key, nonce, Concat(aad), input, ciphertext, good, TAG_LEN);
    assert tag[..TAG_LEN] == good;
    ok := CcmDecrypt(cipher, key, nonce, message, tag, aad);
  }

  /** What the STM32 driver encrypts, this one decrypts, however each side slices the additional data. */
  method CrossBackend(aes: Stm32Aead.AesPeripheral, key: seq<byte>, nonce: seq<byte>, message: array<byte>,
                      aad: seq<seq<byte>>, aad': seq<seq<byte>>)
      returns (ok: bool)
    requires ValidNonce(nonce) && |Concat(aad)| <= MAX_AAD && message.Length <= MSG_BUF
    requires Concat(aad') == Concat(aad)
    modifies aes, message
    ensures ok && message[..] == old(message[..])
  {
    hide Tag, CtrXor, Concat;
    ghost var input := message[..];
    var tag := Stm32Aead.EncryptInPlace(aes, key, nonce, message, aad);
    DecryptExact(aes.cipher, key, nonce, Concat(aad), input, message[..], tag, TAG_LEN);
    assert tag[..TAG_LEN] == tag;
    ok := CcmDecrypt(aes.cipher, key, nonce, message, tag, aad');
  }

  /** And what this driver encrypts, the STM32 driver decrypts. */
  method CrossBackendReturn(aes: Stm32Aead.AesPeripheral, key: seq<byte>, nonce: seq<byte>, message: array<byte>,
                            aad: seq<seq<byte>>, aad': seq<seq<byte>>)
      returns (ok: bool)
    requires ValidNonce(nonce) && |Concat(aad)| <= MAX_AAD && message.Length <= MSG_BUF
    requires Concat(aad') == Concat(aad)
    modifies aes, message
    ensures ok && message[..] == old(message[..])
  {
    hide Tag, CtrXor, Concat;
    ghost var input := message[..];
    var tag := CcmEncrypt(aes.cipher, key, nonce, message, aad);
    DecryptExact(aes.cipher, key, nonce, Concat(aad), input, message[..], tag, TAG_LEN);
    ok := Stm32Aead.DecryptInPlace(aes, key, nonce, message, tag, aad');
  }
}
