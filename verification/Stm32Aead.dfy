/**
 * The STM32WBA55 AES-CCM driver: four phases over a register-programmed peripheral.
 *
 * AesPeripheral is an assumption about the environment: the CCM engine of RFC 3610 as the driver's
 * comments describe it. The driver never sees the chaining value or the counter; it only feeds blocks.
 */
module Stm32Aead {
  import opened Bytes
  import opened Ccm

  /** MODE1 encrypts, MODE3 decrypts. */
  datatype Mode = Mode1 | Mode3
  datatype Phase = InitPhase | HeaderPhase | PayloadPhase | FinalPhase

  /** A block whose last n bytes are cleared. */
  function ClearTail(block: Block16, n: nat): Block16
    requires n <= 16
  {
    block[..16 - n] + Zeros(n)
  }

  class AesPeripheral {
    const cipher: Cipher
    // Registers.
    var enabled: bool
    var mode: Mode
    var phase: Phase
    var npblb: nat
    var ivr: Block16
    var keyr: seq<byte>
    // Internal state of the engine.
    var mac: Block16
    var counter: nat
    /** The string authenticated so far. */
    ghost var authenticated: seq<byte>

    constructor (cipher: Cipher)
      ensures this.cipher == cipher
    {
      this.cipher := cipher;
      enabled, mode, phase, npblb := false, Mode1, InitPhase, 0;
      ivr, keyr, mac, counter, authenticated := Zeros(16), [], Zeros(16), 0, [];
    }

    /** The engine holds the CBC-MAC of what it has been fed, under the key and B0 in its registers. */
    ghost predicate Running()
      reads this
    {
      && enabled && npblb <= 16
      && |authenticated| % 16 == 0 && mac == CbcMac(cipher, keyr, Zeros(16), authenticated)
    }

    /** Enabling the peripheral in the init phase computes the first mask from B0. */
    method StartInit()
      requires phase == InitPhase && npblb <= 16
      modifies this
      ensures Running() && authenticated == ivr && counter == 1
      ensures unchanged(`mode) && unchanged(`phase) && unchanged(`npblb) && unchanged(`ivr) && unchanged(`keyr)
    {
      enabled := true;
      mac := cipher(keyr, Xor(Zeros(16), ivr));
      counter := 1;
      authenticated := ivr;
      assert ivr[..16] == ivr && ivr[16..] == [];
      assert mac == CbcMac(cipher, keyr, Zeros(16), ivr);
    }

    /** A block under the CBC-MAC. */
    method Absorb(block: Block16)
      requires Running()
      modifies `mac, `authenticated
      ensures Running() && authenticated == old(authenticated) + block
    {
      CbcMacConcat(cipher, keyr, Zeros(16), authenticated, block);
      assert block[..16] == block && block[16..] == [];
      assert CbcMac(cipher, keyr, mac, block) == cipher(keyr, Xor(mac, block));
      mac := cipher(keyr, Xor(mac, block));
      authenticated := authenticated + block;
    }

    /**
     * One block through DINR and DOUTR. In the header phase it is only authenticated. In the payload
     * phase it is en- or decrypted, and the plaintext is authenticated: when encrypting, as it was fed;
     * when decrypting, with its last NPBLB bytes cleared.
     */
    method Process(block: Block16) returns (out: Block16)
      requires Running() && (phase == HeaderPhase || phase == PayloadPhase)
      modifies `mac, `authenticated, `counter
      ensures Running()
      ensures phase == HeaderPhase ==> counter == old(counter) && authenticated == old(authenticated) + block
      ensures phase == PayloadPhase ==>
        && counter == old(counter) + 1
        && out == Xor(block, cipher(keyr, CounterBlockOf(ivr, old(counter))))
        && authenticated == old(authenticated) + if mode == Mode1 then block else ClearTail(out, npblb)
    {
      out := Zeros(16);
      if phase == HeaderPhase {
        Absorb(block);
      } else {
        out := Xor(block, cipher(keyr, CounterBlockOf(ivr, counter)));
        Absorb(if mode == Mode1 then block else ClearTail(out, npblb));
        counter := counter + 1;
      }
    }

    /** The final phase delivers the CBC-MAC encrypted with counter block 0. */
    method Finish() returns (tag: Block16)
      requires Running() && phase == FinalPhase
      modifies `enabled
      ensures tag == Xor(CbcMac(cipher, keyr, Zeros(16), authenticated), cipher(keyr, CounterBlockOf(ivr, 0)))
    {
      tag := Xor(mac, cipher(keyr, CounterBlockOf(ivr, 0)));
      enabled := false;
    }
  }

  // ---------------------------------------------------------------- driver

  method RunInitPhase(aes: AesPeripheral, mode: Mode, nonce: seq<byte>, msgLen: nat, aLen: nat, tagLen: nat,
                      key: seq<byte>)
    requires ValidNonce(nonce) && ValidTagLength(tagLen) && msgLen < USIZE_LIMIT
    modifies aes
    ensures aes.Running() && aes.authenticated == aes.ivr == B0(nonce, msgLen, aLen, tagLen)
    ensures aes.mode == mode && aes.keyr == key && aes.npblb == 0 && aes.counter == 1
  {
    aes.enabled := false;
    aes.mode := mode;
    aes.phase := InitPhase;
    aes.npblb := 0;
    var b0 := BuildB0(nonce, msgLen, aLen, tagLen);
    aes.ivr := b0[..];
    aes.keyr := key;
    aes.StartInit();
  }

  /** Selects the next phase of a running operation. */
  method EnterPhase(aes: AesPeripheral, phase: Phase)
    requires aes.Running()
    modifies aes`phase, aes`enabled
    ensures aes.Running() && aes.phase == phase
  {
    aes.phase := phase;
    aes.enabled := true;
  }

  /**
   * The header phase's bookkeeping: of the bytes streamed so far, whole blocks have been fed and the
   * rest is in the zero-initialised block.
   */
  ghost predicate Buffered(fed: seq<byte>, block: seq<byte>, pos: nat, stream: seq<byte>, blocks: nat) {
    && |block| == 16 && pos < 16 && |stream| == 16 * blocks + pos
    && fed == stream[..16 * blocks]
    && block == stream[16 * blocks..] + Zeros(16 - pos)
  }

  lemma BufferedEnd(fed: seq<byte>, block: seq<byte>, pos: nat, stream: seq<byte>, blocks: nat)
    requires Buffered(fed, block, pos, stream, blocks)
    ensures Pad16(stream) == if pos > 0 then fed + block else fed
  {
  }

  /** Streams one slice through the block buffer, feeding every block that fills up. */
  method FeedSlice(aes: AesPeripheral, block0: array<byte>, pos0: nat, slice: seq<byte>,
                   ghost base: seq<byte>, ghost fed0: seq<byte>, ghost stream0: seq<byte>, ghost blocks0: nat)
      returns (block: array<byte>, pos: nat, ghost fed: seq<byte>, ghost blocks: nat)
    requires aes.Running() && aes.phase == HeaderPhase && aes.authenticated == base + fed0
    requires Buffered(fed0, block0[..], pos0, stream0, blocks0)
    modifies aes`mac, aes`authenticated, aes`counter, block0
    ensures aes.Running() && aes.authenticated == base + fed && aes.counter == old(aes.counter)
    ensures block == block0 || fresh(block)
    ensures Buffered(fed, block[..], pos, stream0 + slice, blocks)
  {
    hide Buffered, AesPeripheral.Running;
    block, pos, fed, blocks := block0, pos0, fed0, blocks0;
    BufferedSize(fed, block[..], pos, stream0, blocks);
    var offset := 0;
    assert stream0 + slice[..0] == stream0;
    while offset < |slice|
      invariant 0 <= offset <= |slice|
      invariant block == block0 || fresh(block)
      invariant aes.Running() && aes.phase == HeaderPhase && aes.authenticated == base + fed
      invariant aes.counter == old(aes.counter)
      invariant block.Length == 16 && pos < 16
      invariant Buffered(fed, block[..], pos, stream0 + slice[..offset], blocks)
    {
      ghost var stream := stream0 + slice[..offset];
      ghost var before := block[..];
      var n := if |slice| - offset < 16 - pos then |slice| - offset else 16 - pos;
      forall i | 0 <= i < n { block[pos + i] := slice[offset + i]; }
      ghost var part := slice[offset..offset + n];
      assert block[..] == before[..pos] + part + before[pos + n..];
      assert stream0 + slice[..offset + n] == stream + part;
      CopyStep(fed, before, pos, stream, blocks, part);
      pos := pos + n;
      offset := offset + n;
      if pos == 16 {
        var unused := aes.Process(block[..]);
        Regroup(base, fed, block[..]);
        fed := fed + block[..];
        block := new byte[16](_ => 0);
        assert block[..] == Zeros(16);
        pos := 0;
        blocks := blocks + 1;
      }
    }
    assert slice[..|slice|] == slice;
  }

  /** Copying part of a slice into the block either leaves it partly full or completes it. */
  lemma CopyStep(fed: seq<byte>, block: seq<byte>, pos: nat, stream: seq<byte>, blocks: nat, part: seq<byte>)
    requires Buffered(fed, block, pos, stream, blocks) && pos + |part| <= 16
    ensures var block' := block[..pos] + part + block[pos + |part|..];
      if pos + |part| < 16 then Buffered(fed, block', pos + |part|, stream + part, blocks)
      else |block'| == 16 && Buffered(fed + block', Zeros(16), 0, stream + part, blocks + 1)
  {
  }

  /** Feeds the length-prefixed additional data in 16-byte blocks, whatever its slicing. */
  method RunHeaderPhase(aes: AesPeripheral, items: seq<seq<byte>>, aLen: nat)
    requires aes.Running() && aLen == |Concat(items)|
    modifies aes`phase, aes`enabled, aes`mac, aes`authenticated, aes`counter
    ensures aes.Running() && aes.authenticated == old(aes.authenticated) + Pad16(BigEndian(aLen, 2) + Concat(items))
    ensures aes.counter == old(aes.counter)
  {
    hide Buffered, AesPeripheral.Running, Concat, BigEndian, ByteOf;
    EnterPhase(aes, HeaderPhase);
    ghost var base := aes.authenticated;
    var block := new byte[16](_ => 0);
    // Two-byte length; the shift and the mask of the source as division and remainder.
    block[0] := ByteOf(aLen / 256 % 256);
    block[1] := ByteOf(aLen % 256);
    var pos := 2;
    ghost var fed, blocks, prefix: seq<byte> := [], 0, BigEndian(aLen, 2);
    assert block[..] == [block[0], block[1]] + Zeros(14);
    LengthPrefix(aLen, block[..]);
    assert items[..0] == [];
    for k := 0 to |items|
      invariant fresh(block) && aes.Running() && aes.phase == HeaderPhase && aes.authenticated == base + fed
      invariant aes.counter == old(aes.counter)
      invariant Buffered(fed, block[..], pos, prefix + Concat(items[..k]), blocks)
    {
      ConcatPrefix(items, k);
      Regroup(prefix, Concat(items[..k]), items[k]);
      block, pos, fed, blocks := FeedSlice(aes, block, pos, items[k], base, fed, prefix + Concat(items[..k]), blocks);
    }
    assert items[..|items|] == items;
    BufferedEnd(fed, block[..], pos, prefix + Concat(items), blocks);
    if pos > 0 {
      BufferedSize(fed, block[..], pos, prefix + Concat(items), blocks);
      var unused := aes.Process(block[..]);
      Regroup(base, fed, block[..]);
    }
  }

  lemma BufferedSize(fed: seq<byte>, block: seq<byte>, pos: nat, stream: seq<byte>, blocks: nat)
    requires Buffered(fed, block, pos, stream, blocks)
    ensures |block| == 16 && pos < 16
  {
  }

  lemma LengthPrefix(aLen: nat, block: seq<byte>)
    requires block == [ByteOf(aLen / 256 % 256), ByteOf(aLen % 256)] + Zeros(14)
    ensures Buffered([], block, 2, BigEndian(aLen, 2), 0) && BigEndian(aLen, 2) + Concat([]) == BigEndian(aLen, 2)
  {
  }

  /** One chunk of the payload: padded to a block, exchanged, and cut back to its own length. */
  method ExchangeChunk(aes: AesPeripheral, data: seq<byte>, withNpblb: bool, isLast: bool) returns (out: seq<byte>)
    requires aes.Running() && aes.phase == PayloadPhase && aes.npblb == 0
    requires 0 < |data| <= 16 && (|data| < 16 ==> isLast) && withNpblb == aes.mode.Mode3?
    modifies aes`npblb, aes`mac, aes`authenticated, aes`counter
    ensures aes.Running() && aes.counter == old(aes.counter) + 1 && (|data| == 16 ==> aes.npblb == 0)
    ensures out == Xor(data, aes.cipher(aes.keyr, CounterBlockOf(aes.ivr, old(aes.counter)))[..|data|])
    ensures aes.authenticated
      == old(aes.authenticated) + ((if withNpblb then out else data) + Zeros(16 - |data|))
  {
    hide CbcMac, CounterBlockOf;
    var chunk := |data|;
    var block := new byte[16](_ => 0);
    forall i | 0 <= i < chunk { block[i] := data[i]; }
    assert block[..] == data + Zeros(16 - chunk);
    if withNpblb {
      if isLast && chunk < 16 {
        aes.npblb := 16 - chunk;
      }
    }
    var full := aes.Process(block[..]);
    out := full[..chunk];
  }

  /** A buffer whose first k bytes have been replaced by those of the output. */
  ghost function Patched(output: seq<byte>, input: seq<byte>, k: nat): seq<byte>
    requires k <= |output| == |input|
  {
    output[..k] + input[k..]
  }

  lemma PatchedEdges(output: seq<byte>, input: seq<byte>)
    requires |output| == |input|
    ensures Patched(output, input, 0) == input && Patched(output, input, |input|) == output
  {
  }

  /** En- or decrypts in place, 16 bytes at a time; only the chunk's own bytes are written back. */
  method RunPayloadPhase(aes: AesPeripheral, message: array<byte>, withNpblb: bool, ghost nonce: seq<byte>)
    requires aes.Running() && aes.counter == 1 && aes.npblb == 0
    requires ValidNonce(nonce) && Announces(aes.ivr, nonce) && withNpblb == aes.mode.Mode3?
    modifies aes`phase, aes`enabled, aes`npblb, aes`mac, aes`authenticated, aes`counter, message
    ensures aes.Running()
    ensures message[..] == CtrXor(aes.cipher, aes.keyr, nonce, 1, old(message[..]))
    ensures aes.authenticated == old(aes.authenticated) + Pad16(if withNpblb then message[..] else old(message[..]))
  {
    hide CtrXor, Announces, Pad16, AesPeripheral.Running, Patched;
    EnterPhase(aes, PayloadPhase);
    ghost var base, input := aes.authenticated, message[..];
    ghost var output := CtrXor(aes.cipher, aes.keyr, nonce, 1, input);
    ghost var plain := if withNpblb then output else input;
    var msgLen := message.Length;
    var msgOffset := 0;
    ghost var blocks: nat := 0;
    EmptyPad(plain[..0]);
    PatchedEdges(output, input);
    while msgOffset < msgLen
      invariant 0 <= msgOffset <= msgLen
      invariant msgOffset < msgLen ==> msgOffset == 16 * blocks && aes.npblb == 0 && aes.counter == 1 + blocks
      invariant aes.Running() && aes.phase == PayloadPhase
      invariant message[..] == Patched(output, input, msgOffset)
      invariant aes.authenticated == base + Pad16(plain[..msgOffset])
    {
      var chunk := if msgLen - msgOffset < 16 then msgLen - msgOffset else 16;
      PayloadStep(aes, message, msgOffset, chunk, withNpblb, nonce, input, plain, blocks);
      PaddedChunk(plain, blocks, chunk);
      Regroup(base, Pad16(plain[..msgOffset]), plain[msgOffset..msgOffset + chunk] + Zeros(16 - chunk));
      msgOffset := msgOffset + chunk;
      blocks := blocks + 1;
    }
    assert plain[..msgOffset] == plain;
  }

  /** One iteration of the payload loop. */
  method PayloadStep(aes: AesPeripheral, message: array<byte>, offset: nat, chunk: nat, withNpblb: bool,
                     ghost nonce: seq<byte>, ghost input: seq<byte>, ghost plain: seq<byte>, ghost blocks: nat)
    requires aes.Running() && aes.phase == PayloadPhase && aes.npblb == 0 && aes.counter == 1 + blocks
    requires ValidNonce(nonce) && Announces(aes.ivr, nonce) && withNpblb == aes.mode.Mode3?
    requires |input| == message.Length && offset == 16 * blocks < message.Length
    requires chunk == if message.Length - offset < 16 then message.Length - offset else 16
    requires plain == if withNpblb then CtrXor(aes.cipher, aes.keyr, nonce, 1, input) else input
    requires message[..] == Patched(CtrXor(aes.cipher, aes.keyr, nonce, 1, input), input, offset)
    modifies aes`npblb, aes`mac, aes`authenticated, aes`counter, message
    ensures aes.Running() && aes.counter == 2 + blocks && (chunk == 16 ==> aes.npblb == 0)
    ensures message[..] == Patched(CtrXor(aes.cipher, aes.keyr, nonce, 1, input), input, offset + chunk)
    ensures aes.authenticated
      == old(aes.authenticated) + (plain[offset..offset + chunk] + Zeros(16 - chunk))
  {
    hide CtrXor, CounterBlock, CounterBlockOf, Announces, AesPeripheral.Running;
    ghost var output := CtrXor(aes.cipher, aes.keyr, nonce, 1, input);
    var data := message[offset..offset + chunk];
    assert data == message[..][offset..][..chunk];
    assert Patched(output, input, offset)[offset..] == input[offset..];
    assert data == input[offset..offset + chunk];
    EngineCounters(aes.ivr, nonce, 1 + blocks);
    CtrChunk(aes.cipher, aes.keyr, nonce, input, blocks, chunk);
    var out := ExchangeChunk(aes, data, withNpblb, offset + chunk >= message.Length);
    WriteBack(message, offset, out, output, input);
  }

  method WriteBack(message: array<byte>, offset: nat, out: seq<byte>, ghost output: seq<byte>, ghost input: seq<byte>)
    requires |output| == |input| == message.Length && offset + |out| <= message.Length
    requires message[..] == Patched(output, input, offset)
    requires out == output[offset..offset + |out|]
    modifies message
    ensures message[..] == Patched(output, input, offset + |out|)
  {
    forall i | 0 <= i < |out| { message[offset + i] := out[i]; }
  }

  lemma EmptyPad(s: seq<byte>)
    requires s == []
    ensures Pad16(s) == []
  {
  }

  /** The chunk of the counter-mode output that belongs to a chunk of the input. */
  lemma CtrChunk(e: Cipher, key: seq<byte>, nonce: seq<byte>, input: seq<byte>, blocks: nat, chunk: nat)
    requires ValidNonce(nonce) && 16 * blocks < |input|
    requires chunk == if |input| - 16 * blocks < 16 then |input| - 16 * blocks else 16
    ensures CtrXor(e, key, nonce, 1, input)[16 * blocks..16 * blocks + chunk]
      == Xor(input[16 * blocks..16 * blocks + chunk], e(key, CounterBlock(nonce, 1 + blocks))[..chunk])
  {
    hide CounterBlock;
    CtrSuffix(e, key, nonce, 1, input, blocks);
    var rest := input[16 * blocks..];
    assert rest[..chunk] == input[16 * blocks..16 * blocks + chunk];
    assert CtrXor(e, key, nonce, 1 + blocks, rest)[..chunk]
      == Xor(rest[..chunk], e(key, CounterBlock(nonce, 1 + blocks))[..chunk]);
  }

  lemma CtrTail(e: Cipher, key: seq<byte>, nonce: seq<byte>, i: nat, data: seq<byte>)
    requires ValidNonce(nonce) && |data| >= 16
    ensures CtrXor(e, key, nonce, i, data)[16..] == CtrXor(e, key, nonce, i + 1, data[16..])
  {
  }

  /** From a block boundary on, counter mode continues with the counter advanced by the blocks skipped. */
  lemma {:induction false} CtrSuffix(e: Cipher, key: seq<byte>, nonce: seq<byte>, i: nat, data: seq<byte>, blocks: nat)
    requires ValidNonce(nonce) && 16 * blocks <= |data|
    ensures CtrXor(e, key, nonce, i, data)[16 * blocks..] == CtrXor(e, key, nonce, i + blocks, data[16 * blocks..])
    decreases blocks
  {
    hide CtrXor;
    if blocks == 0 {
      assert data[0..] == data;
    } else {
      CtrSuffix(e, key, nonce, i + 1, data[16..], blocks - 1);
      CtrTail(e, key, nonce, i, data);
      DropDrop(data, 16, 16 * blocks);
      DropDrop(CtrXor(e, key, nonce, i, data), 16, 16 * blocks);
    }
  }

  lemma DropDrop(s: seq<byte>, m: nat, n: nat)
    requires m <= n <= |s|
    ensures s[m..][n - m..] == s[n..]
  {
  }

  lemma PaddedChunk(plain: seq<byte>, blocks: nat, chunk: nat)
    requires 16 * blocks < |plain|
    requires chunk == if |plain| - 16 * blocks < 16 then |plain| - 16 * blocks else 16
    ensures Pad16(plain[..16 * blocks + chunk])
      == Pad16(plain[..16 * blocks]) + (plain[16 * blocks..16 * blocks + chunk] + Zeros(16 - chunk))
  {
  }

  /** Drains the tag and disables the peripheral. */
  method RunFinalPhase(aes: AesPeripheral) returns (tagFull: Block16)
    requires aes.Running()
    modifies aes`phase, aes`enabled
    ensures tagFull == Xor(CbcMac(aes.cipher, aes.keyr, Zeros(16), aes.authenticated),
                           aes.cipher(aes.keyr, CounterBlockOf(aes.ivr, 0)))
  {
    aes.phase := FinalPhase;
    tagFull := aes.Finish();
  }

  /** The total length of the additional data slices. */
  method TotalLength(items: seq<seq<byte>>) returns (aLen: nat)
    ensures aLen == |Concat(items)|
  {
    aLen := 0;
    assert items[..0] == [];
    for k := 0 to |items|
      invariant aLen == |Concat(items[..k])|
    {
      ConcatPrefix(items, k);
      aLen := aLen + |items[k]|;
    }
    assert items[..|items|] == items;
  }

  /** The four phases of one operation; returns the full tag. */
  method RunCcm(aes: AesPeripheral, mode: Mode, key: seq<byte>, nonce: seq<byte>, message: array<byte>,
                aad: seq<seq<byte>>)
      returns (tagFull: Block16)
    requires ValidNonce(nonce) && message.Length < USIZE_LIMIT
    modifies aes, message
    ensures message[..] == CtrXor(aes.cipher, key, nonce, 1, old(message[..]))
    ensures tagFull[..TAG_LEN]
      == Tag(aes.cipher, key, nonce, Concat(aad), if mode == Mode1 then old(message[..]) else message[..], TAG_LEN)
    ensures |Concat(aad)| < 0xFF00 ==>
      tagFull[..TAG_LEN]
        == RfcTag(aes.cipher, key, nonce, Concat(aad), if mode == Mode1 then old(message[..]) else message[..], TAG_LEN)
  {
    hide CtrXor, CounterBlock, CounterBlockOf, CbcMac, Pad16, BigEndian, Concat, RfcTag, AesPeripheral.Running;
    var aLen := TotalLength(aad);
    ghost var a, input := Concat(aad), message[..];
    RunInitPhase(aes, mode, nonce, message.Length, aLen, TAG_LEN, key);
    B0Announces(nonce, message.Length, aLen, TAG_LEN);
    if aLen > 0 {
      RunHeaderPhase(aes, aad, aLen);
    }
    assert aes.authenticated == B0(nonce, message.Length, aLen, TAG_LEN) + AadBlocks(a);
    RunPayloadPhase(aes, message, mode == Mode3, nonce);
    ghost var plain := if mode == Mode1 then input else message[..];
    assert aes.authenticated == AuthString(nonce, a, plain, TAG_LEN);
    tagFull := RunFinalPhase(aes);
    EngineCounters(aes.ivr, nonce, 0);
    if |a| < 0xFF00 {
      TagConformity(aes.cipher, key, nonce, a, plain, TAG_LEN);
    }
  }

  /** Encrypts in place and returns the tag: CCM encryption, and that of RFC 3610 for conforming lengths. */
  method EncryptInPlace(aes: AesPeripheral, key: seq<byte>, nonce: seq<byte>, message: array<byte>, aad: seq<seq<byte>>)
      returns (tag: seq<byte>)
    requires ValidNonce(nonce) && message.Length < USIZE_LIMIT
    modifies aes, message
    ensures (message[..], tag) == Encrypt(aes.cipher, key, nonce, Concat(aad), old(message[..]), TAG_LEN)
    ensures |tag| == 8
    ensures Conforming(nonce, |Concat(aad)|, message.Length) ==>
      RfcEncrypt(aes.cipher, key, nonce, Concat(aad), old(message[..]), TAG_LEN) == Some((message[..], tag))
  {
    hide Tag, CtrXor, Conforming, RfcEncrypt, RfcDecrypt, Concat;
    ghost var input := message[..];
    var tagFull := RunCcm(aes, Mode1, key, nonce, message, aad);
    tag := tagFull[..TAG_LEN];
    if Conforming(nonce, |Concat(aad)|, message.Length) {
      Conformity(aes.cipher, key, nonce, Concat(aad), input, tag, TAG_LEN);
    }
  }

  /** The accumulated differences vanish exactly when the tags have equal length and content. */
  method TagsMatch(computed: seq<byte>, tag: seq<byte>) returns (matches: bool)
    ensures matches <==> computed == tag
  {
    if |computed| != |tag| {
      return false;
    }
    var acc: byte := 0;
    for i := 0 to |computed|
      invariant acc == 0 <==> computed[..i] == tag[..i]
    {
      ghost var before := acc;
      acc := acc | (computed[i] ^ tag[i]);
      Difference(before, computed[i], tag[i]);
      assert computed[..i + 1] == computed[..i] + [computed[i]];
      assert tag[..i + 1] == tag[..i] + [tag[i]];
    }
    assert computed[..|computed|] == computed && tag[..|tag|] == tag;
    matches := acc == 0;
  }

  lemma Difference(acc: byte, a: byte, b: byte)
    ensures acc | (a ^ b) == 0 <==> acc == 0 && a == b
  {
  }

  /**
   * Decrypts in place. It succeeds exactly when the tag is the right one, of the right length. The
   * buffer holds the decrypted text in either case: this driver does not withhold it on failure.
   */
  method DecryptInPlace(aes: AesPeripheral, key: seq<byte>, nonce: seq<byte>, message: array<byte>, tag: seq<byte>,
                        aad: seq<seq<byte>>)
      returns (ok: bool)
    requires ValidNonce(nonce) && message.Length < USIZE_LIMIT
    modifies aes, message
    ensures message[..] == CtrXor(aes.cipher, key, nonce, 1, old(message[..])) && (ok ==> |tag| == 8)
    ensures Decrypt(aes.cipher, key, nonce, Concat(aad), old(message[..]), tag, TAG_LEN)
      == if ok then Some(message[..]) else None
    ensures Conforming(nonce, |Concat(aad)|, message.Length) ==>
      RfcDecrypt(aes.cipher, key, nonce, Concat(aad), old(message[..]), tag, TAG_LEN)
        == if ok then Some(message[..]) else None
  {
    hide Tag, CtrXor, Conforming, RfcEncrypt, RfcDecrypt, Concat;
    ghost var input := message[..];
    var tagFull := RunCcm(aes, Mode3, key, nonce, message, aad);
    ok := TagsMatch(tagFull[..TAG_LEN], tag);
    if Conforming(nonce, |Concat(aad)|, message.Length) {
      Conformity(aes.cipher, key, nonce, Concat(aad), input, tag, TAG_LEN);
    }
  }

  /** Decrypting what was encrypted succeeds and restores the message, for every slicing of the data. */
  method RoundTrip(aes: AesPeripheral, key: seq<byte>, nonce: seq<byte>, message: array<byte>,
                   aad: seq<seq<byte>>, aad': seq<seq<byte>>)
      returns (ok: bool)
    requires ValidNonce(nonce) && message.Length < USIZE_LIMIT && Concat(aad') == Concat(aad)
    modifies aes, message
    ensures ok && message[..] == old(message[..])
  {
    hide Tag, CtrXor, Concat;
    ghost var input := message[..];
    var tag := EncryptInPlace(aes, key, nonce, message, aad);
    DecryptExact(aes.cipher, key, nonce, Concat(aad), input, message[..], tag, TAG_LEN);
    ok := DecryptInPlace(aes, key, nonce, message, tag, aad');
  }
}
