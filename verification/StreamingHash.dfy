/**
 * Streaming SHA-256: a buffer that cuts the input into the chunks the plumbing asks for.
 */
module StreamingHash {
  import opened Bytes
  import opened Sha256Spec
  import opened Plumbing
  import opened Sha2Padding

  /** A back end and the largest value of `usize` on the platform it runs on. */
  datatype Config = Config(backend: Backend, usizeMax: nat) {
    /** The length of a message of n bytes can be counted, with the padding where the hash sends it. */
    predicate Fits(n: nat) {
      n + (if SendsPadding(backend) then 72 else 0) <= usizeMax
    }
  }

  class HashState {
    const config: Config
    const buffer: array<byte>
    var written: nat
    var instance: State
    /** Everything hashed so far. */
    ghost var message: seq<byte>

    /** Bytes waiting in the buffer. */
    function InBuffer(): nat
      reads this
    {
      Pending(FirstChunk(config.backend), written)
    }

    /** Bytes already handed to the plumbing. */
    ghost function Sent(): seq<byte>
      requires written == |message|
      reads this
    {
      message[..written - InBuffer()]
    }

    ghost predicate Valid()
      reads this, buffer
    {
      && Legal(config.backend) && buffer.Length == MAX_BLOCKSIZE
      && written == |message|
      && Represents(config.backend, instance, Sent())
      && buffer[..InBuffer()] == message[written - InBuffer()..]
    }

    constructor Init(config: Config)
      requires Legal(config.backend)
      ensures Valid() && message == [] && this.config == config && fresh(buffer)
    {
      this.config := config;
      written := 0;
      buffer := new byte[MAX_BLOCKSIZE](_ => 0);
      instance := DeviceState([]);
      message := [];
      new;
      instance := Plumbing.Init(config.backend);
    }

    /** An independent copy. */
    constructor Clone(other: HashState)
      requires other.Valid()
      ensures Valid() && message == other.message && config == other.config && fresh(buffer)
    {
      config := other.config;
      written := other.written;
      buffer := new byte[MAX_BLOCKSIZE](i requires 0 <= i < MAX_BLOCKSIZE && other.Valid()
                                          reads other, other.buffer => other.buffer[i]);
      instance := other.instance;
      message := other.message;
      new;
      assert buffer[..] == other.buffer[..];
    }

    lemma InBufferIs()
      ensures InBuffer() == var first := FirstChunk(config.backend);
        if written < first then written else (written - first) % 64
    {
    }

    /** One iteration of the buffering loop: fill the buffer and, if that completes a chunk, send it. */
    method FillAndSend(data: seq<byte>, writtenInBuffer: nat) returns (fillBytes: nat, done: bool)
      requires Valid() && writtenInBuffer == InBuffer() && written + |data| <= config.usizeMax
      modifies this, buffer
      ensures Valid() && fillBytes <= |data| && message == old(message) + data[..fillBytes]
      ensures written == old(written) + fillBytes
      ensures if done then fillBytes == |data| else fillBytes > 0 && InBuffer() == 0
    {
      hide Pending, Represents, FirstChunk, SendsPadding, ChunkSize, Absorb;
      var first := FirstChunk(config.backend);
      var bufferMax := if written < first then first else 64;
      fillBytes := if |data| > bufferMax - writtenInBuffer then bufferMax - writtenInBuffer else |data|;
      PendingAfterFill(config.backend, written, fillBytes);
      ghost var sent, pending := Sent(), buffer[..writtenInBuffer];
      assert message == sent + pending;
      Regroup(sent, pending, data[..fillBytes]);
      CopyInto(buffer, writtenInBuffer, data[..fillBytes]);
      assert buffer[..writtenInBuffer + fillBytes] == pending + data[..fillBytes];
      message := message + data[..fillBytes];
      written := written + fillBytes;
      done := writtenInBuffer + fillBytes < bufferMax;
      if done {
        assert Sent() == sent;
      } else {
        instance := Plumbing.Update(config.backend, instance, buffer[..bufferMax], sent);
        assert Sent() == message;
      }
    }

    method Update(data: seq<byte>)
      requires Valid() && written + |data| <= config.usizeMax
      modifies this, buffer
      ensures Valid() && message == old(message) + data
    {
      hide Valid, InBuffer;
      var rest := data;
      var first := FirstChunk(config.backend);
      var writtenInBuffer := if written < first then written else (written - first) % 64;
      InBufferIs();
      while true
        invariant Valid() && writtenInBuffer == InBuffer() && written + |rest| <= config.usizeMax
        invariant |rest| <= |data| && message == old(message) + data[..|data| - |rest|]
        invariant rest == data[|data| - |rest|..]
        decreases |rest|
      {
        ghost var taken := |data| - |rest|;
        var fillBytes, done := FillAndSend(rest, writtenInBuffer);
        assert data[..taken] + rest[..fillBytes] == data[..taken + fillBytes];
        if done {
          assert data[..|data|] == data;
          return;
        }
        rest := rest[fillBytes..];
        writtenInBuffer := 0;
      }
    }

    /** Consumes the operation; the state is not used afterwards. */
    method Finalize() returns (output: array<byte>)
      requires Valid() && config.Fits(written)
      modifies this, buffer
      ensures fresh(output) && output[..] == Sha256(old(message))
    {
      hide Represents, FirstChunk, SendsPadding, Padding, Absorb, Pending;
      ghost var m, total := message, written;
      InBufferIs();
      var first := FirstChunk(config.backend);
      var writtenInBuffer := if written < first then written else (written - first) % 64;
      if SendsPadding(config.backend) {
        var padding := new byte[256](_ => 0);
        var size := Sha256Padding(written, padding);
        Update(padding[..size]);
        PaddedStreamChunks(first, total);
        writtenInBuffer := 0;
        assert Sent() == m + Padding(|m|);
      }
      output := new byte[32](_ => 0);
      assert !SendsPadding(config.backend) ==> Sent() + buffer[..writtenInBuffer] == m;
      LastChunkFits(config.backend, written);
      Plumbing.Finalize(config.backend, instance, buffer[..writtenInBuffer], output, Sent());
    }
  }

  lemma LastChunkFits(b: Backend, written: nat)
    ensures var p := Pending(FirstChunk(b), written); p <= ChunkSize(b, written - p)
  {
  }

  /** Hashing contiguous data in a single pass. */
  method Hash(config: Config, data: seq<byte>) returns (output: array<byte>)
    requires Legal(config.backend) && config.Fits(|data|)
    ensures fresh(output) && output[..] == Sha256(data)
  {
    hide Sha256, Represents;
    var state := new HashState.Init(config);
    assert [] + data == data;
    state.Update(data);
    output := state.Finalize();
  }

  /**
   * The defining property of a streaming hash: for every way of cutting a message into slices, empty
   * ones included, and every legal back end, the digest is that of the whole message.
   */
  method HashSlices(config: Config, slices: seq<seq<byte>>) returns (digest: seq<byte>)
    requires Legal(config.backend) && config.Fits(|Concat(slices)|)
    ensures digest == Sha256(Concat(slices))
  {
    hide Sha256, Represents;
    var state := new HashState.Init(config);
    assert slices[..0] == [];
    for i := 0 to |slices|
      invariant fresh(state) && fresh(state.buffer) && state.Valid() && state.config == config
      invariant state.message == Concat(slices[..i])
    {
      ConcatPrefix(slices, i);
      state.Update(slices[i]);
    }
    assert slices[..|slices|] == slices;
    var output := state.Finalize();
    digest := output[..];
  }

  /**
   * The STM32WBA55 driver's own one-shot hash, used for oversized HMAC keys. It cuts lazily: a full last
   * chunk stays back and is passed to the finalisation, where the buffering hash would have sent it.
   */
  method Sha256Of(data: seq<byte>) returns (output: array<byte>)
    ensures fresh(output) && output[..] == Sha256(data)
  {
    var instance := Plumbing.Init(STM32WBA55);
    var remaining := data;
    var first := true;
    ghost var sent: seq<byte> := [];
    while true
      invariant Represents(STM32WBA55, instance, sent) && sent + remaining == data
      invariant if first then sent == [] else |sent| >= 68
      decreases |remaining|
    {
      var chunkSize := if first then FirstChunk(STM32WBA55) else 64;
      if |remaining| <= chunkSize {
        break;
      }
      instance := Plumbing.Update(STM32WBA55, instance, remaining[..chunkSize], sent);
      sent := sent + remaining[..chunkSize];
      remaining := remaining[chunkSize..];
      first := false;
    }
    output := new byte[32](_ => 0);
    Plumbing.Finalize(STM32WBA55, instance, remaining, output, sent);
  }
}
