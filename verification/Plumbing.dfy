/**
 * The `Sha2Short` plumbing layer: the chunk protocol between the buffering hash and whatever does the
 * compression, and the back ends behind it.
 *
 * Two back ends are the repository's own code: the software compression and the nRF54L15 driver. A
 * `Device` stands for any other peripheral that meets the trait's contract, with any first chunk size
 * and padding convention; the STM32WBA55 is the device with a first chunk of 68 bytes that pads by
 * itself. What a peripheral does with the bytes it is sent is an assumption about the environment.
 */
module Plumbing {
  import opened ModArith
  import opened Bytes
  import opened Sha256Spec
  import SoftwareSha256

  const MAX_BLOCKSIZE: nat := 68

  datatype Backend = Software | Nrf54l15 | Device(firstChunk: nat, sendPadding: bool, multichunk: bool)

  /** Announces UPDATE_MULTICHUNK, but its update asserts the size of one chunk. */
  const STM32WBA55 := Device(68, false, false)

  /** FIRST_CHUNK_SIZE: the size of the first chunk, 0 when it needs no special treatment. */
  function FirstChunk(b: Backend): nat {
    match b
    case Software => 64
    case Nrf54l15 => 64
    case Device(first, _, _) => first
  }

  /** SEND_PADDING: whether the caller sends the padding. */
  predicate SendsPadding(b: Backend) {
    match b
    case Software => true
    case Nrf54l15 => true
    case Device(_, sends, _) => sends
  }

  /** UPDATE_MULTICHUNK: whether an update takes several chunks at once. */
  predicate Multichunk(b: Backend) {
    match b
    case Software => false
    case Nrf54l15 => true
    case Device(_, _, multi) => multi
  }

  /** The configurations for which the buffering hash works; see PaddedStreamChunks. */
  predicate Legal(b: Backend) {
    FirstChunk(b) <= MAX_BLOCKSIZE && (SendsPadding(b) ==> FirstChunk(b) % 64 == 0)
  }

  /** The size the next chunk has to have after sent bytes. */
  function ChunkSize(b: Backend, sent: nat): nat {
    if sent < FirstChunk(b) then FirstChunk(b) else 64
  }

  /** n bytes are the chunk that is due after sent bytes, or that and more chunks where this is allowed. */
  predicate WholeChunks(b: Backend, sent: nat, n: nat) {
    var size := ChunkSize(b, sent);
    n == size || (Multichunk(b) && n > size && (n - size) % 64 == 0)
  }

  /** Only the software back end accepts a target longer than the digest. */
  predicate TargetFits(b: Backend, length: nat) {
    if b.Software? then length >= 32 else length == 32
  }

  /** How many of n written bytes have not yet filled a chunk. */
  function Pending(first: nat, n: nat): (p: nat)
    ensures p <= n && p < (if n < first then first else 64)
  {
    if n < first then n else (n - first) % 64
  }

  /** Filling the buffer either leaves it partly full or completes the chunk that is due. */
  lemma PendingAfterFill(b: Backend, written: nat, fill: nat)
    requires var p := Pending(FirstChunk(b), written);
      p + fill <= if written < FirstChunk(b) then FirstChunk(b) else 64
    ensures var p := Pending(FirstChunk(b), written);
      var size := if written < FirstChunk(b) then FirstChunk(b) else 64;
      && ChunkSize(b, written - p) == size
      && Pending(FirstChunk(b), written + fill) == if p + fill < size then p + fill else 0
  {
  }

  /**
   * With a caller-supplied padding, nothing may be left over after the last chunk. Whatever the message
   * length, that is the case exactly when the first chunk is a multiple of the block size.
   */
  lemma PaddedStreamChunks(first: nat, n: nat)
    requires first <= MAX_BLOCKSIZE
    ensures Pending(first, n + |Padding(n)|) == 0 <==> first % 64 == 0
  {
    hide Padding;
    PendingOfBlocks(first, n + |Padding(n)|);
  }

  lemma PendingOfBlocks(first: nat, total: nat)
    requires first <= MAX_BLOCKSIZE && total >= 64 && total % 64 == 0
    ensures Pending(first, total) == 0 <==> first % 64 == 0
  {
    var k := total / 64;
    if first > 64 {
      if total > 64 { DivModUnique(total - first, k - 2, 128 - first, 64); }
      DivModUnique(first, 1, first - 64, 64);
    } else if first == 64 || first == 0 {
      DivModUnique(total - first, if first == 64 then k - 1 else k, 0, 64);
    } else {
      DivModUnique(total - first, k - 1, 64 - first, 64);
      DivModUnique(first, 0, first, 64);
    }
  }

  /** Per-operation state, as each back end keeps it. */
  datatype State =
    | SoftwareState(h: Chain)
    | NrfState(state: Option<seq<byte>>)
    | DeviceState(absorbed: seq<byte>)

  /** The state of an operation into which the bytes `sent` have been fed. */
  ghost predicate Represents(b: Backend, st: State, sent: seq<byte>) {
    match b
    case Software => st.SoftwareState? && |sent| % 64 == 0 && st.h == Absorb(IV, sent)
    case Nrf54l15 => st.NrfState? && |sent| % 64 == 0
      && st.state == if sent == [] then None else Some(BytesOf(Absorb(IV, sent)))
    case Device(_, _, _) => st.DeviceState? && st.absorbed == sent
  }

  method Init(b: Backend) returns (st: State)
    ensures Represents(b, st, [])
  {
    match b
    case Software => st := SoftwareState(IV);
    case Nrf54l15 => st := NrfState(None);
    case Device(_, _, _) => st := DeviceState([]);
  }

  /** The data must be whole chunks, of the announced sizes. */
  method Update(b: Backend, st: State, data: seq<byte>, ghost sent: seq<byte>) returns (st': State)
    requires Represents(b, st, sent)
    requires WholeChunks(b, |sent|, |data|)
    ensures Represents(b, st', sent + data)
  {
    hide Absorb, Compress, BytesOf, WordsOf;
    match b
    case Software =>
      var instance := new word[8](i requires 0 <= i < 8 => st.h[i]);
      assert instance[..] == st.h;
      SoftwareSha256.Update(instance, data);
      AbsorbConcat(IV, sent, data);
      AbsorbBlock(st.h, data);
      st' := SoftwareState(instance[..]);
    case Nrf54l15 =>
      var newState := CryptomasterHash(st.state, data);
      ResumeFromBytes(sent, data);
      st' := NrfState(Some(newState));
    case Device(_, _, _) =>
      st' := DeviceState(st.absorbed + data);
  }

  lemma AbsorbBlock(h: Chain, block: Block)
    ensures Absorb(h, block) == Compress(h, block)
  {
    hide Compress;
    assert block[..64] == block && block[64..] == [];
  }

  lemma ResumeFromBytes(sent: seq<byte>, data: seq<byte>)
    requires |sent| % 64 == 0 && |data| % 64 == 0
    ensures var saved := if sent == [] then None else Some(BytesOf(Absorb(IV, sent)));
      CryptomasterHash(saved, data) == BytesOf(Absorb(IV, sent + data))
  {
    hide Compress;
    AbsorbConcat(IV, sent, data);
    WordsOfBytesOf(Absorb(IV, sent));
  }

  /**
   * One run of the nRF54L15 hash engine over whole blocks, continuing from a saved chaining value or,
   * without one, from the engine's built-in initial value.
   */
  function CryptomasterHash(state: Option<seq<byte>>, data: seq<byte>): seq<byte>
    requires |data| % 64 == 0
    requires state.Some? ==> |state.value| == 32
  {
    BytesOf(Absorb(if state.Some? then WordsOf(state.value) else IV, data))
  }

  /** The digest the plumbing delivers: of what was sent, padded by whoever is responsible for it. */
  ghost function Digest(b: Backend, sent: seq<byte>, last: seq<byte>): seq<byte>
    requires SendsPadding(b) ==> |sent| % 64 == 0
  {
    if SendsPadding(b) then BytesOf(Absorb(IV, sent)) else Sha256(sent + last)
  }

  /**
   * A self-padding back end takes up to one full chunk at the end. A back end that is sent the padding
   * takes nothing, and must have been sent at least one chunk: the nRF54L15 has no state before.
   */
  method Finalize(b: Backend, st: State, last: seq<byte>, target: array<byte>, ghost sent: seq<byte>)
    requires Represents(b, st, sent) && TargetFits(b, target.Length)
    requires if SendsPadding(b) then last == [] && sent != [] && |sent| % 64 == 0
      else |last| <= ChunkSize(b, |sent|)
    modifies target
    ensures target[..] == Digest(b, sent, last) + old(target[32..])
  {
    match b
    case Software =>
      var instance := new word[8](i requires 0 <= i < 8 => st.h[i]);
      assert instance[..] == st.h;
      SoftwareSha256.Finalize(instance, target);
    case Nrf54l15 =>
      var digest := st.state.value;
      forall i | 0 <= i < 32 { target[i] := digest[i]; }
    case Device(_, sends, _) =>
      var digest := if sends then BytesOf(Absorb(IV, st.absorbed)) else Sha256(st.absorbed + last);
      forall i | 0 <= i < 32 { target[i] := digest[i]; }
  }
}
