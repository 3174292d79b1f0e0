/** HMAC-SHA256 over the streaming hash: RFC 2104 as the specification, and the keyed operations. */
module Hmac {
  import opened Bytes
  import opened Sha256Spec
  import opened Plumbing
  import opened StreamingHash

  const IPAD: byte := 0x36
  const OPAD: byte := 0x5c

  /** The key brought to exactly one block: hashed first when oversized, then filled up with zeros. */
  function KeyBlock(key: seq<byte>): (k: seq<byte>)
    ensures |k| == 64
  {
    var short := if |key| > 64 then Sha256(key) else key;
    short + Zeros(64 - |short|)
  }

  function XorByte(k: seq<byte>, x: byte): (r: seq<byte>)
    ensures |r| == |k| && forall i :: 0 <= i < |k| ==> r[i] == k[i] ^ x
  {
    seq(|k|, i requires 0 <= i < |k| => k[i] ^ x)
  }

  /** RFC 2104 section 2: H(K xor opad, H(K xor ipad, text)). */
  function HmacSha256(key: seq<byte>, text: seq<byte>): (mac: seq<byte>)
    ensures |mac| == 32
  {
    var k := KeyBlock(key);
    Sha256(XorByte(k, OPAD) + Sha256(XorByte(k, IPAD) + text))
  }

  /** Only an oversized key is hashed; the inner hash runs over a block and the text, the outer one over 96 bytes. */
  predicate KeyFits(config: Config, key: seq<byte>) {
    Legal(config.backend) && config.Fits(96) && (|key| > 64 ==> config.Fits(|key|))
  }

  /**
   * RFC 2104 section 2 from its own text: with k0 the key, hashed if it is longer than a block, the inner
   * block is k0 filled up with zeros, exclusive-or 0x36, and the outer block the same with 0x5c.
   */
  lemma HmacIsRfc2104(key: seq<byte>, text: seq<byte>, k0: seq<byte>, inner: seq<byte>, outer: seq<byte>)
    requires k0 == if |key| > 64 then Sha256(key) else key
    requires |inner| == |outer| == 64
    requires forall j :: 0 <= j < 64 ==> inner[j] == (if j < |k0| then k0[j] else 0) ^ 0x36
    requires forall j :: 0 <= j < 64 ==> outer[j] == (if j < |k0| then k0[j] else 0) ^ 0x5c
    ensures HmacSha256(key, text) == Sha256(outer + Sha256(inner + text))
  {
    hide Sha256;
    assert inner == XorByte(KeyBlock(key), IPAD);
    assert outer == XorByte(KeyBlock(key), OPAD);
  }

  method NormaliseKey(config: Config, key: seq<byte>) returns (keyBlock: array<byte>)
    requires KeyFits(config, key)
    ensures fresh(keyBlock) && keyBlock[..] == KeyBlock(key)
  {
    hide Sha256;
    keyBlock := new byte[64](_ => 0);
    if |key| > 64 {
      var hashed := Hash(config, key);
      forall i | 0 <= i < 32 { keyBlock[i] := hashed[i]; }
      assert hashed[..] == Sha256(key);
    } else {
      forall i | 0 <= i < |key| { keyBlock[i] := key[i]; }
    }
  }

  method XorBlock(keyBlock: array<byte>, x: byte) returns (r: array<byte>)
    requires keyBlock.Length == 64
    ensures fresh(r) && r[..] == XorByte(keyBlock[..], x)
  {
    r := new byte[64](_ => 0);
    ghost var k := keyBlock[..];
    for i := 0 to 64
      invariant forall j :: 0 <= j < i ==> r[j] == k[j] ^ x
    {
      r[i] := keyBlock[i] ^ x;
    }
    assert r[..] == XorByte(k, x);
  }

  /** A loaded key: an inner hash that has absorbed the ipad block, and the outer key. */
  class HmacKey {
    const inner: HashState
    const outerKey: array<byte>
    ghost const key: seq<byte>

    ghost predicate Valid()
      reads this, inner, inner.buffer, outerKey
    {
      && inner.Valid() && inner.buffer != outerKey
      && inner.message == XorByte(KeyBlock(key), IPAD)
      && outerKey[..] == XorByte(KeyBlock(key), OPAD)
    }

    constructor LoadFromKeydata(config: Config, key: seq<byte>)
      requires KeyFits(config, key)
      ensures Valid() && this.key == key && inner.config == config
      ensures fresh(inner) && fresh(inner.buffer) && fresh(outerKey)
    {
      hide KeyBlock, XorByte, Represents;
      var keyBlock := NormaliseKey(config, key);
      var outer := XorBlock(keyBlock, OPAD);
      var ipadBlock := XorBlock(keyBlock, IPAD);
      var hash := new HashState.Init(config);
      hash.Update(ipadBlock[..]);
      assert hash.message == XorByte(KeyBlock(key), IPAD);
      this.inner := hash;
      this.outerKey := outer;
      this.key := key;
    }

    /** An independent copy, so that one loaded key can serve several operations. */
    constructor Clone(other: HmacKey)
      requires other.Valid()
      ensures Valid() && key == other.key && inner.config == other.inner.config
      ensures fresh(inner) && fresh(inner.buffer) && fresh(outerKey)
    {
      hide KeyBlock, XorByte, Represents;
      var hash := new HashState.Clone(other.inner);
      var outer := new byte[64](i requires 0 <= i < 64 && other.outerKey.Length == 64
                                  reads other.outerKey => other.outerKey[i]);
      assert outer[..] == other.outerKey[..];
      this.inner := hash;
      this.outerKey := outer;
      this.key := other.key;
    }
  }

  class HmacState {
    const inner: HashState
    const outerKey: array<byte>
    ghost const key: seq<byte>
    /** The text authenticated so far. */
    ghost var message: seq<byte>

    ghost predicate Valid()
      reads this, inner, inner.buffer, outerKey
    {
      && inner.Valid() && inner.buffer != outerKey
      && inner.message == XorByte(KeyBlock(key), IPAD) + message
      && outerKey[..] == XorByte(KeyBlock(key), OPAD)
    }

    /** Starts an operation, consuming the key. */
    constructor Init(key: HmacKey)
      requires key.Valid()
      ensures Valid() && message == [] && this.key == key.key
      ensures inner == key.inner && outerKey == key.outerKey
    {
      hide KeyBlock, XorByte, Represents;
      inner := key.inner;
      outerKey := key.outerKey;
      this.key := key.key;
      message := [];
    }

    method Update(data: seq<byte>)
      requires Valid() && 64 + |message| + |data| <= inner.config.usizeMax
      modifies this, inner, inner.buffer
      ensures Valid() && message == old(message) + data
    {
      hide KeyBlock, XorByte, Represents;
      inner.Update(data);
      message := message + data;
    }

    /** Consumes the operation. */
    method Finalize() returns (mac: array<byte>)
      requires Valid() && inner.config.Fits(96) && inner.config.Fits(64 + |message|)
      modifies this, inner, inner.buffer
      ensures fresh(mac) && mac[..] == HmacSha256(key, old(message))
    {
      hide KeyBlock, XorByte, Represents, Sha256;
      var k := outerKey[..];
      var innerResult := inner.Finalize();
      mac := OuterHash(inner.config, k, innerResult[..]);
    }
  }

  /** The hash of the outer key and the inner result. */
  method OuterHash(config: Config, outerKey: seq<byte>, innerResult: seq<byte>) returns (mac: array<byte>)
    requires Legal(config.backend) && config.Fits(|outerKey| + |innerResult|)
    ensures fresh(mac) && mac[..] == Sha256(outerKey + innerResult)
  {
    hide Sha256, Represents, FirstChunk, SendsPadding, Pending, Legal;
    var outer := new HashState.Init(config);
    outer.Update(outerKey);
    outer.Update(innerResult);
    assert [] + outerKey + innerResult == outerKey + innerResult;
    mac := outer.Finalize();
  }

  /** HMAC over contiguous data in a single pass. */
  method HmacWithKeydata(config: Config, key: seq<byte>, data: seq<byte>) returns (mac: array<byte>)
    requires KeyFits(config, key) && config.Fits(64 + |data|)
    ensures fresh(mac) && mac[..] == HmacSha256(key, data)
  {
    hide HmacSha256, KeyBlock, XorByte, Represents;
    var loaded := new HmacKey.LoadFromKeydata(config, key);
    var state := new HmacState.Init(loaded);
    assert [] + data == data;
    state.Update(data);
    mac := state.Finalize();
  }

  /** For every key length and every way of slicing the text, the result is the HMAC of the whole text. */
  method HmacSlices(config: Config, key: seq<byte>, slices: seq<seq<byte>>) returns (mac: seq<byte>)
    requires KeyFits(config, key) && config.Fits(64 + |Concat(slices)|)
    ensures mac == HmacSha256(key, Concat(slices))
  {
    hide HmacSha256, KeyBlock, XorByte, Represents;
    var loaded := new HmacKey.LoadFromKeydata(config, key);
    var state := new HmacState.Init(loaded);
    assert slices[..0] == [];
    for i := 0 to |slices|
      invariant fresh(state) && fresh(state.inner) && fresh(state.inner.buffer)
      invariant state.Valid() && state.inner.config == config && state.key == key
      invariant state.message == Concat(slices[..i])
    {
      ConcatPrefix(slices, i);
      state.Update(slices[i]);
    }
    assert slices[..|slices|] == slices;
    var result := state.Finalize();
    mac := result[..];
  }

  // ---------------------------------------------------------------- concurrent operations

  /** One step of a run: an operation starts from a clone of the key, is fed, or returns its result. */
  datatype Event = Start | Feed(op: nat, data: seq<byte>) | Finish(op: nat)

  /** How many operations have started; they are numbered in that order. */
  function Starts(events: seq<Event>): nat {
    if events == [] then 0
    else Starts(events[..|events| - 1]) + if events[|events| - 1].Start? then 1 else 0
  }

  /** What has been fed to operation k. */
  function TextOf(events: seq<Event>, k: nat): seq<byte> {
    if events == [] then []
    else
      var last := events[|events| - 1];
      TextOf(events[..|events| - 1], k) + if last.Feed? && last.op == k then last.data else []
  }

  /** What operation k has returned: the HMAC of its text once it has finished, and nothing before. */
  function ResultOf(key: seq<byte>, events: seq<Event>, k: nat): Option<seq<byte>> {
    if Finish(k) in events then Some(HmacSha256(key, TextOf(events, k))) else None
  }

  /** Operation k has started and not finished. */
  predicate IsOpen(events: seq<Event>, k: nat) {
    k < Starts(events) && Finish(k) !in events
  }

  /** Only open operations are fed or finished. */
  ghost predicate WellFormed(events: seq<Event>) {
    forall i :: 0 <= i < |events| && !events[i].Start? ==> IsOpen(events[..i], events[i].op)
  }

  lemma {:induction false} EventStep(events: seq<Event>, i: nat)
    requires i < |events|
    ensures Starts(events[..i + 1]) == Starts(events[..i]) + (if events[i].Start? then 1 else 0) <= Starts(events)
    ensures forall k ::
        TextOf(events[..i + 1], k)
          == if events[i].Feed? && events[i].op == k then TextOf(events[..i], k) + events[i].data
             else TextOf(events[..i], k)
    ensures forall k :: |TextOf(events[..i + 1], k)| <= |TextOf(events, k)|
    decreases |events| - i
  {
    assert events[..i + 1][..i] == events[..i];
    assert forall k :: TextOf(events[..i], k) + [] == TextOf(events[..i], k);
    if i + 1 < |events| {
      EventStep(events, i + 1);
    } else {
      assert events[..i + 1] == events;
    }
  }

  /** The operation an event refers to is open, and what it is fed is within its whole text. */
  lemma OpenStep(events: seq<Event>, i: nat)
    requires WellFormed(events) && i < |events| && !events[i].Start?
    ensures var k := events[i].op;
      && IsOpen(events[..i], k) && k < Starts(events)
      && |TextOf(events[..i], k)| + (if events[i].Feed? then |events[i].data| else 0) <= |TextOf(events, k)|
  {
    hide TextOf, Starts;
    EventStep(events, i);
    var k := events[i].op;
    assert |TextOf(events[..i + 1], k)| <= |TextOf(events, k)|;
  }

  /** A run that feeds slices to one operation feeds it their concatenation, and nothing to the others. */
  lemma {:induction false} TextOfFeeds(slices: seq<seq<byte>>, k: nat, other: nat)
    requires other != k
    ensures var events := [Start] + seq(|slices|, i requires 0 <= i < |slices| => Feed(k, slices[i]));
      TextOf(events, k) == Concat(slices) && TextOf(events, other) == []
  {
    var events := [Start] + seq(|slices|, i requires 0 <= i < |slices| => Feed(k, slices[i]));
    if slices == [] {
      assert events[..0] == [];
    } else {
      var n := |slices| - 1;
      TextOfFeeds(slices[..n], k, other);
      assert events[..n + 1] == [Start] + seq(n, i requires 0 <= i < n => Feed(k, slices[..n][i]));
    }
  }

  /** Operations that have not started have not been fed. */
  lemma {:induction false} UnstartedEmpty(events: seq<Event>, i: nat, k: nat)
    requires WellFormed(events) && i <= |events| && k >= Starts(events[..i])
    ensures TextOf(events[..i], k) == [] && Finish(k) !in events[..i]
  {
    hide TextOf, Starts;
    if i == 0 {
      NoEvents();
      assert events[..0] == [];
    } else {
      EventStep(events, i - 1);
      UnstartedEmpty(events, i - 1, k);
      assert events[..i] == events[..i - 1] + [events[i - 1]];
      assert events[i - 1].Start? || IsOpen(events[..i - 1], events[i - 1].op);
    }
  }

  lemma NoEvents()
    ensures Starts([]) == 0 && forall k :: TextOf([], k) == []
  {
  }

  /** Everything an operation reads or writes. */
  ghost function Footprint(state: HmacState): set<object> {
    {state, state.inner, state.inner.buffer, state.outerKey}
  }

  ghost predicate Apart(states: seq<HmacState>) {
    forall i, j :: 0 <= i < j < |states| ==> Footprint(states[i]) !! Footprint(states[j])
  }

  /** A valid operation under this key that has authenticated this text. */
  ghost predicate Runs(state: HmacState, config: Config, key: seq<byte>, text: seq<byte>)
    reads Footprint(state)
  {
    state.Valid() && state.inner.config == config && state.key == key && state.message == text
  }

  /** Starts one operation from a clone of a loaded key, which stays as it is. */
  method StartClone(loaded: HmacKey) returns (state: HmacState)
    requires loaded.Valid()
    ensures fresh(Footprint(state)) && Runs(state, loaded.inner.config, loaded.key, [])
  {
    hide HmacKey.Valid, HmacState.Valid;
    var copy := new HmacKey.Clone(loaded);
    state := new HmacState.Init(copy);
  }

  method FeedOne(state: HmacState, data: seq<byte>, ghost config: Config, ghost key: seq<byte>, ghost text: seq<byte>)
    requires Runs(state, config, key, text) && 64 + |text| + |data| <= config.usizeMax
    modifies Footprint(state)
    ensures Runs(state, config, key, text + data)
  {
    hide HmacState.Valid;
    state.Update(data);
  }

  method FinishOne(state: HmacState, ghost config: Config, ghost key: seq<byte>, ghost text: seq<byte>)
      returns (mac: seq<byte>)
    requires Runs(state, config, key, text) && config.Fits(96) && config.Fits(64 + |text|)
    modifies Footprint(state)
    ensures mac == HmacSha256(key, text)
  {
    hide HmacState.Valid, HmacSha256;
    var result := state.Finalize();
    mac := result[..];
  }

  /** An event changes the result of the operation that finishes, and of no other. */
  lemma ResultStep(key: seq<byte>, events: seq<Event>, i: nat)
    requires WellFormed(events) && i < |events|
    ensures var e := events[i];
      forall k: nat :: ResultOf(key, events[..i + 1], k)
        == if e.Finish? && e.op == k then Some(HmacSha256(key, TextOf(events[..i], k)))
           else ResultOf(key, events[..i], k)
    ensures ResultOf(key, events[..i], Starts(events[..i])) == None
  {
    hide HmacSha256, TextOf, Starts;
    EventStep(events, i);
    UnstartedEmpty(events, i, Starts(events[..i]));
    if !events[i].Start? { OpenStep(events, i); }
    assert events[..i + 1] == events[..i] + [events[i]];
  }

  /** What the next event does to the bookkeeping. */
  lemma StepFacts(key: seq<byte>, events: seq<Event>, i: nat)
    requires WellFormed(events) && i < |events|
    ensures var e, before, after := events[i], events[..i], events[..i + 1];
      && Starts(after) == Starts(before) + (if e.Start? then 1 else 0) <= Starts(events)
      && TextOf(before, Starts(before)) == [] && (e.Start? ==> ResultOf(key, after, Starts(before)) == None)
      && (e.Start? ==> TextOf(after, Starts(before)) == [])
    ensures var e, before := events[i], events[..i];
      !e.Start? ==>
        && e.op < Starts(before) <= Starts(events) && IsOpen(before, e.op)
        && |TextOf(before, e.op)| + (if e.Feed? then |e.data| else 0) <= |TextOf(events, e.op)|
    ensures var e, before, after := events[i], events[..i], events[..i + 1];
      forall k: nat :: k < Starts(before) && IsOpen(after, k) ==>
        && IsOpen(before, k) && !(e.Finish? && e.op == k)
        && TextOf(after, k) == if e.Feed? && e.op == k then TextOf(before, k) + e.data else TextOf(before, k)
    ensures var e, before, after := events[i], events[..i], events[..i + 1];
      forall k: nat :: k < Starts(before) ==>
        ResultOf(key, after, k)
          == if e.Finish? && e.op == k then Some(HmacSha256(key, TextOf(before, k))) else ResultOf(key, before, k)
  {
    hide HmacSha256, TextOf, Starts, ResultOf;
    EventStep(events, i);
    UnstartedEmpty(events, i, Starts(events[..i]));
    ResultStep(key, events, i);
    if !events[i].Start? { OpenStep(events, i); }
    assert events[..i + 1] == events[..i] + [events[i]];
    assert [] + TextOf(events[..i], Starts(events[..i])) == [];
  }

  /** Carries out one event; only the operation it refers to is touched. */
  method Handle(loaded: HmacKey, states: seq<HmacState>, macs: seq<Option<seq<byte>>>, e: Event,
                ghost config: Config, ghost text: seq<byte>)
      returns (states': seq<HmacState>, macs': seq<Option<seq<byte>>>)
    requires loaded.Valid() && loaded.inner.config == config && |states| == |macs|
    requires !e.Start? ==>
      && e.op < |states| && Runs(states[e.op], config, loaded.key, text) && config.Fits(96)
      && config.Fits(64 + |text| + if e.Feed? then |e.data| else 0)
    modifies if e.Start? then {} else Footprint(states[e.op])
    ensures e.Start? ==>
      && |states'| == |states| + 1 && states'[..|states|] == states && macs' == macs + [None]
      && fresh(Footprint(states'[|states|])) && Runs(states'[|states|], config, loaded.key, [])
    ensures !e.Start? ==> states' == states
    ensures e.Feed? ==> macs' == macs && Runs(states[e.op], config, loaded.key, text + e.data)
    ensures e.Finish? ==> macs' == macs[e.op := Some(HmacSha256(loaded.key, text))]
  {
    hide HmacSha256, HmacKey.Valid, Runs;
    states', macs' := states, macs;
    match e {
      case Start =>
        var state := StartClone(loaded);
        states', macs' := states + [state], macs + [None];
      case Feed(k, data) =>
        FeedOne(states[k], data, config, loaded.key, text);
      case Finish(k) =>
        var mac := FinishOne(states[k], config, loaded.key, text);
        macs' := macs[k := Some(mac)];
    }
  }

  /**
   * One loaded key serves any number of operations. They may start, be fed and finish in any order, and
   * each returns the HMAC of exactly what it was fed.
   */
  method InterleavedRuns(config: Config, key: seq<byte>, events: seq<Event>) returns (macs: seq<Option<seq<byte>>>)
    requires KeyFits(config, key) && WellFormed(events)
    requires forall k :: 0 <= k < Starts(events) ==> config.Fits(64 + |TextOf(events, k)|)
    ensures |macs| == Starts(events)
    ensures forall k :: 0 <= k < |macs| ==> macs[k] == ResultOf(key, events, k)
  {
    hide HmacSha256, HmacKey.Valid, Runs, TextOf, Starts, ResultOf, IsOpen, WellFormed;
    var loaded := new HmacKey.LoadFromKeydata(config, key);
    var states: seq<HmacState> := [];
    macs := [];
    NoEvents();
    assert events[..0] == [];
    for i := 0 to |events|
      invariant loaded.Valid() && loaded.key == key && loaded.inner.config == config
      invariant |states| == |macs| == Starts(events[..i]) && Apart(states)
      invariant forall k :: 0 <= k < |states| ==> fresh(Footprint(states[k]))
      invariant forall k :: 0 <= k < |states| ==>
        Footprint(states[k]) !! {loaded, loaded.inner, loaded.inner.buffer, loaded.outerKey}
      invariant forall k :: 0 <= k < |states| && IsOpen(events[..i], k) ==>
        Runs(states[k], config, key, TextOf(events[..i], k))
      invariant forall k :: 0 <= k < |macs| ==> macs[k] == ResultOf(key, events[..i], k)
    {
      StepFacts(key, events, i);
      ghost var before := events[..i];
      var e := events[i];
      states, macs := Handle(loaded, states, macs, e, config, if e.Start? then [] else TextOf(before, e.op));
    }
    assert events[..|events|] == events;
  }

  /**
   * Keys of at most one block are interchangeable exactly when they differ in trailing zeros only.
   */
  lemma SameKeyBlock(k: seq<byte>, k': seq<byte>)
    requires |k| <= |k'| <= 64
    ensures KeyBlock(k) == KeyBlock(k') <==> k' == k + Zeros(|k'| - |k|)
  {
    var b, b' := KeyBlock(k), KeyBlock(k');
    if b == b' {
      forall i | 0 <= i < |k'|
        ensures k'[i] == (k + Zeros(|k'| - |k|))[i]
      {
        assert b[i] == b'[i];
      }
    }
  }
}
