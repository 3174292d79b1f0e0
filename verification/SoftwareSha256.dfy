/**
 * The software implementation of the SHA-256 plumbing: the compression function over an in-place
 * schedule array, and the big-endian output of the digest.
 */
module SoftwareSha256 {
  import opened Bytes
  import opened Sha256Spec

  /** The 64-word message schedule, filled in place. */
  method Schedule(data: Block) returns (w: array<word>)
    ensures fresh(w) && w.Length == 64 && forall j :: 0 <= j < 64 ==> w[j] == W(data, j)
  {
    hide W, WrappingAdd, FromBytes, SmallSigma0, SmallSigma1, Sum4;
    w := new word[64](_ => 0);
    for i := 0 to 16
      invariant forall j :: 0 <= j < i ==> w[j] == W(data, j)
    {
      w[i] := FromBytes(data[4 * i], data[4 * i + 1], data[4 * i + 2], data[4 * i + 3]);
      ScheduleStart(data, i);
    }
    for i := 16 to 64
      invariant forall j :: 0 <= j < i ==> w[j] == W(data, j)
    {
      var x, y := w[i - 15], w[i - 2];
      var s0 := x.RotateRight(7) ^ x.RotateRight(18) ^ (x >> 3);
      var s1 := y.RotateRight(17) ^ y.RotateRight(19) ^ (y >> 10);
      SmallSigmas(x, y);
      assert s0 == SmallSigma0(x) && s1 == SmallSigma1(y);
      ScheduleStep(data, i);
      w[i] := WrappingAdd(WrappingAdd(WrappingAdd(w[i - 16], s0), w[i - 7]), s1);
    }
  }

  lemma SmallSigmas(x: word, y: word)
    ensures SmallSigma0(x) == x.RotateRight(7) ^ x.RotateRight(18) ^ (x >> 3)
    ensures SmallSigma1(y) == y.RotateRight(17) ^ y.RotateRight(19) ^ (y >> 10)
  {
  }

  lemma ScheduleStart(data: Block, i: nat)
    requires i < 16
    ensures W(data, i) == FromBytes(data[4 * i], data[4 * i + 1], data[4 * i + 2], data[4 * i + 3])
  {
  }

  /** The recurrence, with its four terms in the order in which the code adds them. */
  lemma ScheduleStep(data: Block, i: nat)
    requires 16 <= i < 64
    ensures W(data, i)
      == WrappingAdd(WrappingAdd(WrappingAdd(W(data, i - 16), SmallSigma0(W(data, i - 15))), W(data, i - 7)),
                     SmallSigma1(W(data, i - 2)))
  {
    hide WrappingAdd, SmallSigma0, SmallSigma1, FromBytes;
    Reorder(SmallSigma1(W(data, i - 2)), W(data, i - 7), SmallSigma0(W(data, i - 15)), W(data, i - 16));
  }

  lemma AddCommutes(x: word, y: word)
    ensures WrappingAdd(x, y) == WrappingAdd(y, x)
  {
  }

  lemma AddIsSum(x: word, y: word)
    ensures WrappingAdd(x, y) == x + y
  {
  }

  lemma AddRegroups(x: word, y: word, z: word)
    ensures WrappingAdd(x + y, z) == WrappingAdd(x, y + z)
  {
  }

  lemma AddAssociates(x: word, y: word, z: word)
    ensures WrappingAdd(WrappingAdd(x, y), z) == WrappingAdd(x, WrappingAdd(y, z))
  {
    hide WrappingAdd;
    AddIsSum(x, y);
    AddIsSum(y, z);
    AddRegroups(x, y, z);
  }

  lemma Reorder(p: word, q: word, r: word, s: word)
    ensures Sum4(p, q, r, s) == Sum4(s, r, q, p)
  {
    hide WrappingAdd;
    AddCommutes(WrappingAdd(WrappingAdd(s, r), q), p);
    AddCommutes(WrappingAdd(s, r), q);
    AddAssociates(p, q, WrappingAdd(s, r));
    AddCommutes(s, r);
    AddAssociates(WrappingAdd(p, q), r, s);
  }

  /** The 64 rounds over the eight working variables. */
  method RunRounds(start: Chain, data: Block, w: seq<word>) returns (v: Chain)
    requires |w| == 64 && forall j :: 0 <= j < 64 ==> w[j] == W(data, j)
    ensures AsWorking(v) == Rounds(start, data, 64)
  {
    hide W, Rounds, WrappingAdd;
    var a, b, c, d := start[0], start[1], start[2], start[3];
    var e, f, g, h := start[4], start[5], start[6], start[7];
    RoundsStart(start, data);
    for i := 0 to 64
      invariant Working(a, b, c, d, e, f, g, h) == Rounds(start, data, i)
    {
      var S1 := e.RotateRight(6) ^ e.RotateRight(11) ^ e.RotateRight(25);
      var ch := (e & f) ^ (!e & g);
      var temp1 := WrappingAdd(WrappingAdd(WrappingAdd(WrappingAdd(h, S1), ch), K[i]), w[i]);
      var S0 := a.RotateRight(2) ^ a.RotateRight(13) ^ a.RotateRight(22);
      var maj := (a & b) ^ (a & c) ^ (b & c);
      var temp2 := WrappingAdd(S0, maj);
      RoundsStep(start, data, i);
      h := g;
      g := f;
      f := e;
      e := WrappingAdd(d, temp1);
      d := c;
      c := b;
      b := a;
      a := WrappingAdd(temp1, temp2);
    }
    v := [a, b, c, d, e, f, g, h];
  }

  function AsWorking(v: Chain): Working {
    Working(v[0], v[1], v[2], v[3], v[4], v[5], v[6], v[7])
  }

  lemma RoundsStart(h: Chain, block: Block)
    ensures Rounds(h, block, 0) == AsWorking(h)
  {
  }

  lemma RoundsStep(h: Chain, block: Block, t: nat)
    requires t < 64
    ensures Rounds(h, block, t + 1) == Round(Rounds(h, block, t), K[t], W(block, t))
  {
  }

  /** One block: the chaining value is updated in place. */
  method Update(instance: array<word>, data: Block)
    requires instance.Length == 8
    modifies instance
    ensures instance[..] == Compress(old(instance[..]), data)
  {
    hide W, Rounds, WrappingAdd, Compress;
    ghost var start: Chain := instance[..];
    var w := Schedule(data);
    var working := RunRounds(instance[..], data, w[..]);
    for i := 0 to 8
      invariant forall j :: 0 <= j < i ==> instance[j] == WrappingAdd(start[j], working[j])
      invariant forall j :: i <= j < 8 ==> instance[j] == start[j]
    {
      instance[i] := WrappingAdd(instance[i], working[i]);
    }
    CompressIs(start, data, working, instance[..]);
  }

  lemma CompressIs(h: Chain, block: Block, v: Chain, r: Chain)
    requires AsWorking(v) == Rounds(h, block, 64)
    requires forall j :: 0 <= j < 8 ==> r[j] == WrappingAdd(h[j], v[j])
    ensures r == Compress(h, block)
  {
  }

  lemma DigestStart(w: seq<word>)
    requires w == []
    ensures BytesOf(w) == []
  {
  }

  /** The digest is written to the front of the target, which may be longer than 32 bytes. */
  method Finalize(instance: array<word>, target: array<byte>)
    requires instance.Length == 8 && target.Length >= 32
    modifies target
    ensures target[..] == BytesOf(instance[..]) + old(target[32..])
  {
    hide BytesOf, ToBytes;
    DigestStart(instance[..0]);
    for i := 0 to 8
      invariant target[..4 * i] == BytesOf(instance[..i])
      invariant forall j :: 4 * i <= j < target.Length ==> target[j] == old(target[j])
    {
      var word := ToBytes(instance[i]);
      BytesOfPrefix(instance[..], i);
      assert instance[..][..i] == instance[..i] && instance[..][..i + 1] == instance[..i + 1];
      ghost var before := target[..4 * i];
      target[4 * i] := word[0];
      target[4 * i + 1] := word[1];
      target[4 * i + 2] := word[2];
      target[4 * i + 3] := word[3];
      assert target[..4 * (i + 1)] == before + word;
    }
    assert instance[..8] == instance[..];
    assert target[..] == target[..32] + target[32..];
  }
}
