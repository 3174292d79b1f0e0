/**
 * HKDF over any HMAC: RFC 5869 as the specification, extraction and the in-place expansion loop. The
 * source's implementation is one for all providers; so is this one.
 */
module Hkdf {
  import opened ModArith
  import opened Bytes
  import opened StreamingHash
  import opened Hmac

  datatype Outcome = Ok | OutputTooLong

  /** A keyed message authentication code: key and text to output. */
  type Mac = (seq<byte>, seq<byte>) -> seq<byte>

  /** The output always has the announced length, which may even be zero. */
  ghost predicate HasLength(mac: Mac, hashLen: nat) {
    forall key: seq<byte>, text: seq<byte> :: |mac(key, text)| == hashLen
  }

  // ---------------------------------------------------------------- RFC 5869

  /** Section 2.2: the pseudorandom key; a missing salt is HashLen zero bytes. */
  function Prk(mac: Mac, hashLen: nat, salt: Option<seq<byte>>, ikm: seq<byte>): (prk: seq<byte>)
    requires HasLength(mac, hashLen)
    ensures |prk| == hashLen
  {
    mac(if salt.Some? then salt.value else Zeros(hashLen), ikm)
  }

  /** Section 2.3: T(0) is empty, T(i) = HMAC(PRK, T(i-1) | info | i). */
  function T(mac: Mac, prk: seq<byte>, info: seq<byte>, i: nat): (t: seq<byte>)
    requires i <= 255
  {
    if i == 0 then [] else mac(prk, T(mac, prk, info, i - 1) + info + [ByteOf(i)])
  }

  /** T(1) | T(2) | ... | T(n). */
  function Blocks(mac: Mac, prk: seq<byte>, info: seq<byte>, n: nat): (s: seq<byte>)
    requires n <= 255
  {
    if n == 0 then [] else Blocks(mac, prk, info, n - 1) + T(mac, prk, info, n)
  }

  /** N = ceil(L / HashLen). */
  function BlockCount(hashLen: nat, length: nat): nat
    requires length <= 255 * hashLen
  {
    if length == 0 then 0 else (length + hashLen - 1) / hashLen
  }

  /** Section 2.3: the first L bytes of the block sequence; None when L is above 255 * HashLen. */
  function Okm(mac: Mac, hashLen: nat, prk: seq<byte>, info: seq<byte>, length: nat): (okm: Option<seq<byte>>)
    requires HasLength(mac, hashLen)
    ensures okm.None? <==> length > 255 * hashLen
    ensures okm.Some? ==> |okm.value| == length
  {
    if length > 255 * hashLen then None
    else
      var n := BlockCount(hashLen, length);
      BlockCountBound(hashLen, length);
      BlocksLength(mac, hashLen, prk, info, n);
      Some(Blocks(mac, prk, info, n)[..length])
  }

  lemma BlockCountBound(hashLen: nat, length: nat)
    requires length <= 255 * hashLen
    ensures BlockCount(hashLen, length) <= 255 && length <= hashLen * BlockCount(hashLen, length)
  {
    if length > 0 {
      CeilingBounds(length, hashLen);
      FactorLess(hashLen, BlockCount(hashLen, length) - 1, 255);
    }
  }

  lemma {:induction false} BlocksLength(mac: Mac, hashLen: nat, prk: seq<byte>, info: seq<byte>, n: nat)
    requires n <= 255 && HasLength(mac, hashLen)
    ensures |Blocks(mac, prk, info, n)| == hashLen * n
  {
    if n > 0 {
      BlocksLength(mac, hashLen, prk, info, n - 1);
      assert hashLen * n == hashLen * (n - 1) + hashLen;
    }
  }

  lemma {:induction false} BlocksPrefix(mac: Mac, prk: seq<byte>, info: seq<byte>, m: nat, n: nat)
    requires m <= n <= 255
    ensures Blocks(mac, prk, info, m) <= Blocks(mac, prk, info, n)
  {
    hide T;
    if m < n {
      BlocksPrefix(mac, prk, info, m, n - 1);
    }
  }

  lemma CountMonotone(hashLen: nat, short: nat, long: nat)
    requires short <= long <= 255 * hashLen
    ensures BlockCount(hashLen, short) <= BlockCount(hashLen, long)
  {
    if short > 0 {
      CeilingBounds(short, hashLen);
      CeilingBounds(long, hashLen);
      FactorLess(hashLen, BlockCount(hashLen, short) - 1, BlockCount(hashLen, long));
    } else {
      BlockCountBound(hashLen, long);
    }
  }

  /** A shorter request yields a prefix of a longer one. */
  lemma OkmPrefix(mac: Mac, hashLen: nat, prk: seq<byte>, info: seq<byte>, short: nat, long: nat)
    requires HasLength(mac, hashLen) && short <= long <= 255 * hashLen
    ensures Okm(mac, hashLen, prk, info, short).value == Okm(mac, hashLen, prk, info, long).value[..short]
  {
    hide Blocks, BlockCount;
    var m, n := BlockCount(hashLen, short), BlockCount(hashLen, long);
    BlockCountBound(hashLen, short);
    BlockCountBound(hashLen, long);
    BlocksLength(mac, hashLen, prk, info, m);
    BlocksLength(mac, hashLen, prk, info, n);
    CountMonotone(hashLen, short, long);
    BlocksPrefix(mac, prk, info, m, n);
  }

  lemma TLength(mac: Mac, h: nat, prk: seq<byte>, info: seq<byte>, i: nat)
    requires i <= 255 && HasLength(mac, h)
    ensures |T(mac, prk, info, i)| == if i == 0 then 0 else h
  {
  }

  // ---------------------------------------------------------------- section 2.3 on the output itself

  /** The i-th block of h bytes, cut where the output ends. */
  function BlockOf(okm: seq<byte>, h: nat, i: nat): (b: seq<byte>)
    ensures |b| <= h
  {
    if h * i > |okm| then []
    else
      var rest := okm[h * i..];
      if |rest| < h then rest else rest[..h]
  }

  /**
   * Each block of the output is the MAC of the block before it, the info and the block's number, counted
   * from one; the last block is cut.
   */
  ghost predicate IsExpansion(mac: Mac, h: nat, prk: seq<byte>, info: seq<byte>, okm: seq<byte>)
    requires HasLength(mac, h)
  {
    && |okm| <= 255 * h
    && forall i: nat :: i < 255 && h * i < |okm| ==> BlockFollows(mac, h, prk, info, okm, i)
  }

  ghost predicate BlockFollows(mac: Mac, h: nat, prk: seq<byte>, info: seq<byte>, okm: seq<byte>, i: nat)
    requires HasLength(mac, h) && i < 255
  {
    var previous := if i == 0 then [] else BlockOf(okm, h, i - 1);
    BlockOf(okm, h, i) == mac(prk, previous + info + [(i + 1) as byte])[..|BlockOf(okm, h, i)|]
  }

  lemma BlockOfOkm(mac: Mac, h: nat, prk: seq<byte>, info: seq<byte>, length: nat, i: nat)
    requires HasLength(mac, h) && length <= 255 * h && i < 255 && h * i < length
    ensures |T(mac, prk, info, i + 1)| == h
    ensures var b := BlockOf(Okm(mac, h, prk, info, length).value, h, i);
      && |b| == (if length - h * i < h then length - h * i else h)
      && b == T(mac, prk, info, i + 1)[..|b|]
  {
    hide T, BlockCount;
    var n := BlockCount(h, length);
    BlockCountBound(h, length);
    FactorLess(h, i, n);
    BlocksPrefix(mac, prk, info, i + 1, n);
    BlocksLength(mac, h, prk, info, i);
    BlocksLength(mac, h, prk, info, n);
    TLength(mac, h, prk, info, i + 1);
    var blocks, okm := Blocks(mac, prk, info, n), Okm(mac, h, prk, info, length).value;
    assert okm == blocks[..length];
    CutBlock(blocks, Blocks(mac, prk, info, i), T(mac, prk, info, i + 1), length, h);
  }

  lemma CutBlock(blocks: seq<byte>, before: seq<byte>, t: seq<byte>, length: nat, h: nat)
    requires |t| == h && before + t <= blocks && |before| < length <= |blocks|
    ensures var rest := blocks[..length][|before|..];
      var cut := if |rest| < h then rest else rest[..h];
      cut == t[..|cut|]
  {
    var rest := blocks[..length][|before|..];
    forall j | 0 <= j < |rest| && j < h
      ensures rest[j] == t[j]
    {
      assert blocks[|before| + j] == (before + t)[|before| + j];
    }
  }

  lemma TStep(mac: Mac, prk: seq<byte>, info: seq<byte>, i: nat)
    requires i < 255
    ensures T(mac, prk, info, i + 1)
      == mac(prk, (if i == 0 then [] else T(mac, prk, info, i)) + info + [(i + 1) as byte])
  {
  }

  lemma OkmBlockFollows(mac: Mac, h: nat, prk: seq<byte>, info: seq<byte>, length: nat, i: nat)
    requires HasLength(mac, h) && length <= 255 * h && i < 255 && h * i < length
    ensures BlockFollows(mac, h, prk, info, Okm(mac, h, prk, info, length).value, i)
  {
    hide Okm, BlockOf, T, HasLength;
    BlockOfOkm(mac, h, prk, info, length, i);
    TStep(mac, prk, info, i);
    if i > 0 {
      assert h * i == h * (i - 1) + h;
      BlockOfOkm(mac, h, prk, info, length, i - 1);
      assert T(mac, prk, info, i)[..h] == T(mac, prk, info, i);
    }
  }

  /** The output is an expansion in this sense, and the only one of its length. */
  lemma OkmIsExpansion(mac: Mac, h: nat, prk: seq<byte>, info: seq<byte>, length: nat)
    requires HasLength(mac, h) && length <= 255 * h
    ensures IsExpansion(mac, h, prk, info, Okm(mac, h, prk, info, length).value)
  {
    hide Okm, BlockFollows, HasLength;
    var okm := Okm(mac, h, prk, info, length).value;
    forall i: nat | i < 255 && h * i < |okm|
      ensures BlockFollows(mac, h, prk, info, okm, i)
    {
      OkmBlockFollows(mac, h, prk, info, length, i);
    }
  }

  lemma ExpansionUnique(mac: Mac, h: nat, prk: seq<byte>, info: seq<byte>, a: seq<byte>, b: seq<byte>)
    requires HasLength(mac, h) && |a| == |b| && IsExpansion(mac, h, prk, info, a) && IsExpansion(mac, h, prk, info, b)
    ensures a == b
  {
    forall j | 0 <= j < |a|
      ensures a[j] == b[j]
    {
      var i := j / h;
      assert j == i * h + j % h && i * h == h * i;
      FactorLess(h, i, 255);
      SameBlock(mac, h, prk, info, a, b, i);
      assert BlockOf(a, h, i)[j % h] == a[j] && BlockOf(b, h, i)[j % h] == b[j];
    }
  }

  lemma {:induction false} SameBlock(mac: Mac, h: nat, prk: seq<byte>, info: seq<byte>, a: seq<byte>, b: seq<byte>,
                                     i: nat)
    requires HasLength(mac, h) && |a| == |b| && IsExpansion(mac, h, prk, info, a) && IsExpansion(mac, h, prk, info, b)
    requires i < 255 && h * i < |a|
    ensures BlockOf(a, h, i) == BlockOf(b, h, i)
  {
    hide BlockOf, IsExpansion, HasLength;
    if i > 0 {
      assert h * i == h * (i - 1) + h;
      SameBlock(mac, h, prk, info, a, b, i - 1);
    }
    SameLength(a, b, h, i);
    FollowsAt(mac, h, prk, info, a, i);
    FollowsAt(mac, h, prk, info, b, i);
  }

  lemma SameLength(a: seq<byte>, b: seq<byte>, h: nat, i: nat)
    requires |a| == |b|
    ensures |BlockOf(a, h, i)| == |BlockOf(b, h, i)|
  {
  }

  lemma FollowsAt(mac: Mac, h: nat, prk: seq<byte>, info: seq<byte>, okm: seq<byte>, i: nat)
    requires HasLength(mac, h) && IsExpansion(mac, h, prk, info, okm) && i < 255 && h * i < |okm|
    ensures BlockFollows(mac, h, prk, info, okm, i)
  {
    hide BlockFollows, HasLength;
  }

  /** For HMAC-SHA256, no salt is the same as an all-zero salt of any length up to one block. */
  lemma MissingSalt(ikm: seq<byte>, n: nat)
    requires n <= 64
    ensures Prk(HmacSha256, 32, None, ikm) == Prk(HmacSha256, 32, Some(Zeros(n)), ikm)
  {
    assert KeyBlock(Zeros(n)) == Zeros(64) == KeyBlock(Zeros(32));
  }

  // ---------------------------------------------------------------- providers

  /**
   * What performs the HMAC: the software of the repository, or anything else that meets the trait, with
   * whatever output length it announces.
   */
  datatype Provider = Software(config: Config) | Other(mac: Mac, hashLen: nat) {
    function Hmac(): Mac {
      if Software? then HmacSha256 else mac
    }

    function HashLen(): nat {
      if Software? then 32 else hashLen
    }

    /** This key can be loaded and this much text authenticated under it. */
    ghost predicate Fits(key: seq<byte>, textLen: nat) {
      if Software? then KeyFits(config, key) && config.Fits(64 + textLen) else HasLength(mac, hashLen)
    }
  }

  method HkdfExtract(provider: Provider, salt: Option<seq<byte>>, ikm: seq<byte>) returns (prk: seq<byte>)
    requires provider.Fits(if salt.Some? then salt.value else [], |ikm|)
    ensures HasLength(provider.Hmac(), provider.HashLen())
    ensures prk == Prk(provider.Hmac(), provider.HashLen(), salt, ikm)
    ensures salt.Some? ==> prk == provider.Hmac()(salt.value, ikm)
    ensures salt.None? ==> prk == provider.Hmac()(Zeros(provider.HashLen()), ikm)
  {
    var zeroSalt := Zeros(provider.HashLen());
    var saltBytes := if salt.Some? then salt.value else zeroSalt;
    match provider
    case Software(config) =>
      var result := HmacWithKeydata(config, saltBytes, ikm);
      prk := result[..];
    case Other(mac, _) =>
      prk := mac(saltBytes, ikm);
  }

  /** One expansion step: T(i) from T(i-1). */
  method ExpandBlock(provider: Provider, prk: seq<byte>, info: seq<byte>, previous: seq<byte>, counter: nat)
      returns (t: seq<byte>)
    requires provider.Fits(prk, provider.HashLen() + |info| + 1) && |previous| <= provider.HashLen()
    requires 1 <= counter <= 255 && previous == T(provider.Hmac(), prk, info, counter - 1)
    ensures t == T(provider.Hmac(), prk, info, counter)
    ensures t == provider.Hmac()(prk, previous + info + [counter as byte])
  {
    hide HmacSha256;
    match provider
    case Software(config) =>
      t := SoftwareBlock(config, prk, info, previous, ByteOf(counter % 256));
    case Other(mac, _) =>
      t := mac(prk, previous + info + [ByteOf(counter % 256)]);
  }

  /** The HMAC operation of one step. */
  method SoftwareBlock(config: Config, prk: seq<byte>, info: seq<byte>, previous: seq<byte>, counter: byte)
      returns (t: seq<byte>)
    requires KeyFits(config, prk) && config.Fits(64 + 32 + |info| + 1) && |previous| <= 32
    ensures t == HmacSha256(prk, previous + info + [counter])
  {
    hide HmacSha256, KeyBlock, XorByte, HashState.Valid;
    var loaded := new HmacKey.LoadFromKeydata(config, prk);
    var state := new HmacState.Init(loaded);
    if |previous| > 0 {
      state.Update(previous);
    }
    assert state.message == previous;
    state.Update(info);
    state.Update([counter]);
    var result := state.Finalize();
    t := result[..];
  }

  /** How far the expansion loop is after i blocks of h bytes: it has filled min(h * i, length) bytes. */
  ghost predicate Progress(h: nat, length: nat, pos: nat, i: nat) {
    && i <= 255 && pos == (if h * i <= length then h * i else length)
    && (i > 0 ==> h * (i - 1) < length)
  }

  /** The counter of the next block, computed from the position as the source does. */
  lemma CounterIs(h: nat, length: nat, pos: nat, i: nat)
    requires length <= 255 * h && Progress(h, length, pos, i) && pos < length
    ensures h > 0 && pos == h * i && pos / h == i && i < 255
  {
    FactorLess(h, i, 255);
    DivModUnique(pos, i, 0, h);
  }

  lemma ProgressStep(h: nat, length: nat, pos: nat, i: nat, take: nat)
    requires length <= 255 * h && Progress(h, length, pos, i) && pos < length
    requires take == if length - pos < h then length - pos else h
    ensures Progress(h, length, pos + take, i + 1)
  {
    CounterIs(h, length, pos, i);
    assert h * (i + 1) == h * i + h;
  }

  lemma ProgressEnd(h: nat, length: nat, i: nat)
    requires length <= 255 * h && Progress(h, length, length, i)
    ensures i == BlockCount(h, length)
  {
    if i == 0 {
      assert h * i == 0;
    } else {
      CeilingUnique(length, h, i);
    }
  }

  lemma ExpandStart(mac: Mac, prk: seq<byte>, info: seq<byte>)
    ensures T(mac, prk, info, 0) == [] && Blocks(mac, prk, info, 0) == []
  {
  }

  /** One more block: what has been filled stays a prefix of the block sequence. */
  lemma ExpandStep(mac: Mac, h: nat, prk: seq<byte>, info: seq<byte>, i: nat, filled: seq<byte>, take: nat)
    requires i < 255 && HasLength(mac, h) && take <= h
    requires filled <= Blocks(mac, prk, info, i) && |filled| == h * i
    ensures |T(mac, prk, info, i)| <= h == |T(mac, prk, info, i + 1)|
    ensures filled + T(mac, prk, info, i + 1)[..take] <= Blocks(mac, prk, info, i + 1)
  {
    hide T;
    BlocksLength(mac, h, prk, info, i);
    TLength(mac, h, prk, info, i);
    TLength(mac, h, prk, info, i + 1);
  }

  /** One iteration of the expansion loop: computes the next block and copies what is still wanted of it. */
  method FillBlock(provider: Provider, prk: seq<byte>, info: seq<byte>, t: array<byte>, tLen: nat,
                   okm: array<byte>, pos: nat, ghost i: nat)
      returns (take: nat)
    requires provider.Fits(prk, provider.HashLen() + |info| + 1) && HasLength(provider.Hmac(), provider.HashLen())
    requires t != okm && tLen <= t.Length == provider.HashLen()
    requires pos < okm.Length <= 255 * t.Length && Progress(t.Length, okm.Length, pos, i)
    requires i <= 255 && t[..tLen] == T(provider.Hmac(), prk, info, i)
    requires okm[..pos] <= Blocks(provider.Hmac(), prk, info, i)
    modifies t, okm
    ensures 0 < take <= okm.Length - pos && Progress(t.Length, okm.Length, pos + take, i + 1)
    ensures i < 255 && t[..] == T(provider.Hmac(), prk, info, i + 1)
    ensures okm[..pos + take] <= Blocks(provider.Hmac(), prk, info, i + 1)
  {
    hide T, Blocks, Progress, HasLength;
    var hashLen := t.Length;
    CounterIs(hashLen, okm.Length, pos, i);
    take := if okm.Length - pos < hashLen then okm.Length - pos else hashLen;
    ProgressStep(hashLen, okm.Length, pos, i, take);
    ghost var before := okm[..pos];
    ExpandStep(provider.Hmac(), hashLen, prk, info, i, before, take);
    var counter := pos / hashLen + 1;
    var result := ExpandBlock(provider, prk, info, t[..tLen], counter);
    CopyBlock(t, okm, pos, result, take);
  }

  /** Keeps the block, and copies the part that is wanted of it to the output. */
  method CopyBlock(t: array<byte>, okm: array<byte>, pos: nat, result: seq<byte>, take: nat)
    requires t != okm && |result| == t.Length && take <= t.Length && pos + take <= okm.Length
    modifies t, okm
    ensures t[..] == result && okm[..pos + take] == old(okm[..pos]) + result[..take]
  {
    ghost var before := okm[..pos];
    CopyInto(t, 0, result);
    assert t[..] == result;
    CopyInto(okm, pos, t[..take]);
    assert okm[..pos + take] == before + result[..take];
  }

  /** Fills okm; a request above 255 * HashLen bytes fails and leaves it untouched. */
  method HkdfExpand(provider: Provider, prk: seq<byte>, info: seq<byte>, okm: array<byte>) returns (outcome: Outcome)
    requires provider.Fits(prk, provider.HashLen() + |info| + 1)
    modifies okm
    ensures HasLength(provider.Hmac(), provider.HashLen())
    ensures outcome == OutputTooLong <==> okm.Length > 255 * provider.HashLen()
    ensures outcome == OutputTooLong ==> okm[..] == old(okm[..])
    ensures outcome == Ok ==>
      Okm(provider.Hmac(), provider.HashLen(), prk, info, okm.Length) == Some(okm[..])
    ensures outcome == Ok ==> IsExpansion(provider.Hmac(), provider.HashLen(), prk, info, okm[..])
  {
    hide T, Blocks, Okm, BlockCount, Progress, HasLength, Provider.Fits, IsExpansion;
    FixedLength(provider, prk, provider.HashLen() + |info| + 1);
    var hashLen := provider.HashLen();
    ghost var mac := provider.Hmac();
    if okm.Length > 255 * hashLen {
      return OutputTooLong;
    }
    var t := new byte[hashLen](_ => 0);
    var tLen, pos := 0, 0;
    ghost var i: nat := 0;
    ExpandStart(mac, prk, info);
    ProgressStart(hashLen, okm.Length);
    while pos < okm.Length
      invariant 0 <= pos <= okm.Length && i <= 255 && Progress(hashLen, okm.Length, pos, i)
      invariant tLen <= hashLen && t[..tLen] == T(mac, prk, info, i)
      invariant okm[..pos] <= Blocks(mac, prk, info, i)
    {
      var take := FillBlock(provider, prk, info, t, tLen, okm, pos, i);
      tLen := hashLen;
      assert t[..tLen] == t[..];
      pos := pos + take;
      i := i + 1;
    }
    ProgressEnd(hashLen, okm.Length, i);
    assert okm[..pos] == okm[..];
    OkmIs(mac, hashLen, prk, info, okm.Length, i, okm[..]);
    OkmIsExpansion(mac, hashLen, prk, info, okm.Length);
    return Ok;
  }

  lemma ProgressStart(h: nat, length: nat)
    ensures Progress(h, length, 0, 0)
  {
  }

  lemma FixedLength(provider: Provider, key: seq<byte>, textLen: nat)
    requires provider.Fits(key, textLen)
    ensures HasLength(provider.Hmac(), provider.HashLen())
  {
  }

  lemma OkmIs(mac: Mac, h: nat, prk: seq<byte>, info: seq<byte>, length: nat, n: nat, okm: seq<byte>)
    requires HasLength(mac, h) && length <= 255 * h && n == BlockCount(h, length) <= 255
    requires |okm| == length && okm <= Blocks(mac, prk, info, n)
    ensures Okm(mac, h, prk, info, length) == Some(okm)
  {
    hide Blocks, BlockCount;
    BlocksLength(mac, h, prk, info, n);
    assert Blocks(mac, prk, info, n)[..length] == okm;
  }

  /** Extract, then expand. */
  method ExtractAndExpand(provider: Provider, salt: Option<seq<byte>>, ikm: seq<byte>, info: seq<byte>,
                          okm: array<byte>)
      returns (outcome: Outcome)
    requires provider.Fits(if salt.Some? then salt.value else [], |ikm|)
    requires provider.Fits([], provider.HashLen() + |info| + 1)
    modifies okm
    ensures HasLength(provider.Hmac(), provider.HashLen())
    ensures outcome == OutputTooLong <==> okm.Length > 255 * provider.HashLen()
    ensures outcome == OutputTooLong ==> okm[..] == old(okm[..])
    ensures outcome == Ok ==>
      var prk := Prk(provider.Hmac(), provider.HashLen(), salt, ikm);
      && Okm(provider.Hmac(), provider.HashLen(), prk, info, okm.Length) == Some(okm[..])
      && prk == provider.Hmac()(if salt.Some? then salt.value else Zeros(provider.HashLen()), ikm)
      && IsExpansion(provider.Hmac(), provider.HashLen(), prk, info, okm[..])
  {
    hide Okm, IsExpansion;
    var prk := HkdfExtract(provider, salt, ikm);
    outcome := HkdfExpand(provider, prk, info, okm);
  }
}
