/** The compressor: from bytes to a stream, stored or with one of the parsers. */
module DeflateCompress {
  import opened Arith
  import opened Bits
  import opened Words
  import opened BitBuffer
  import opened BitWriter
  import opened Slots
  import opened Items
  import opened WriteBlock
  import opened WriteHeader
  import opened HuffmanTree
  import opened MatchLimits
  import opened HtMatchfinder
  import opened HcMatchfinder
  import opened Costs
  import opened Inflate
  import opened Deflate
  import opened BlockForms
  import opened FlushBlock
  import opened Compress
  import opened Sequences
  import opened BlockChoices
  import opened MinCostPath
  import opened NearOptimal
  import opened Drivers
  import opened DriveNearOptimal

  // ---- stored only

  /** The bytes are stored blocks of the first p bytes. */
  ghost predicate StoredSoFar(bytes: seq<u8>, bits: Bits, isFinal: bool, data: seq<u8>, p: nat) {
    Hold(bytes, 0, 0, bits) && p <= |data| && Encodes([], [], isFinal, bits, data[..p])
  }

  /** One more stored block behind a byte boundary. */
  lemma StoredMore(bytes: seq<u8>, bits: Bits, data: seq<u8>, p: nat, len: nat, isFinal: bool, first: u8)
    requires StoredSoFar(bytes, bits, false, data, p) && p + len <= |data| && len <= MAX_STORED
    requires first == if isFinal then 1 else 0
    ensures StoredSoFar(bytes + [first] + StoredHeader(len) + data[p..p + len],
                        bits + StoredBits(|bits|, isFinal, data[p..p + len]), isFinal, data, p + len)
  {
    hide Encodes, StoredBits, StoredHeader;
    var b := data[p..p + len];
    FirstByte(isFinal, first);
    HoldStored(bytes, 0, 0, bits, isFinal, b, 1, first);
    StoredEncodes(bits, data[..p], isFinal, b);
    assert data[..p] + b == data[..p + len];
    EncodesThen([], [], bits, data[..p], isFinal, bits + StoredBits(|bits|, isFinal, b), data[..p + len]);
  }

  lemma FirstByte(isFinal: bool, first: u8)
    requires first == if isFinal then 1 else 0
    ensures Or(0, Pow2(0) * first) == first && BytesOf(first, 1) == [first]
  {
    OrZero(first);
    assert BytesOf(first / 256, 0) == [];
  }

  lemma NothingStored(data: seq<u8>)
    ensures StoredSoFar([], [], false, data, 0)
  {
    hide Encodes;
    NothingEncoded([], []);
    assert data[..0] == [];
  }

  /** Writes a stored block at n. */
  method WriteStored(out: array<u8>, n: nat, data: seq<u8>, p: nat, len: nat, first: u8)
    requires n + 5 + len <= out.Length && p + len <= |data| && len <= MAX_STORED
    modifies out
    ensures out[..n + 5 + len] == old(out[..n]) + [first] + StoredHeader(len) + data[p..p + len]
  {
    hide StoredHeader;
    var h := StoredHeader(len);
    out[n] := first;
    forall i | n + 1 <= i < n + 5 {
      out[i] := h[i - n - 1];
    }
    forall i | n + 5 <= i < n + 5 + len {
      out[i] := data[p + (i - n - 5)];
    }
    assert out[n + 1..n + 5] == h && out[n + 5..n + 5 + len] == data[p..p + len];
  }

  /** One more of the stored blocks. */
  lemma NoneStep(bytes: seq<u8>, bits: Bits, data: seq<u8>, p: nat, len: nat, isFinal: bool, first: u8)
    requires StoredSoFar(bytes, bits, false, data, p) && p < |data| && first == if isFinal then 1 else 0
    requires len == (if |data| - p <= MAX_STORED then |data| - p else MAX_STORED)
    requires isFinal <==> |data| - p <= MAX_STORED
    ensures var bits' := bits + StoredBits(|bits|, isFinal, data[p..p + len]);
      && StoredSoFar(bytes + [first] + StoredHeader(len) + data[p..p + len], bits', isFinal, data, p + len)
      && bits + StoredForm(|bits|, true, data[p..]) ==
        if isFinal then bits' else bits' + StoredForm(|bits'|, true, data[p + len..])
  {
    hide StoredSoFar, StoredBits, StoredForm, StoredHeader;
    StoredMore(bytes, bits, data, p, len, isFinal, first);
    StoredFormStep(bits, true, data[p..]);
    assert data[p..][..len] == data[p..p + len] && data[p..][len..] == data[p + len..];
    assert isFinal ==> data[p..p + len] == data[p..];
  }

  /** Compresses nothing: stored blocks only.  An empty input still needs one block. */
  method CompressNone(data: seq<u8>, out: array<u8>, outAvail: nat) returns (size: nat, ghost bits: Bits)
    requires outAvail <= out.Length
    modifies out
    ensures size <= outAvail
    ensures size > 0 ==>
      Packs(out[..size], bits) && Carries(out[..size], bits) && Encodes([], [], true, bits, data) && |bits| == 8 * size
    ensures size > 0 ==> bits == StoredForm(0, true, data)
    ensures size == 0 <==> outAvail < |data| + 5 * (if |data| == 0 then 1 else StoredBlocks(|data|))
  {
    hide Encodes, Hold, StoredHeader, StoredBits, StoredForm;
    bits := [];
    ghost var goal := bits + StoredForm(0, true, data);
    NothingStored(data);
    var p: nat, n: nat := 0, 0;
    assert out[..0] == [];
    if |data| == 0 {
      if outAvail < 5 {
        return 0, bits;
      }
      WriteStored(out, 0, data, 0, 0, 1);
      StoredMore([], bits, data, 0, 0, true, 1);
      assert data[0..0] == data;
      StoredFormStep(bits, true, data);
      bits := bits + StoredBits(0, true, data[0..0]);
      assert out[..5] == [] + [1] + StoredHeader(0) + data[0..0];
      StoredCarries(out[..5], bits, data);
      return 5, bits;
    }
    while p != |data|
      invariant p <= |data| && n <= outAvail && StoredSoFar(out[..n], bits, p == |data|, data, p)
      invariant n == p + 5 * (StoredBlocks(|data|) - StoredBlocks(|data| - p))
      invariant goal == if p == |data| then bits else bits + StoredForm(|bits|, true, data[p..])
      decreases |data| - p
    {
      var isFinal, len: nat := false, MAX_STORED;
      if |data| - p <= MAX_STORED {
        isFinal, len := true, |data| - p;
      }
      StoredCount(|data| - p);
      if outAvail - n < 5 + len {
        return 0, bits;
      }
      ghost var before := out[..n];
      WriteStored(out, n, data, p, len, if isFinal then 1 else 0);
      NoneStep(before, bits, data, p, len, isFinal, if isFinal then 1 else 0);
      bits := bits + StoredBits(|bits|, isFinal, data[p..p + len]);
      n := n + 5 + len;
      p := p + len;
    }
    StoredCarries(out[..n], bits, data);
    size := n;
  }

  lemma StoredCount(m: nat)
    requires m > 0
    ensures m <= MAX_STORED ==> StoredBlocks(m) == 1 && StoredBlocks(0) == 0
    ensures m > MAX_STORED ==> StoredBlocks(m) == StoredBlocks(m - MAX_STORED) + 1 && StoredBlocks(m - MAX_STORED) >= 1
  {
    if m > MAX_STORED {
      assert (m + MAX_STORED - 1) / MAX_STORED == (m - MAX_STORED + MAX_STORED - 1) / MAX_STORED + 1;
    }
  }

  lemma StoredCarries(bytes: seq<u8>, bits: Bits, data: seq<u8>)
    requires StoredSoFar(bytes, bits, true, data, |data|)
    ensures Packs(bytes, bits) && Carries(bytes, bits) && Encodes([], [], true, bits, data) && |bits| == 8 * |bytes|
  {
    hide Encodes;
    HoldPacks(bytes, 0, 0, bits);
    PacksCarries(bytes, bits);
    assert data[..|data|] == data;
  }

  // ---- the compressor

  datatype Level =
    | Fastest(nice: nat)
    | Chains(strategy: Strategy, searchDepth: nat, niceLength: nat)
    | Trees(searchDepth: nat, niceLength: nat, maxPasses: nat)

  /** What the levels of the compressor have in common. */
  predicate Searching(level: Level) {
    match level
    case Fastest(_) => true
    case Chains(_, depth, _) => depth >= 4
    case Trees(depth, niceLength, maxPasses) => depth >= 1 && niceLength > 3 && maxPasses >= 1
  }

  /** The level's parser has made the items of each block. */
  ghost predicate ByLevel(level: Level, minLen: (nat, nat) -> nat, split: (nat, nat) -> bool, h: Heuristics,
                          data: seq<u8>, bs: seq<Block>)
    requires forall i: nat, j: nat :: minLen(i, j) >= 3
  {
    match level
    case Fastest(niceLen) => AllParsed(FastParser(AdjustNiceLen(niceLen, MAX_MATCH)), data, bs)
    case Chains(strategy, depth, niceLen) =>
      AllParsed(ChainParser(strategy, depth, AdjustNiceLen(niceLen, MAX_MATCH), minLen, split), data, bs)
    case Trees(depth, niceLen, maxPasses) =>
      AllOptimized(h, maxPasses, data, AdjustNiceLen(niceLen, MAX_MATCH), depth, bs)
  }

  /** What is written: stored blocks if there is little data, and otherwise the shortest forms of the blocks that the
      level's parser makes of it. */
  ghost predicate Written(level: Level, maxPassthroughSize: nat, minLen: (nat, nat) -> nat,
                          split: (nat, nat) -> bool, h: Heuristics, data: seq<u8>, bs: seq<Block>, bits: Bits)
    requires forall i: nat, j: nat :: minLen(i, j) >= 3
  {
    if |data| <= maxPassthroughSize then bits == StoredForm(0, true, data)
    else
      Chain(data, bs, |data|) && bits == BlocksForm(data, bs, |data|) && ByLevel(level, minLen, split, h, data, bs)
  }

  /** Compresses the data.  The size 0 says that the output is too small, which it is not when it has
      the size of the bound. */
  method DeflateCompress(level: Level, maxPassthroughSize: nat, minLen: (nat, nat) -> nat, split: (nat, nat) -> bool,
                         h: Heuristics, check: (nat, nat) -> Verdict, sl: Coder, so: Coder, wordBytes: nat,
                         fast: bool, data: seq<u8>, out: array<u8>, outAvail: nat, ghost maxLiteral: nat)
    returns (size: nat, ghost bits: Bits, ghost bs: seq<Block>)
    requires (wordBytes == 4 || wordBytes == 8) && StaticCoders(sl, so) && outAvail <= out.Length
    requires Searching(level) && Sensible(h, maxLiteral) && forall i: nat, j: nat :: minLen(i, j) >= 3
    modifies out
    ensures size <= outAvail
    ensures size > 0 ==> Carries(out[..size], bits) && Encodes([], [], true, bits, data)
    ensures size > 0 ==>
      Packs(out[..size], bits) && Written(level, maxPassthroughSize, minLen, split, h, data, bs, bits)
    ensures outAvail >= CompressBound(|data|) ==> size > 0
  {
    hide Encodes, Carries, Packs, StaticCoders, Hold, CompressBound, StoredBlocks, Sensible, AllParsed, AllOptimized,
      Chain, BlocksForm, StoredForm;
    bs := [];
    if |data| <= maxPassthroughSize {
      size, bits := CompressNone(data, out, outAvail);
      NoneWithinBound(|data|);
      return;
    }
    if outAvail <= OUTPUT_END_PADDING {
      NoneWithinBound(|data|);
      return 0, [], [];
    }
    var w := new BitWriter(out, outAvail - OUTPUT_END_PADDING, wordBytes, fast);
    match level {
      case Fastest(niceLength) =>
        bs := CompressFastest(w, data, niceLength, sl, so);
      case Chains(strategy, depth, niceLength) =>
        bs := CompressHc(w, data, niceLength, depth, strategy, minLen, split, sl, so);
      case Trees(depth, niceLength, maxPasses) =>
        bs := CompressNearOptimal(w, data, niceLength, depth, h, maxPasses, check, sl, so, maxLiteral);
    }
    bits := w.bits;
    if w.next < w.end {
      SomeBits(bits, data);
    }
    size := Finish(w);
  }

  /** There are bytes that carry any bits. */
  lemma Carried(bits: Bits) returns (out: seq<u8>)
    ensures Carries(out, bits)
  {
    hide Low, BytesOf, Value, Le;
    var n := (|bits| + 7) / 8;
    out := BytesOf(Le(bits), n);
    BytesValue(Le(bits), n);
    LeBound(bits);
    Pow2Monotone(|bits|, 8 * n);
    LowFits(Le(bits), 8 * n);
    LowFits(Le(bits), |bits|);
  }

  /** A stream is not empty. */
  lemma SomeBits(bits: Bits, data: seq<u8>)
    requires Encodes([], [], true, bits, data)
    ensures |bits| > 0
  {
    hide Carries, Inflates, BlockStep;
    var out := Carried(bits);
    assert BlocksTo(out, 0, [], true, |bits|, data);
    var pos, after := InflatesStarts(out, 0, [], |bits|, data);
    StepGrows(out, 0, [], pos, after);
  }

  lemma NoneWithinBound(n: nat)
    ensures CompressBound(n) >= n + 5 * (if n == 0 then 1 else StoredBlocks(n)) && CompressBound(n) > OUTPUT_END_PADDING
  {
    if n > 0 {
      assert (n + MAX_STORED - 1) / MAX_STORED <= (n + MIN_BLOCK_LENGTH - 1) / MIN_BLOCK_LENGTH;
    }
  }
}
