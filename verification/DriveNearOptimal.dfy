/** Compressing the whole input block by block with the near-optimal parser. */
module DriveNearOptimal {
  import opened Arith
  import opened Packed
  import opened LengthCounts
  import opened BitBuffer
  import opened BitWriter
  import opened MatchCommon
  import opened MatchLimits
  import opened BtMatchfinder
  import opened Slots
  import opened Items
  import opened WriteBlock
  import opened WriteHeader
  import opened HuffmanTree
  import opened Costs
  import opened Inflate
  import opened Deflate
  import opened BlockForms
  import opened FlushBlock
  import opened Compress
  import opened Sequences
  import opened BlockChoices
  import opened MinCostPath
  import opened PathBlocks
  import opened BtSearch
  import opened BlockGraph
  import opened NearOptimal
  import opened Drivers

  /** Writes a block whose choices have been made. */
  method FinishSettled(w: BitWriter, data: seq<u8>, p: nat, q: nat, c: Choice, lf: array<nat>, of: array<nat>,
                       sl: Coder, so: Coder, ghost bs: seq<Block>)
    returns (ghost bs': seq<Block>, ghost b: Block)
    requires Compressed(w, data, p, false, bs) && StaticCoders(sl, so) && MIN_BLOCK_LENGTH * InStored(bs) <= p
    requires p < q <= |data| && q - p <= MAX_BLOCK_LENGTH && (q < |data| ==> q - p >= MIN_BLOCK_LENGTH)
    requires lf.Length == 288 && of.Length == 32 && Settled(data, p, q, c, lf[..], of[..])
    modifies w, w.out
    ensures Compressed(w, data, q, q == |data|, bs')
    ensures bs' == bs + [b] && b.start == p && b.end == q && b.items == ChoiceItems(c, data, p, q)
    ensures q < |data| ==> MIN_BLOCK_LENGTH * InStored(bs') <= q
    ensures q == |data| ==> 5 * InStored(bs') + q < CompressBound(|data|) - OUTPUT_END_PADDING
  {
    hide Encodes, StaticCoders, Chosen, ChoiceItems, Tiles, AllValid, Counted, BlockFrequencies, Hold, Sum,
      StoredBlocks, CompressBound, Cover, Chain, BlocksForm, InStored;
    CountedBlock(ChoiceItems(c, data, p, q), lf[..], of[..]);
    b := FinishBlock(w, data, p, q, c, lf[..], of[..], sl, so, q == |data|, bs);
    bs' := bs + [b];
    InStoredMore(bs, b);
    if q == |data| {
      BlocksWithinBound(p, InStored(bs), |data|);
    } else {
      LongBlock(p, InStored(bs), q);
    }
  }

  /** Optimizes and writes the block from p to e. */
  method WriteBlockTo(w: BitWriter, data: seq<u8>, p: nat, e: nat, cache: array<LzMatch>, at: nat, cost: array<u32>,
                      nodes: array<Node>, lf: array<nat>, of: array<nat>, h: Heuristics, maxPasses: nat, sl: Coder,
                      so: Coder, ghost ps: seq<Choices>, ghost maxLiteral: nat, ghost bs: seq<Block>)
    returns (ghost bs': seq<Block>, ghost b: Block)
    requires Compressed(w, data, p, false, bs) && StaticCoders(sl, so) && MIN_BLOCK_LENGTH * InStored(bs) <= p
    requires p < e && e - p <= MAX_BLOCK_LENGTH && (e < |data| ==> e - p >= MIN_BLOCK_LENGTH)
    requires Filled(data, p, e, ps, cache[..], at) && Sensible(h, maxLiteral) && maxPasses >= 1
    requires cost.Length == nodes.Length == MAX_BLOCK_LENGTH + 1 && cost as object != lf && cost as object != of
    requires lf != of && lf.Length == 288 && of.Length == 32
    requires cost as object != w.out && lf as object != w.out && of as object != w.out
    modifies w, w.out, cost, nodes, lf, of
    ensures Compressed(w, data, e, e == |data|, bs') && bs' == bs + [b] && b.start == p && b.end == e
    ensures Optimized(h, maxPasses, data, p, e, ps, b.items)
    ensures e < |data| ==> MIN_BLOCK_LENGTH * InStored(bs') <= e
    ensures e == |data| ==> 5 * InStored(bs') + e < CompressBound(|data|) - OUTPUT_END_PADDING
  {
    hide Encodes, StaticCoders, Settled, Sensible, Cached, Flat, CompressBound, Hold, Chosen, ChoiceItems, Optimized;
    var c := OptimizeBlock(data, p, e, cache[..], at, cost, nodes, lf, of, h, maxPasses, ps, maxLiteral);
    bs', b := FinishSettled(w, data, p, e, c, lf, of, sl, so, bs);
  }

  lemma FilledIn(data: seq<u8>, p: nat, q: nat, ps: seq<Choices>, cache: seq<LzMatch>, cache': seq<LzMatch>, at: nat)
    requires Filled(data, p, q, ps, cache, at) && at <= |cache'| && cache'[..at] == cache[..at]
    ensures Filled(data, p, q, ps, cache', at)
  {
  }

  lemma NothingFilled(data: seq<u8>, p: nat, cache: seq<LzMatch>)
    requires p <= |data|
    ensures Filled(data, p, p, [], cache, 0)
  {
  }

  lemma RestWithin(data: seq<u8>, p: nat, q: nat, e: nat)
    requires p < e <= q < |data| && q < ChooseMaxBlockEnd(p, |data|, SOFT_MAX_BLOCK_LENGTH)
    ensures q < ChooseMaxBlockEnd(e, |data|, SOFT_MAX_BLOCK_LENGTH)
  {
  }

  /** Optimizes and writes the block from p to e, and keeps the entries from e to q for the next one. */
  method WriteBlockEarly(w: BitWriter, data: seq<u8>, p: nat, e: nat, q: nat, cache: array<LzMatch>, at: nat,
                         cost: array<u32>, nodes: array<Node>, lf: array<nat>, of: array<nat>, h: Heuristics,
                         maxPasses: nat, sl: Coder, so: Coder, ghost ps: seq<Choices>, ghost maxLiteral: nat,
                         ghost bs: seq<Block>)
    returns (at': nat, ghost bs': seq<Block>, ghost ps': seq<Choices>, ghost b: Block)
    requires Compressed(w, data, p, false, bs) && StaticCoders(sl, so) && MIN_BLOCK_LENGTH * InStored(bs) <= p
    requires p + MIN_BLOCK_LENGTH <= e < q < |data| && q - p <= MAX_BLOCK_LENGTH
    requires Filled(data, p, q, ps, cache[..], at) && Sensible(h, maxLiteral) && maxPasses >= 1
    requires cost.Length == nodes.Length == MAX_BLOCK_LENGTH + 1 && cost as object != lf && cost as object != of
    requires lf != of && lf.Length == 288 && of.Length == 32
    requires cost as object != w.out && lf as object != w.out && of as object != w.out
    modifies w, w.out, cost, nodes, lf, of, cache
    ensures bs' == bs + [b] && b.start == p && b.end == e
    ensures Optimized(h, maxPasses, data, p, e, ps[..e - p], b.items) && ps' == ps[e - p..]
    ensures Compressed(w, data, e, false, bs') && MIN_BLOCK_LENGTH * InStored(bs') <= e
    ensures at' <= at && Filled(data, e, q, ps', cache[..], at')
  {
    hide Filled, Compressed, StaticCoders, CompressBound, Sensible, Optimized, Chain, InStored;
    FilledFrom(data, p, q, ps, cache[..], at);
    var from := Rewind(data, p, e, q, cache[..], at, ps);
    ghost var rest := cache[from..at];
    bs', b := WriteBlockTo(w, data, p, e, cache, from, cost, nodes, lf, of, h, maxPasses, sl, so, ps[..e - p],
                            maxLiteral, bs);
    assert cache[from..at] == rest;
    MoveRest(cache, from, at);
    at', ps' := at - from, ps[e - p..];
    FilledIn(data, e, q, ps', rest, cache[..], at');
  }

  /** Writes the block from p, where it ends; the next one starts at p'. */
  method WriteEnded(w: BitWriter, data: seq<u8>, p: nat, q: nat, ending: Ending, cache: array<LzMatch>, at: nat,
                    cost: array<u32>, nodes: array<Node>, lf: array<nat>, of: array<nat>, h: Heuristics, maxPasses: nat,
                    sl: Coder, so: Coder, ghost ps: seq<Choices>, ghost maxLiteral: nat, ghost bs: seq<Block>,
                    ghost nice: nat, ghost depth: nat)
    returns (p': nat, at': nat, ghost bs': seq<Block>, ghost ps': seq<Choices>, ghost b: Block)
    requires Compressed(w, data, p, false, bs) && StaticCoders(sl, so) && MIN_BLOCK_LENGTH * InStored(bs) <= p
    requires p <= q <= |data| && Filled(data, p, q, ps, cache[..], at) && Ended(data, p, q, at, ending)
    requires ps == GraphOf(data, nice, depth, p, q)
    requires Sensible(h, maxLiteral) && maxPasses >= 1
    requires cost.Length == nodes.Length == MAX_BLOCK_LENGTH + 1 && cost as object != lf && cost as object != of
    requires lf != of && lf.Length == 288 && of.Length == 32
    requires cost as object != w.out && lf as object != w.out && of as object != w.out
    modifies w, w.out, cost, nodes, lf, of, cache
    ensures p < p' <= q && (p' == |data| <==> q == |data|)
    ensures Compressed(w, data, p', p' == |data|, bs') && bs' == bs + [b] && b.start == p && b.end == p'
    ensures p' < |data| ==> MIN_BLOCK_LENGTH * InStored(bs') <= p'
    ensures p' == |data| ==> 5 * InStored(bs') + p' < CompressBound(|data|) - OUTPUT_END_PADDING
    ensures Filled(data, p', q, ps', cache[..], at') && at' < MATCH_CACHE_LENGTH
    ensures ps' == GraphOf(data, nice, depth, p', q)
    ensures Optimized(h, maxPasses, data, p, p', GraphOf(data, nice, depth, p, p'), b.items)
    ensures q < |data| ==> q < ChooseMaxBlockEnd(p', |data|, SOFT_MAX_BLOCK_LENGTH)
  {
    hide Filled, Compressed, StaticCoders, CompressBound, Sensible, Optimized, Chain, InStored, GraphOf;
    match ending {
      case EarlierAt(e) =>
        at', bs', ps', b := WriteBlockEarly(w, data, p, e, q, cache, at, cost, nodes, lf, of, h, maxPasses, sl, so, ps,
                                             maxLiteral, bs);
        RestWithin(data, p, q, e);
        GraphSplit(data, nice, depth, p, e, q);
        p' := e;
      case Here =>
        bs', b := WriteBlockTo(w, data, p, q, cache, at, cost, nodes, lf, of, h, maxPasses, sl, so, ps, maxLiteral,
                                bs);
        p', at', ps' := q, 0, [];
        NothingFilled(data, q, cache[..]);
        NoGraph(data, nice, depth, q);
    }
  }

  lemma GraphSplit(data: seq<u8>, nice: nat, depth: nat, p: nat, e: nat, q: nat)
    requires p <= e <= q <= |data|
    ensures GraphOf(data, nice, depth, p, q)[..e - p] == GraphOf(data, nice, depth, p, e)
    ensures GraphOf(data, nice, depth, p, q)[e - p..] == GraphOf(data, nice, depth, e, q)
  {
    hide IsSearched, MatchesAt;
  }

  lemma NoGraph(data: seq<u8>, nice: nat, depth: nat, q: nat)
    requires q <= |data|
    ensures GraphOf(data, nice, depth, q, q) == []
  {
    hide IsSearched, MatchesAt;
  }

  /** The items of each block are chosen from what the searches find. */
  ghost predicate AllOptimized(h: Heuristics, maxPasses: nat, data: seq<u8>, nice: nat, depth: nat, bs: seq<Block>) {
    forall b :: b in bs ==>
      && b.start <= b.end <= |data|
      && Optimized(h, maxPasses, data, b.start, b.end, GraphOf(data, nice, depth, b.start, b.end), b.items)
  }

  lemma StartsWithin(data: seq<u8>)
    requires |data| > 0
    ensures 0 < ChooseMaxBlockEnd(0, |data|, SOFT_MAX_BLOCK_LENGTH)
  {
  }

  method CompressNearOptimal(w: BitWriter, data: seq<u8>, niceMatchLength: nat, depth: nat, h: Heuristics,
                             maxPasses: nat, check: (nat, nat) -> Verdict, sl: Coder, so: Coder, ghost maxLiteral: nat)
    returns (ghost bs: seq<Block>)
    requires w.Valid() && w.bits == [] && w.bitcount == 0 && |data| > 0 && StaticCoders(sl, so)
    requires depth >= 1 && niceMatchLength > 3 && maxPasses >= 1 && Sensible(h, maxLiteral)
    modifies w, w.out
    ensures AllCompressed(w, data, bs)
    ensures AllOptimized(h, maxPasses, data, AdjustNiceLen(niceMatchLength, MAX_MATCH), depth, bs)
  {
    hide Optimized, GraphOf, InStored, IsSearched;
    hide Compressed, Filled, BtReady, StaticCoders, AllCompressed, CompressBound, Sensible, ChooseMaxBlockEnd, Ended;
    StartsWithin(data);
    var niceLen := AdjustNiceLen(niceMatchLength, MAX_MATCH);
    NothingCompressed(w, data);
    ghost var nice := niceLen;
    FirstSearched(data, nice, depth);
    NoGraph(data, nice, depth, 0);
    var mf := MakeMatchfinder(w, data, niceLen, depth);
    var cache := new LzMatch[CACHE_SIZE](_ => LzMatch(0, 0));
    var cost, nodes := new u32[MAX_BLOCK_LENGTH + 1], new Node[MAX_BLOCK_LENGTH + 1](_ => Node(0, 0));
    var lf, of := new nat[288], new nat[32];
    var p: nat, q: nat, at: nat := 0, 0, 0;
    ghost var ps: seq<Choices> := [];
    bs := [];
    NothingFilled(data, 0, cache[..]);
    var going := true;
    while going
      invariant 0 <= p <= q <= |data| && (going <==> q < |data|) && (p == |data| <==> q == |data|)
      invariant at < MATCH_CACHE_LENGTH && (going ==> q < ChooseMaxBlockEnd(p, |data|, SOFT_MAX_BLOCK_LENGTH))
      invariant Compressed(w, data, p, p == |data|, bs) && (going ==> MIN_BLOCK_LENGTH * InStored(bs) <= p)
      invariant p == |data| ==> 5 * InStored(bs) + p < CompressBound(|data|) - OUTPUT_END_PADDING
      invariant BtReady(mf, data, q, niceLen, nice, depth) && Filled(data, p, q, ps, cache[..], at)
      invariant ps == GraphOf(data, nice, depth, p, q) && IsSearched(data, nice, depth, q)
      invariant AllOptimized(h, maxPasses, data, nice, depth, bs)
      invariant fresh(mf) && fresh(mf.hash3a) && fresh(mf.hash3b) && fresh(mf.hash4) && fresh(mf.child)
      decreases |data| - q, going
    {
      var ending;
      q, at, niceLen, ending, ps := FillBlock(mf, data, p, q, cache, at, niceLen, depth, check, ps, nice);
      ghost var b;
      p, at, bs, ps, b :=
        WriteEnded(w, data, p, q, ending, cache, at, cost, nodes, lf, of, h, maxPasses, sl, so, ps, maxLiteral, bs,
                   nice, depth);
      going := q != |data|;
    }
    LastBlock(w, data, bs);
  }

  method MakeMatchfinder(w: BitWriter, data: seq<u8>, niceLen: nat, ghost depth: nat) returns (mf: BtMatchfinder)
    requires w.Valid() && 3 < niceLen <= MAX_MATCH
    ensures BtReady(mf, data, 0, niceLen, niceLen, depth)
    ensures fresh(mf) && fresh(mf.hash3a) && fresh(mf.hash3b) && fresh(mf.hash4) && fresh(mf.child)
  {
    mf := new BtMatchfinder(data, niceLen, w.wordBytes, w.fast);
  }
}
