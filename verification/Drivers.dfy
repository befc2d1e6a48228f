/** Compressing the whole input block by block, with the fastest, the greedy or a lazy parser. */
module Drivers {
  import opened Arith
  import opened Bits
  import opened Words
  import opened BitBuffer
  import opened BitWriter
  import opened Slots
  import opened Items
  import opened WriteBlock
  import opened WriteHeader
  import opened HuffmanTree
  import opened MatchLimits
  import opened HtMatchfinder
  import opened HcMatchfinder
  import opened Costs
  import opened Inflate
  import opened Deflate
  import opened BlockForms
  import opened FlushBlock
  import opened Compress
  import opened Sequences
  import opened BlockChoices
  import opened Parsers

  /** Writes the block that a parser has left in the store. */
  method FinishParsed(w: BitWriter, st: Store, data: seq<u8>, p: nat, q: nat, sl: Coder, so: Coder,
                      ghost bs: seq<Block>)
    returns (ghost bs': seq<Block>, ghost b: Block)
    requires Compressed(w, data, p, false, bs) && BlockParsed(st, data, p, q) && StaticCoders(sl, so)
    requires MIN_BLOCK_LENGTH * InStored(bs) <= p
    modifies w, w.out
    ensures Compressed(w, data, q, q == |data|, bs')
    ensures bs' == bs + [b] && b.start == p && b.end == q && b.items == st.items
    ensures q < |data| ==> MIN_BLOCK_LENGTH * InStored(bs') <= q
    ensures q == |data| ==> 5 * InStored(bs') + q < CompressBound(|data|) - OUTPUT_END_PADDING
  {
    hide Encodes, StaticCoders, Cover, SequenceItems, Tiles, AllValid, Counted, BlockFrequencies, Hold, Sum,
      StoredBlocks, CompressBound, Chain, BlocksForm, InStored;
    var seqs := st.seqs + [LastRun(st.run)];
    CountedBlock(st.items, st.litlenFreqs[..], st.offsetFreqs[..]);
    b := FinishBlock(w, data, p, q, FromSequences(seqs), st.litlenFreqs[..], st.offsetFreqs[..], sl, so, q == |data|,
                     bs);
    bs' := bs + [b];
    InStoredMore(bs, b);
    if q == |data| {
      BlocksWithinBound(p, InStored(bs), |data|);
    } else {
      LongBlock(p, InStored(bs), q);
    }
  }

  /** What the compression of the whole input leaves: the shortest forms of the blocks bs. */
  ghost predicate AllCompressed(w: BitWriter, data: seq<u8>, bs: seq<Block>)
    reads w, w.out
  {
    && w.Valid() && w.bitcount < 8 && Chain(data, bs, |data|)
    && (w.next < w.end ==> Encodes([], [], true, w.bits, data) && w.bits == BlocksForm(data, bs, |data|))
    && (CompressBound(|data|) - OUTPUT_END_PADDING <= w.end ==> w.next < w.end)
  }

  lemma LastBlock(w: BitWriter, data: seq<u8>, bs: seq<Block>)
    requires Compressed(w, data, |data|, true, bs)
    requires 5 * InStored(bs) + |data| < CompressBound(|data|) - OUTPUT_END_PADDING
    ensures AllCompressed(w, data, bs)
  {
    hide Encodes, CompressBound, Hold, Chain, BlocksForm, InStored;
    assert data[..|data|] == data;
    if CompressBound(|data|) - OUTPUT_END_PADDING <= w.end {
      NotFull(w, 5 * InStored(bs) + |data|);
    }
  }

  lemma NothingCompressed(w: BitWriter, data: seq<u8>)
    requires w.Valid() && w.bits == [] && w.bitcount == 0
    ensures Compressed(w, data, 0, false, []) && InStored([]) == 0
  {
    hide Encodes, Hold;
    NothingEncoded([], []);
    assert data[..0] == [];
  }

  /** The parser has made each of the blocks. */
  ghost predicate AllParsed(parser: Parser, data: seq<u8>, bs: seq<Block>)
    requires Sound(parser)
  {
    forall b :: b in bs ==> ParsedBlock(parser, data, b.start, b.end, b.items)
  }

  method CompressFastest(w: BitWriter, data: seq<u8>, niceMatchLength: nat, sl: Coder, so: Coder)
    returns (ghost bs: seq<Block>)
    requires w.Valid() && w.bits == [] && w.bitcount == 0 && |data| > 0 && StaticCoders(sl, so)
    modifies w, w.out
    ensures AllCompressed(w, data, bs) && AllParsed(FastParser(AdjustNiceLen(niceMatchLength, MAX_MATCH)), data, bs)
  {
    hide Compressed, BlockParsed, HtReady, StaticCoders, AllCompressed, CompressBound, InStored, ParsedBlock;
    var mf := new HtMatchfinder(data, w.wordBytes, w.fast);
    var st := new Store(FAST_SEQ_STORE_LENGTH);
    var p: nat, niceLen: nat := 0, AdjustNiceLen(niceMatchLength, MAX_MATCH);
    ghost var nice := niceLen;
    bs := [];
    NothingCompressed(w, data);
    HtStart(mf, data);
    while p < |data|
      invariant 0 <= p <= |data| && Compressed(w, data, p, p == |data|, bs) && HtReady(mf, data, p)
      invariant HtApart(mf, st)
      invariant fresh(mf) && fresh(mf.tab0) && fresh(mf.tab1) && fresh(st) && fresh(st.litlenFreqs)
      invariant fresh(st.offsetFreqs)
      invariant st.Ready() && NiceFrom(data, p, niceLen, nice) && AllParsed(FastParser(nice), data, bs)
      invariant p < |data| ==> MIN_BLOCK_LENGTH * InStored(bs) <= p
      invariant p == |data| ==> 5 * InStored(bs) + p < CompressBound(|data|) - OUTPUT_END_PADDING
    {
      var q;
      q, niceLen := FastestBlock(mf, st, data, p, niceLen, nice);
      ParsedGrows(st, data, p, q);
      ghost var b;
      bs, b := FinishParsed(w, st, data, p, q, sl, so, bs);
      p := q;
    }
    LastBlock(w, data, bs);
  }

  lemma HtStart(mf: HtMatchfinder, data: seq<u8>)
    requires mf.Valid(data) && mf.At(0)
    ensures HtReady(mf, data, 0)
  {
  }

  lemma ParsedGrows(st: Store, data: seq<u8>, p: nat, q: nat)
    requires BlockParsed(st, data, p, q)
    ensures p < q <= |data|
  {
  }

  method CompressHc(w: BitWriter, data: seq<u8>, niceMatchLength: nat, depth: nat, strategy: Strategy,
                    minLen: (nat, nat) -> nat, split: (nat, nat) -> bool, sl: Coder, so: Coder)
    returns (ghost bs: seq<Block>)
    requires w.Valid() && w.bits == [] && w.bitcount == 0 && |data| > 0 && StaticCoders(sl, so)
    requires depth >= 4 && forall i: nat, j: nat :: minLen(i, j) >= 3
    modifies w, w.out
    ensures AllCompressed(w, data, bs)
    ensures AllParsed(ChainParser(strategy, depth, AdjustNiceLen(niceMatchLength, MAX_MATCH), minLen, split), data, bs)
  {
    hide Compressed, BlockParsed, HcReady, StaticCoders, AllCompressed, CompressBound, InStored, ParsedBlock;
    var mf := new HcMatchfinder(data, w.wordBytes, w.fast);
    var st := new Store(SEQ_STORE_LENGTH);
    var p: nat, niceLen: nat := 0, AdjustNiceLen(niceMatchLength, MAX_MATCH);
    ghost var nice := niceLen;
    ghost var parser := ChainParser(strategy, depth, nice, minLen, split);
    bs := [];
    NothingCompressed(w, data);
    HcStart(mf, data);
    while p < |data|
      invariant 0 <= p <= |data| && Compressed(w, data, p, p == |data|, bs) && HcReady(mf, data, p)
      invariant HcApart(mf, st)
      invariant fresh(mf) && fresh(mf.hash3) && fresh(mf.hash4) && fresh(mf.next)
      invariant fresh(st) && fresh(st.litlenFreqs) && fresh(st.offsetFreqs)
      invariant st.Ready() && niceLen <= MAX_MATCH && NiceFrom(data, p, niceLen, nice) && AllParsed(parser, data, bs)
      invariant p < |data| ==> MIN_BLOCK_LENGTH * InStored(bs) <= p
      invariant p == |data| ==> 5 * InStored(bs) + p < CompressBound(|data|) - OUTPUT_END_PADDING
    {
      var q;
      q, niceLen := HcBlock(mf, st, data, p, niceLen, depth, strategy, minLen, split, nice);
      ParsedGrows(st, data, p, q);
      ghost var b;
      bs, b := FinishParsed(w, st, data, p, q, sl, so, bs);
      p := q;
    }
    LastBlock(w, data, bs);
  }

  lemma HcStart(mf: HcMatchfinder, data: seq<u8>)
    requires mf.Valid(data) && mf.At(0)
    ensures HcReady(mf, data, 0)
  {
  }
}
