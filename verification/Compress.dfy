/** Compressing block by block: what all parsers keep, the size bound, and the way back. */
module Compress {
  import opened Arith
  import opened Packed
  import opened Bits
  import opened LengthCounts
  import opened Words
  import opened BitBuffer
  import opened BitWriter
  import opened HuffmanTree
  import opened Items
  import opened WriteBlock
  import opened UsableCode
  import opened Precode
  import opened WriteHeader
  import opened Slots
  import opened Inflate
  import opened Decompress
  import GenericItem
  import opened Costs
  import opened Sequences
  import opened Deflate
  import opened HuffmanCode
  import opened BlockForms
  import opened FlushBlock

  const OUTPUT_END_PADDING: nat := 8

  // ---- what is kept from block to block

  /** The first p bytes are compressed: what is written are the shortest forms of the blocks bs.  If they fit in the
      output when they are all stored, the output is no longer than that. */
  ghost predicate Compressed(w: BitWriter, data: seq<u8>, p: nat, isFinal: bool, bs: seq<Block>)
    reads w, w.out
  {
    && w.Valid() && w.bitcount < 8 && p <= |data| && Chain(data, bs, p)
    && (w.next < w.end ==> Encodes([], [], isFinal, w.bits, data[..p]) && w.bits == BlocksForm(data, bs, p))
    && (Room(bs, p) < w.end ==> |w.bits| <= 8 * Room(bs, p))
  }

  /** What the first p bytes take if they are all stored. */
  ghost function Room(bs: seq<Block>, p: nat): nat {
    5 * InStored(bs) + p
  }

  /** What n bytes take if they are stored. */
  function RoomFor(n: nat): nat {
    5 * StoredBlocks(n) + n
  }

  /** The number of stored blocks for n bytes. */
  function StoredBlocks(n: nat): nat {
    (n + MAX_STORED - 1) / MAX_STORED
  }

  /** How many stored blocks the blocks would be. */
  ghost function InStored(bs: seq<Block>): nat {
    if bs == [] then 0
    else
      var b := bs[|bs| - 1];
      InStored(bs[..|bs| - 1]) + if b.start <= b.end then StoredBlocks(b.end - b.start) else 0
  }

  lemma RoomMore(bs: seq<Block>, b: Block, p: nat, e: nat)
    requires b.start == p <= e == b.end
    ensures Room(bs + [b], e) == Room(bs, p) + RoomFor(e - p)
  {
    hide StoredBlocks, InStored;
    InStoredMore(bs, b);
  }

  lemma InStoredMore(bs: seq<Block>, b: Block)
    requires b.start <= b.end
    ensures InStored(bs + [b]) == InStored(bs) + StoredBlocks(b.end - b.start)
  {
    hide StoredBlocks;
    assert (bs + [b])[..|bs|] == bs;
  }

  lemma PaddedWithin(n: nat, u: nat)
    requires n <= 8 * u
    ensures n + 3 + Padding(n + 3) <= 8 * u + 8
  {
  }

  lemma StoredWithin(n: nat, bitcount: nat, u: nat, len: nat)
    requires n <= 8 * u && bitcount == n % 8 && len > 0
    ensures n + 3 + StoredCost(bitcount, len) <= 8 * (u + 5 * StoredBlocks(len) + len)
  {
    PaddedWithin(n, u);
    assert Padding(bitcount + 3) == Padding(n + 3);
  }

  lemma NotFull(w: BitWriter, u: nat)
    requires w.Valid() && w.bitcount < 8 && |w.bits| <= 8 * u && u < w.end
    ensures w.next < w.end && w.bitcount == |w.bits| % 8
  {
    HoldLength(w.out[..w.next], w.bitbuf, w.bitcount, w.bits);
  }

  /** Makes the codes of a block and writes it as whatever is cheapest. */
  method CodeAndFlush(w: BitWriter, data: seq<u8>, p: nat, e: nat, c: Choice, lf: seq<nat>, of: seq<nat>, sl: Coder,
                      so: Coder, isFinal: bool)
    returns (bestCost: nat, ghost b: Block)
    requires w.Valid() && w.bitcount < 8 && p < e <= |data| && StaticCoders(sl, so)
    requires Chosen(c, data, p, e) && AllValid(ChoiceItems(c, data, p, e))
    requires Tiles(data, p, ChoiceItems(c, data, p, e), e)
    requires |lf| == LITLEN_SYMS && |of| == OFFSET_SYMS && lf[END_SYM] == 0
    requires BlockFrequencies(ChoiceItems(c, data, p, e), lf[END_SYM := 1], of)
    requires Sum(lf) + 1 < HIGH_VALUES && Sum(of) < HIGH_VALUES
    modifies w, w.out
    ensures w.Valid() && w.bitcount < 8
    ensures BlockMade(data, b) && b.start == p && b.end == e && b.items == ChoiceItems(c, data, p, e)
    ensures bestCost <= StoredCost(old(w.bitcount), e - p)
    ensures old(w.next) < w.end ==> |w.bits| <= |old(w.bits)| + 3 + bestCost
    ensures w.next < w.end ==>
      && w.bits == old(w.bits) + ShortestForm(|old(w.bits)|, isFinal, data, b)
      && Encodes(old(w.bits), data[..p], isFinal, w.bits, data[..e])
  {
    hide Encodes, Chosen, ChoiceItems, Tiles, AllValid, BlockFrequencies, Usable, StaticCoders, Sum, Hold, CodedCost,
      Made, BlockMade, ShortestForm, StoredCost;
    var lens := new nat[LITLEN_SYMS + OFFSET_SYMS];
    var lcw, ocw := new u32[LITLEN_SYMS], new u32[OFFSET_SYMS];
    var lf' := lf[END_SYM := lf[END_SYM] + 1];
    SumAdd(lf, END_SYM);
    MakeBlockCodes(lf', of, lens, lcw, ocw);
    bestCost, b := FlushBlock.FlushBlock(w, data, p, e, c, lf', of, lens, lcw[..], ocw[..], sl, so, isFinal);
  }

  /** If all blocks fit in the output when they are stored, there was room before this one, and the output is no longer
      than that behind it. */
  method FlushWithin(w: BitWriter, data: seq<u8>, p: nat, e: nat, c: Choice, lf: seq<nat>, of: seq<nat>, sl: Coder,
                     so: Coder, isFinal: bool, ghost u: nat)
    returns (ghost b: Block)
    requires w.Valid() && w.bitcount < 8 && p < e <= |data| && StaticCoders(sl, so)
    requires Chosen(c, data, p, e) && AllValid(ChoiceItems(c, data, p, e))
    requires Tiles(data, p, ChoiceItems(c, data, p, e), e)
    requires |lf| == LITLEN_SYMS && |of| == OFFSET_SYMS && lf[END_SYM] == 0
    requires BlockFrequencies(ChoiceItems(c, data, p, e), lf[END_SYM := 1], of)
    requires Sum(lf) + 1 < HIGH_VALUES && Sum(of) < HIGH_VALUES
    requires u < w.end ==> |w.bits| <= 8 * u
    modifies w, w.out
    ensures w.Valid() && w.bitcount < 8
    ensures BlockMade(data, b) && b.start == p && b.end == e && b.items == ChoiceItems(c, data, p, e)
    ensures u + RoomFor(e - p) < w.end ==> |w.bits| <= 8 * (u + RoomFor(e - p))
    ensures w.next < w.end ==>
      && old(w.next) < w.end
      && w.bits == old(w.bits) + ShortestForm(|old(w.bits)|, isFinal, data, b)
      && Encodes(old(w.bits), data[..p], isFinal, w.bits, data[..e])
  {
    hide Encodes, Chosen, ChoiceItems, Tiles, AllValid, BlockFrequencies, StaticCoders, Sum, Hold, BlockMade,
      ShortestForm, StoredBlocks, StoredCost;
    ghost var before := |w.bits|;
    if u < w.end {
      NotFull(w, u);
      StoredWithin(|w.bits|, w.bitcount, u, e - p);
    }
    var bestCost;
    bestCost, b := CodeAndFlush(w, data, p, e, c, lf, of, sl, so, isFinal);
    if w.next < w.end {
      HoldLength(w.out[..w.next], w.bitbuf, w.bitcount, w.bits);
    }
  }

  lemma CompressedParts(w: BitWriter, data: seq<u8>, p: nat, bs: seq<Block>)
    requires Compressed(w, data, p, false, bs)
    ensures w.Valid() && w.bitcount < 8 && Chain(data, bs, p) && p <= |data|
    ensures w.next < w.end ==> Encodes([], [], false, w.bits, data[..p]) && w.bits == BlocksForm(data, bs, p)
    ensures Room(bs, p) < w.end ==> |w.bits| <= 8 * Room(bs, p)
  {
    hide Encodes, Chain, BlocksForm, Room, w.Valid;
  }

  lemma CompressedFrom(w: BitWriter, data: seq<u8>, p: nat, isFinal: bool, bs: seq<Block>)
    requires w.Valid() && w.bitcount < 8 && p <= |data| && Chain(data, bs, p)
    requires w.next < w.end ==> Encodes([], [], isFinal, w.bits, data[..p]) && w.bits == BlocksForm(data, bs, p)
    requires Room(bs, p) < w.end ==> |w.bits| <= 8 * Room(bs, p)
    ensures Compressed(w, data, p, isFinal, bs)
  {
    hide Encodes, Chain, BlocksForm, Room, w.Valid;
  }

  /** The bits of one block more. */
  lemma BitsMore(data: seq<u8>, p: nat, e: nat, isFinal: bool, bs: seq<Block>, b: Block, before: Bits, bits: Bits)
    requires p < e <= |data| && (isFinal <==> e == |data|) && Chain(data, bs, p)
    requires BlockMade(data, b) && b.start == p && b.end == e
    requires Encodes([], [], false, before, data[..p]) && before == BlocksForm(data, bs, p)
    requires bits == before + ShortestForm(|before|, isFinal, data, b)
    requires Encodes(before, data[..p], isFinal, bits, data[..e])
    ensures Chain(data, bs + [b], e)
    ensures Encodes([], [], isFinal, bits, data[..e]) && bits == BlocksForm(data, bs + [b], e)
  {
    hide Encodes, Chain, BlocksForm, BlockMade, ShortestForm;
    ChainMore(data, bs, b);
    EncodesThen([], [], before, data[..p], isFinal, bits, data[..e]);
  }

  /** Writes a block behind the others. */
  method FinishBlock(w: BitWriter, data: seq<u8>, p: nat, e: nat, c: Choice, lf: seq<nat>, of: seq<nat>, sl: Coder,
                     so: Coder, isFinal: bool, ghost bs: seq<Block>)
    returns (ghost b: Block)
    requires Compressed(w, data, p, false, bs) && p < e <= |data| && StaticCoders(sl, so)
    requires isFinal <==> e == |data|
    requires Chosen(c, data, p, e) && AllValid(ChoiceItems(c, data, p, e))
    requires Tiles(data, p, ChoiceItems(c, data, p, e), e)
    requires |lf| == LITLEN_SYMS && |of| == OFFSET_SYMS && lf[END_SYM] == 0
    requires BlockFrequencies(ChoiceItems(c, data, p, e), lf[END_SYM := 1], of)
    requires Sum(lf) + 1 < HIGH_VALUES && Sum(of) < HIGH_VALUES
    modifies w, w.out
    ensures Compressed(w, data, e, isFinal, bs + [b])
    ensures b.start == p && b.end == e && b.items == ChoiceItems(c, data, p, e)
  {
    hide Compressed, Encodes, Chosen, ChoiceItems, Tiles, AllValid, BlockFrequencies, StaticCoders, Sum, Chain,
      BlocksForm, BlockMade, ShortestForm, Room, RoomFor, w.Valid;
    ghost var before := w.bits;
    CompressedParts(w, data, p, bs);
    b := FlushWithin(w, data, p, e, c, lf, of, sl, so, isFinal, Room(bs, p));
    ChainMore(data, bs, b);
    RoomMore(bs, b, p, e);
    if w.next < w.end {
      BitsMore(data, p, e, isFinal, bs, b, before, w.bits);
    }
    CompressedFrom(w, data, e, isFinal, bs + [b]);
  }

  /** The codes of a block; the lengths of both are in one array. */
  method MakeBlockCodes(lf: seq<nat>, of: seq<nat>, lens: array<nat>, lcw: array<u32>, ocw: array<u32>)
    requires |lf| == LITLEN_SYMS == lcw.Length && |of| == OFFSET_SYMS == ocw.Length
    requires lens.Length == LITLEN_SYMS + OFFSET_SYMS && lcw != ocw && lcw as object != lens && ocw as object != lens
    requires Sum(lf) < HIGH_VALUES && Sum(of) < HIGH_VALUES
    modifies lens, lcw, ocw
    ensures Usable(lf, lens[..LITLEN_SYMS], lcw[..], MAX_LITLEN_LEN)
    ensures Usable(of, lens[LITLEN_SYMS..], ocw[..], MAX_OFFSET_LEN)
    ensures Made(lf, lens[..LITLEN_SYMS], MAX_LITLEN_LEN) && Made(of, lens[LITLEN_SYMS..], MAX_OFFSET_LEN)
  {
    hide Usable, Sum, Made;
    var ll, ol := new nat[LITLEN_SYMS], new nat[OFFSET_SYMS];
    EnoughCodewords();
    MakeCode(lf, MAX_LITLEN_LEN, ll, lcw);
    ghost var l, lc := ll[..], lcw[..];
    MakeCode(of, MAX_OFFSET_LEN, ol, ocw);
    ghost var o, oc := ol[..], ocw[..];
    assert ll[..] == l && lcw[..] == lc;
    forall k | 0 <= k < lens.Length {
      lens[k] := if k < LITLEN_SYMS then ll[k] else ol[k - LITLEN_SYMS];
    }
    assert lens[..LITLEN_SYMS] == l && lens[LITLEN_SYMS..] == o && lcw[..] == lc && ocw[..] == oc;
  }

  lemma EnoughCodewords()
    ensures Pow2(MAX_LITLEN_LEN) >= LITLEN_SYMS && Pow2(MAX_OFFSET_LEN) >= OFFSET_SYMS
  {
    assert Pow2(9) == 512;
    Pow2Monotone(9, 14);
    Pow2Monotone(9, 15);
  }

  // ---- the end of the stream

  /** Writes the last bits; nothing if the output is full. */
  method Finish(w: BitWriter) returns (size: nat)
    requires w.Valid() && w.bitcount < 8
    modifies w.out
    ensures size <= w.end && (size == 0 <==> w.next == w.end || |w.bits| == 0)
    ensures size > 0 ==> size <= w.out.Length && Packs(w.out[..size], w.bits) && Carries(w.out[..size], w.bits)
  {
    hide Hold, Packs, Carries;
    if w.next >= w.end {
      return 0;
    }
    HoldLength(w.out[..w.next], w.bitbuf, w.bitcount, w.bits);
    size := w.next;
    ghost var before := w.out[..w.next];
    if w.bitcount > 0 {
      LastByte(w.bitbuf, w.bitcount);
      w.out[size] := w.bitbuf % 256;
      size := size + 1;
      assert w.out[..size] == before + [w.bitbuf];
    }
    HoldPacks(before, w.bitbuf, w.bitcount, w.bits);
    PacksCarries(w.out[..size], w.bits);
  }

  lemma LastByte(bitbuf: nat, bitcount: nat)
    requires bitbuf < Pow2(bitcount) && bitcount < 8
    ensures bitbuf < 256
  {
    assert Pow2(8) == 256;
    Pow2Monotone(bitcount, 8);
  }

  lemma HoldPacks(bytes: seq<u8>, bitbuf: nat, bitcount: nat, bits: Bits)
    requires Hold(bytes, bitbuf, bitcount, bits) && bitcount < 8
    ensures bitcount == 0 ==> Packs(bytes, bits)
    ensures bitcount > 0 ==> bitbuf < 256 && Packs(bytes + [bitbuf], bits)
  {
    hide Value, Le;
    if bitcount == 0 {
      assert bitbuf == 0;
    } else {
      LastByte(bitbuf, bitcount);
      ValueAppend(bytes, [bitbuf]);
      ValueOne(bitbuf);
    }
  }

  // ---- the bound

  /** The size that is always enough for n bytes. */
  function CompressBound(n: nat): nat {
    var maxBlocks := (n + MIN_BLOCK_LENGTH - 1) / MIN_BLOCK_LENGTH;
    5 * (if maxBlocks < 1 then 1 else maxBlocks) + n + 1 + OUTPUT_END_PADDING
  }

  /** Blocks of at least the minimum length need no more stored blocks than the bound allows. */
  lemma BlocksWithinBound(p: nat, blocks: nat, n: nat)
    requires MIN_BLOCK_LENGTH * blocks <= p < n
    ensures 5 * (blocks + StoredBlocks(n - p)) + n < CompressBound(n) - OUTPUT_END_PADDING
  {
    var m := n - p;
    assert MAX_STORED * (StoredBlocks(m) - 1) < m;
    assert MIN_BLOCK_LENGTH * (StoredBlocks(m) - 1) <= MAX_STORED * (StoredBlocks(m) - 1);
    assert MIN_BLOCK_LENGTH * (blocks + StoredBlocks(m) - 1) < n;
    assert blocks + StoredBlocks(m) <= (n + MIN_BLOCK_LENGTH - 1) / MIN_BLOCK_LENGTH;
  }

  /** A block of at least the minimum length. */
  lemma LongBlock(p: nat, blocks: nat, e: nat)
    requires MIN_BLOCK_LENGTH * blocks <= p && p + MIN_BLOCK_LENGTH <= e
    ensures MIN_BLOCK_LENGTH * (blocks + StoredBlocks(e - p)) <= e
  {
    var m := e - p;
    assert MAX_STORED * (StoredBlocks(m) - 1) < m;
    if StoredBlocks(m) >= 2 {
      assert MIN_BLOCK_LENGTH * StoredBlocks(m) <= MAX_STORED * (StoredBlocks(m) - 1);
    }
  }

  // ---- the way back

  /** Output that carries the blocks of the data decompresses to the data. */
  method RoundTrip(d: Decompressor, compressed: seq<u8>, out: array<u8>, ghost data: seq<u8>, ghost bits: Bits)
    returns (result: Result, inBytes: nat, outBytes: nat)
    requires Carries(compressed, bits) && Encodes([], [], true, bits, data)
    requires d.Valid() && |data| <= out.Length && d.Apart(out)
    modifies d, out, d.precodeTable, d.litlenTable, d.offsetTable, d.sortedSyms, d.lens
    ensures d.Valid() && result == Success && outBytes == |data| && out[..outBytes] == data
    ensures 8 * inBytes - 8 < |bits| <= 8 * inBytes
  {
    hide Carries, Inflates;
    assert Inflates(compressed, 0, [], |bits|, data);
    CarriesLength(compressed, bits);
    Fits(compressed, |bits|, data, out.Length);
    result, inBytes, outBytes := d.Decompress(compressed, out, out.Length, true);
    ghost var end: nat :| Inflates(compressed, 0, [], end, out[..outBytes]) && 8 * inBytes - 8 < end <= 8 * inBytes;
    InflatesUnique(compressed, 0, [], |bits|, data, end, out[..outBytes]);
  }

  lemma Fits(compressed: seq<u8>, end: nat, data: seq<u8>, outAvail: nat)
    requires Inflates(compressed, 0, [], end, data) && end <= 8 * |compressed| && |data| <= outAvail
    ensures !NoStream(GenericItem.BadData, compressed, outAvail) && !NoStream(GenericItem.NoSpace, compressed, outAvail)
  {
    hide Inflates;
  }

  lemma CarriesLength(out: seq<u8>, bits: Bits)
    requires Carries(out, bits)
    ensures |bits| <= 8 * |out|
  {
  }
}
