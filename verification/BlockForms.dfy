/** The three forms of a block in bits, and which of them is written. */
module BlockForms {
  import opened Bits
  import opened BitBuffer
  import opened BitWriter
  import opened Slots
  import opened Items
  import opened HuffmanCode
  import opened BuildDecodeTable
  import opened DecodeLens
  import opened WriteBlock
  import opened Precode
  import opened Header
  import opened WriteHeader
  import opened StaticCodes
  import opened Decompress
  import opened Costs
  import opened Deflate

  const MAX_STORED: nat := 0xFFFF

  // ---- stored

  /** What n bytes cost when they are stored behind `pos` bits; 3 bits are not counted. */
  function StoredCost(pos: nat, n: nat): nat
    requires n > 0
  {
    Padding(pos + 3) + 32 + 40 * ((n + MAX_STORED - 1) / MAX_STORED - 1) + 8 * n
  }

  /** The cost of one of the stored blocks and of the others. */
  lemma StoredCostOne(pos: nat, n: nat)
    requires n > 0
    ensures n <= MAX_STORED ==> StoredCost(pos, n) == Padding(pos + 3) + 32 + 8 * n
    ensures n > MAX_STORED ==>
      var pos' := pos + 3 + Padding(pos + 3) + 32 + 8 * MAX_STORED;
      3 + StoredCost(pos, n) == pos' - pos + 3 + StoredCost(pos', n - MAX_STORED)
  {
    if n > MAX_STORED {
      assert (n + MAX_STORED - 1) / MAX_STORED == (n - MAX_STORED + MAX_STORED - 1) / MAX_STORED + 1;
    } else {
      assert (n + MAX_STORED - 1) / MAX_STORED == 1;
    }
  }

  /** The bytes in stored blocks of 65535 bytes and one of the rest. */
  ghost function StoredForm(pos: nat, isFinal: bool, b: seq<u8>): Bits
    decreases |b|
  {
    if |b| <= MAX_STORED then StoredBits(pos, isFinal, b)
    else
      var first := StoredBits(pos, false, b[..MAX_STORED]);
      first + StoredForm(pos + |first|, isFinal, b[MAX_STORED..])
  }

  lemma {:induction false} StoredFormSize(pos: nat, isFinal: bool, b: seq<u8>)
    requires b != []
    ensures |StoredForm(pos, isFinal, b)| == 3 + StoredCost(pos, |b|)
    decreases |b|
  {
    hide StoredBits, StoredCost, Padding;
    StoredCostOne(pos, |b|);
    if |b| > MAX_STORED {
      StoredFormSize(pos + |StoredBits(pos, false, b[..MAX_STORED])|, isFinal, b[MAX_STORED..]);
    }
  }

  // ---- with codes

  ghost predicate AllValid(items: seq<Item>) {
    forall k :: 0 <= k < |items| ==> ValidItem(items[k])
  }

  lemma StaticEncodable(items: seq<Item>)
    requires AllValid(items)
    ensures AllEncodable(StaticLitlen(), StaticOffset(), items)
  {
    hide LengthSlot, OffsetSlot, StaticLitlen, StaticOffset;
    StaticLengths();
  }

  ghost function StaticForm(isFinal: bool, items: seq<Item>): Bits
    requires AllValid(items)
  {
    StaticEncodable(items);
    TypeField(isFinal, 1) + BlockBits(StaticLitlen(), StaticOffset(), items)
  }

  ghost function DynamicForm(isFinal: bool, h: HeaderInfo, pre: seq<PreItem>, ll: seq<nat>, ol: seq<nat>,
                             items: seq<Item>): Bits
    requires HeaderOf(h, pre, ll + ol) && AllEncodable(ll, ol, items)
  {
    TypeField(isFinal, 2) + HeaderBits(h.numLitlen, h.numOffset, h.numExplicit, h.preLens, pre)
      + BlockBits(ll, ol, items)
  }

  /** The bytes from start to end, and what they are written as unless they are stored: the items that stand for
      them, the frequencies and the codeword lengths of their symbols, and the header for these. */
  datatype Block = Block(start: nat, end: nat, items: seq<Item>, lf: seq<nat>, of: seq<nat>, lens: seq<nat>,
                         header: HeaderInfo, pre: seq<PreItem>)

  /** The codeword lengths that the header gives. */
  ghost function LitlenPart(b: Block): seq<nat>
    requires b.header.numLitlen <= |b.lens|
  {
    b.lens[..b.header.numLitlen]
  }

  ghost function OffsetPart(b: Block): seq<nat>
    requires LITLEN_SYMS + b.header.numOffset <= |b.lens|
  {
    b.lens[LITLEN_SYMS..LITLEN_SYMS + b.header.numOffset]
  }

  /** The codes are made from the frequencies, and the header from the codes. */
  ghost predicate BlockMade(data: seq<u8>, b: Block) {
    && b.start < b.end <= |data| && AllValid(b.items) && Tiles(data, b.start, b.items, b.end)
    && BlockFrequencies(b.items, b.lf, b.of) && OwnHeader(b.header, b.pre, b.lens)
    && Made(b.lf, b.lens[..LITLEN_SYMS], MAX_LITLEN_LEN) && Made(b.of, b.lens[LITLEN_SYMS..], MAX_OFFSET_LEN)
    && AllEncodable(LitlenPart(b), OffsetPart(b), b.items)
  }

  ghost function OwnForm(isFinal: bool, data: seq<u8>, b: Block): Bits
    requires BlockMade(data, b)
  {
    DynamicForm(isFinal, b.header, b.pre, LitlenPart(b), OffsetPart(b), b.items)
  }

  // ---- the form that is written

  /** The shortest of the three forms; of two that are as long the stored one, or else the static one. */
  ghost function ShortestForm(pos: nat, isFinal: bool, data: seq<u8>, b: Block): (r: Bits)
    requires BlockMade(data, b)
    ensures |r| <= |OwnForm(isFinal, data, b)| && |r| <= |StaticForm(isFinal, b.items)|
    ensures |r| <= |StoredForm(pos, isFinal, data[b.start..b.end])|
  {
    var own, fixed := OwnForm(isFinal, data, b), StaticForm(isFinal, b.items);
    var stored := StoredForm(pos, isFinal, data[b.start..b.end]);
    if |own| < |fixed| && |own| < |stored| then own else if |fixed| < |stored| then fixed else stored
  }

  /** The blocks cover the first p bytes, one after the other. */
  ghost predicate Chain(data: seq<u8>, bs: seq<Block>, p: nat) {
    if bs == [] then p == 0
    else
      var b := bs[|bs| - 1];
      b.end == p && BlockMade(data, b) && Chain(data, bs[..|bs| - 1], b.start)
  }

  /** The bits of the blocks; the one that reaches the end of the data is the final one. */
  ghost function BlocksForm(data: seq<u8>, bs: seq<Block>, p: nat): Bits
    requires Chain(data, bs, p)
  {
    if bs == [] then []
    else
      var b := bs[|bs| - 1];
      var before := BlocksForm(data, bs[..|bs| - 1], b.start);
      before + ShortestForm(|before|, b.end == |data|, data, b)
  }

  lemma ChainMore(data: seq<u8>, bs: seq<Block>, b: Block)
    requires Chain(data, bs, b.start) && BlockMade(data, b)
    ensures Chain(data, bs + [b], b.end)
    ensures var before := BlocksForm(data, bs, b.start);
      BlocksForm(data, bs + [b], b.end) == before + ShortestForm(|before|, b.end == |data|, data, b)
  {
    hide BlockMade, ShortestForm;
    assert (bs + [b])[..|bs|] == bs;
  }
}
