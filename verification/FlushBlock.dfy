/** Choosing the cheapest kind of block and writing it. */
module FlushBlock {
  import opened Arith
  import opened Packed
  import opened Bits
  import opened LengthCounts
  import opened Canonical
  import opened Words
  import opened BitBuffer
  import opened BitWriter
  import opened BuildDecodeTable
  import opened Slots
  import opened Items
  import opened WriteBlock
  import opened UsableCode
  import opened Precode
  import opened DecodeLens
  import opened Header
  import opened WriteHeader
  import opened StaticCodes
  import opened Decompress
  import opened Costs
  import opened Deflate
  import opened HuffmanCode
  import opened BlockForms

  // ---- the costs

  /** What a block in the codes ll and ol costs. */
  ghost function CodedCost(ll: seq<nat>, ol: seq<nat>, lf: seq<nat>, of: seq<nat>): nat
    requires |ll| >= 286 && |ol| >= 30 && |lf| == 288 && |of| == 32
  {
    Dot(lf, LitlenWeights(ll), 286) + Dot(of, OffsetWeights(ol), 30)
  }

  lemma DotStep(f: seq<nat>, w: seq<nat>, n: nat, x: nat)
    requires n < |f| && n < |w| && x == f[n] * w[n]
    ensures Dot(f, w, n + 1) == Dot(f, w, n) + x
  {
  }

  lemma StaticWeights(s: nat)
    requires s < 286
    ensures LitlenWeights(StaticLitlen())[s] ==
      if s < 144 then 8 else if s < 256 then 9 else if s == 256 then 7
      else StaticLitlen()[s] + LENGTH_EXTRA[s - FIRST_LENGTH_SYM]
    ensures s < 30 ==> OffsetWeights(StaticOffset())[s] == OFFSET_EXTRA[s] + 5
  {
    StaticLengths();
  }

  /** The precode part of the header. */
  method PrecodeCost(h: HeaderInfo) returns (cost: nat)
    requires |h.preFreqs| == PRECODE_SYMS == |h.preLens|
    ensures cost == 14 + 3 * h.numExplicit + Dot(h.preFreqs, PreWeights(h.preLens), PRECODE_SYMS)
  {
    ghost var w := PreWeights(h.preLens);
    cost := 5 + 5 + 4 + 3 * h.numExplicit;
    for sym := 0 to PRECODE_SYMS
      invariant cost == 14 + 3 * h.numExplicit + Dot(h.preFreqs, w, sym)
    {
      var x := h.preFreqs[sym] * (ExtraBitsOf(sym) + h.preLens[sym]);
      DotStep(h.preFreqs, w, sym, x);
      cost := cost + x;
    }
  }

  /** Literals and the end-of-block symbol, in the block's own codes and in the static ones. */
  method LiteralCosts(ll: seq<nat>, lf: seq<nat>) returns (dynamicCost: nat, staticCost: nat)
    requires |ll| == 288 == |lf| && lf[END_SYM] == 1
    ensures dynamicCost == Dot(lf, LitlenWeights(ll), 257)
    ensures staticCost == Dot(lf, LitlenWeights(StaticLitlen()), 257)
  {
    hide Dot, StaticLitlen;
    ghost var w, v := LitlenWeights(ll), LitlenWeights(StaticLitlen());
    dynamicCost, staticCost := 0, 0;
    NoDot(lf, w);
    NoDot(lf, v);
    for sym := 0 to 256
      invariant dynamicCost == Dot(lf, w, sym) && staticCost == Dot(lf, v, sym)
    {
      var x, y := lf[sym] * ll[sym], lf[sym] * if sym < 144 then 8 else 9;
      StaticWeights(sym);
      DotStep(lf, w, sym, x);
      DotStep(lf, v, sym, y);
      dynamicCost, staticCost := dynamicCost + x, staticCost + y;
    }
    StaticWeights(END_SYM);
    DotStep(lf, w, END_SYM, ll[END_SYM]);
    DotStep(lf, v, END_SYM, 7);
    dynamicCost, staticCost := dynamicCost + ll[END_SYM], staticCost + 7;
  }

  lemma NoDot(f: seq<nat>, w: seq<nat>)
    ensures Dot(f, w, 0) == 0
  {
  }

  /** The whole costs of the items. */
  method ItemCosts(ll: seq<nat>, ol: seq<nat>, sl: seq<nat>, lf: seq<nat>, of: seq<nat>)
    returns (dynamicCost: nat, staticCost: nat)
    requires |ll| == 288 == |lf| && |ol| == 32 == |of| && lf[END_SYM] == 1
    requires |sl| == 288 && forall s :: 0 <= s < 288 ==> sl[s] == StaticLitlen()[s]
    ensures dynamicCost == CodedCost(ll, ol, lf, of)
    ensures staticCost == CodedCost(StaticLitlen(), StaticOffset(), lf, of)
  {
    hide Dot, StaticLitlen, StaticOffset, LitlenWeights, OffsetWeights;
    ghost var w, v := LitlenWeights(ll), LitlenWeights(StaticLitlen());
    dynamicCost, staticCost := LiteralCosts(ll, lf);
    for sym := FIRST_LENGTH_SYM to 286
      invariant dynamicCost == Dot(lf, w, sym) && staticCost == Dot(lf, v, sym)
    {
      var extra := LENGTH_EXTRA[sym - FIRST_LENGTH_SYM];
      var x, y := lf[sym] * (extra + ll[sym]), lf[sym] * (extra + sl[sym]);
      StaticWeights(sym);
      LengthWeight(ll, sym);
      DotStep(lf, w, sym, x);
      DotStep(lf, v, sym, y);
      dynamicCost, staticCost := dynamicCost + x, staticCost + y;
    }
    var x, y := OffsetCosts(ol, of);
    dynamicCost, staticCost := dynamicCost + x, staticCost + y;
  }

  lemma LengthWeight(ll: seq<nat>, s: nat)
    requires |ll| == 288 && END_SYM < s < 286
    ensures LitlenWeights(ll)[s] == LENGTH_EXTRA[s - FIRST_LENGTH_SYM] + ll[s]
  {
  }

  method OffsetCosts(ol: seq<nat>, of: seq<nat>) returns (dynamicCost: nat, staticCost: nat)
    requires |ol| == 32 == |of|
    ensures dynamicCost == Dot(of, OffsetWeights(ol), 30)
    ensures staticCost == Dot(of, OffsetWeights(StaticOffset()), 30)
  {
    hide Dot, StaticLitlen, StaticOffset;
    ghost var w, v := OffsetWeights(ol), OffsetWeights(StaticOffset());
    dynamicCost, staticCost := 0, 0;
    NoDot(of, w);
    NoDot(of, v);
    for sym := 0 to OFFSET_SLOTS
      invariant dynamicCost == Dot(of, w, sym) && staticCost == Dot(of, v, sym)
    {
      var x, y := of[sym] * (OFFSET_EXTRA[sym] + ol[sym]), of[sym] * (OFFSET_EXTRA[sym] + 5);
      StaticWeights(sym);
      DotStep(of, w, sym, x);
      DotStep(of, v, sym, y);
      dynamicCost, staticCost := dynamicCost + x, staticCost + y;
    }
  }

  // ---- stored blocks

  /** Writes the bytes from p to e as stored blocks of at most 65535 bytes. */
  method FlushStored(w: BitWriter, data: seq<u8>, p: nat, e: nat, isFinal: bool)
    requires w.Valid() && w.bitcount < 8 && p < e <= |data|
    modifies w, w.out
    ensures w.Valid() && w.bitcount < 8
    ensures |w.bits| <= |old(w.bits)| + 3 + StoredCost(|old(w.bits)|, e - p)
    ensures w.next < w.end ==>
      && w.bits == old(w.bits) + StoredForm(|old(w.bits)|, isFinal, data[p..e])
      && Encodes(old(w.bits), data[..p], isFinal, w.bits, data[..e])
  {
    hide StoredBits, Encodes, Hold, StoredForm;
    var next: nat, more := p, true;
    ghost var start := w.bits;
    ghost var goal := start + StoredForm(|start|, isFinal, data[p..e]);
    StoredFormSize(|start|, isFinal, data[p..e]);
    NothingEncoded(start, data[..p]);
    while more
      invariant p <= next <= e && w.Valid() && w.bitcount < 8 && (more ==> next < e)
      invariant more ==> w.bits + StoredForm(|w.bits|, isFinal, data[next..e]) == goal
      invariant more ==> Encodes(start, data[..p], false, w.bits, data[..next])
      invariant !more ==> next == e && w.bits == goal
      invariant !more ==> Encodes(start, data[..p], isFinal, w.bits, data[..e])
      decreases e - next, if more then 1 else 0
    {
      var len := if e - next <= MAX_STORED then e - next else MAX_STORED;
      var last := isFinal && e - next <= MAX_STORED;
      ghost var before := w.bits;
      var ok := w.StoredBlock(last, data[next..next + len]);
      StoredEncodes(before, data[..next], last, data[next..next + len]);
      assert data[..next] + data[next..next + len] == data[..next + len];
      EncodesThen(start, data[..p], before, data[..next], last, w.bits, data[..next + len]);
      StoredFormStep(before, isFinal, data[next..e]);
      assert data[next..e][..len] == data[next..next + len] && data[next..e][len..] == data[next + len..e];
      if !ok {
        return;
      }
      next := next + len;
      more := next != e;
    }
  }

  /** The first of the stored blocks and the others. */
  lemma StoredFormStep(bits: Bits, isFinal: bool, b: seq<u8>)
    ensures |b| <= MAX_STORED ==> bits + StoredForm(|bits|, isFinal, b) == bits + StoredBits(|bits|, isFinal, b)
    ensures |b| > MAX_STORED ==>
      var bits' := bits + StoredBits(|bits|, false, b[..MAX_STORED]);
      bits + StoredForm(|bits|, isFinal, b) == bits' + StoredForm(|bits'|, isFinal, b[MAX_STORED..])
  {
    hide StoredBits;
  }

  // ---- the symbols of the block have codewords

  lemma OccurringEncodable(items: seq<Item>, lf: seq<nat>, of: seq<nat>, ll: seq<nat>, ol: seq<nat>)
    requires BlockFrequencies(items, lf, of) && AllValid(items)
    requires forall s :: 0 <= s < 288 && lf[s] > 0 ==> HasCode(ll, s)
    requires forall s :: 0 <= s < 32 && of[s] > 0 ==> HasCode(ol, s)
    ensures AllEncodable(ll, ol, items)
  {
    hide Count, HasCode, LengthSlot, OffsetSlot;
    forall k | 0 <= k < |items| ensures Encodable(ll, ol, items[k]) {
      ItemOccurs(items, k);
      assert lf[LitlenSym(items[k])] > 0;
    }
    assert lf[END_SYM] > 0;
  }

  // ---- the block

  /** What is known when a block is finished: its items stand for its bytes, the frequencies are
      theirs, and there are codes for them. */
  ghost predicate Ready(data: seq<u8>, p: nat, e: nat, c: Choice, lf: seq<nat>, of: seq<nat>, lens: seq<nat>,
                        lcw: seq<u32>, ocw: seq<u32>) {
    && p < e <= |data| && Chosen(c, data, p, e)
    && AllValid(ChoiceItems(c, data, p, e)) && Tiles(data, p, ChoiceItems(c, data, p, e), e)
    && BlockFrequencies(ChoiceItems(c, data, p, e), lf, of)
    && |lens| == LITLEN_SYMS + OFFSET_SYMS && |lcw| == LITLEN_SYMS && |ocw| == OFFSET_SYMS
    && Usable(lf, lens[..LITLEN_SYMS], lcw, MAX_LITLEN_LEN) && Usable(of, lens[LITLEN_SYMS..], ocw, MAX_OFFSET_LEN)
    && Made(lf, lens[..LITLEN_SYMS], MAX_LITLEN_LEN) && Made(of, lens[LITLEN_SYMS..], MAX_OFFSET_LEN)
  }

  ghost predicate StaticCoders(sl: Coder, so: Coder) {
    && |sl.lens| == LITLEN_SYMS && |so.lens| == OFFSET_SYMS
    && Codewords(StaticLitlen(), sl, MAX_LITLEN_LEN) && Codewords(StaticOffset(), so, MAX_OFFSET_LEN)
  }

  /** Writes the block with the static codes. */
  method FlushStatic(w: BitWriter, data: seq<u8>, p: nat, e: nat, c: Choice, sl: Coder, so: Coder, isFinal: bool)
    requires w.Valid() && w.bitcount < 8 && p < e <= |data| && Chosen(c, data, p, e) && StaticCoders(sl, so)
    requires AllValid(ChoiceItems(c, data, p, e)) && Tiles(data, p, ChoiceItems(c, data, p, e), e)
    modifies w, w.out
    ensures w.Valid() && w.bitcount < 8
    ensures w.bits == old(w.bits) + StaticForm(isFinal, ChoiceItems(c, data, p, e))
    ensures Encodes(old(w.bits), data[..p], isFinal, w.bits, data[..e])
  {
    hide Chosen, ChoiceItems, BlockBits, Encodes, Codewords, Tiles, AllValid, AllEncodable, StaticLitlen, StaticOffset,
      Front;
    ghost var start, items := w.bits, ChoiceItems(c, data, p, e);
    TypeSmall();
    w.AddBits(if isFinal then 1 else 0, 1);
    w.AddBits(1, 2);
    w.FlushBits();
    StaticEncodable(items);
    WriteItems(w, data, c, p, e, sl, so, StaticLitlen(), StaticOffset());
    TilesExpand(data, p, items, e);
    StaticEncodes(start, data[..p], isFinal, items);
    assert w.bits == start + TypeField(isFinal, 1) + BlockBits(StaticLitlen(), StaticOffset(), items);
    assert w.bits == start + StaticForm(isFinal, items);
  }

  lemma TypeSmall()
    ensures Pow2(1) == 2 && Pow2(2) == 4
  {
  }

  /** The header encodes the lengths ll and ol; the coders hold what is stored now, which is right for them. */
  ghost predicate HeadsBlock(h: HeaderInfo, pre: seq<PreItem>, ll: seq<nat>, ol: seq<nat>, lc: Coder, oc: Coder,
                        items: seq<Item>) {
    && HeaderOf(h, pre, ll + ol) && |ll| == h.numLitlen && |ol| == h.numOffset
    && Accepted(ll, MAX_LEN) && Accepted(ol, MAX_LEN)
    && |lc.lens| == LITLEN_SYMS && |oc.lens| == OFFSET_SYMS
    && Codewords(ll, lc, MAX_LITLEN_LEN) && Codewords(ol, oc, MAX_OFFSET_LEN) && AllEncodable(ll, ol, items)
  }

  /** What is known once the header has been computed. */
  ghost predicate Headed(data: seq<u8>, b: Block, lc: Coder, oc: Coder) {
    BlockMade(data, b) && HeadsBlock(b.header, b.pre, LitlenPart(b), OffsetPart(b), lc, oc, b.items)
  }

  /** Writes the block with its own codes. */
  method FlushDynamic(w: BitWriter, data: seq<u8>, p: nat, e: nat, c: Choice, h: HeaderInfo, lc: Coder, oc: Coder,
                      isFinal: bool, ghost pre: seq<PreItem>, ghost ll: seq<nat>, ghost ol: seq<nat>)
    requires w.Valid() && w.bitcount < 8 && p < e <= |data| && Chosen(c, data, p, e)
    requires HeadsBlock(h, pre, ll, ol, lc, oc, ChoiceItems(c, data, p, e))
    requires Tiles(data, p, ChoiceItems(c, data, p, e), e)
    modifies w, w.out
    ensures w.Valid() && w.bitcount < 8
    ensures w.bits == old(w.bits) + DynamicForm(isFinal, h, pre, ll, ol, ChoiceItems(c, data, p, e))
    ensures Encodes(old(w.bits), data[..p], isFinal, w.bits, data[..e])
  {
    hide Chosen, ChoiceItems, BlockBits, HeaderBits, Encodes, Codewords, Tiles, AllEncodable, Front, Accepted,
      ExpandsTo, NoneStoredFrom, HeaderParts;
    ghost var start, items := w.bits, ChoiceItems(c, data, p, e);
    TypeSmall();
    w.AddBits(if isFinal then 1 else 0, 1);
    w.AddBits(2, 2);
    WriteHeader.WriteHeader(w, h, pre, ll + ol);
    WriteItems(w, data, c, p, e, lc, oc, ll, ol);
    TilesExpand(data, p, items, e);
    DynamicEncodes(start, data[..p], isFinal, items, ll, ol, h.numLitlen, h.numOffset, h.numExplicit, h.preLens, pre);
    assert w.bits == start + TypeField(isFinal, 2) + HeaderBits(h.numLitlen, h.numOffset, h.numExplicit, h.preLens, pre)
      + BlockBits(ll, ol, items);
    assert w.bits == start + DynamicForm(isFinal, h, pre, ll, ol, items);
  }

  /** The computed cost is the size without the bits of the type. */
  lemma DynamicCostIs(h: HeaderInfo, pre: seq<PreItem>, ll: seq<nat>, ol: seq<nat>, lc: Coder, oc: Coder,
                      items: seq<Item>, lf: seq<nat>, of: seq<nat>, isFinal: bool)
    requires HeadsBlock(h, pre, ll, ol, lc, oc, items) && BlockFrequencies(items, lf, of)
    ensures |h.preFreqs| == PRECODE_SYMS == |h.preLens| && lf[END_SYM] == 1
    ensures |DynamicForm(isFinal, h, pre, ll, ol, items)| == 3 +
      14 + 3 * h.numExplicit + Dot(h.preFreqs, PreWeights(h.preLens), PRECODE_SYMS)
        + CodedCost(lc.lens, oc.lens, lf, of)
  {
    hide Accepted, AllEncodable, ExpandsTo, Dot, BlockBits, Count, PreWeights, LitlenWeights, OffsetWeights,
      PreItemsBits, NoneStoredFrom, Code;
    PreCost(h.preLens, pre, h.preFreqs);
    BlockCost(ll, ol, items, lf, of, lc.lens, oc.lens);
    EndOccursOnce(items, lf, of);
  }

  lemma HeadsBlockLengths(h: HeaderInfo, pre: seq<PreItem>, ll: seq<nat>, ol: seq<nat>, lc: Coder, oc: Coder,
                     items: seq<Item>)
    requires HeadsBlock(h, pre, ll, ol, lc, oc, items)
    ensures |lc.lens| == LITLEN_SYMS && |oc.lens| == OFFSET_SYMS
  {
  }

  lemma EndOccursOnce(items: seq<Item>, lf: seq<nat>, of: seq<nat>)
    requires BlockFrequencies(items, lf, of)
    ensures lf[END_SYM] == 1
  {
    hide Count;
    EndIsNoItem(items);
    NoSuchSymbol(LitlenSyms(items), END_SYM);
  }

  lemma StaticCostIs(items: seq<Item>, lf: seq<nat>, of: seq<nat>, isFinal: bool)
    requires AllValid(items) && BlockFrequencies(items, lf, of) && |lf| == LITLEN_SYMS && |of| == OFFSET_SYMS
    ensures |StaticForm(isFinal, items)| == 3 + CodedCost(StaticLitlen(), StaticOffset(), lf, of)
  {
    hide AllValid, AllEncodable, Dot, BlockBits, Count, LitlenWeights, OffsetWeights, StaticLitlen, StaticOffset,
      BlockFrequencies;
    StaticEncodable(items);
    BlockCost(StaticLitlen(), StaticOffset(), items, lf, of, StaticLitlen(), StaticOffset());
  }

  /** Computing the header from the codes of the block. */
  method PrepareHeader(lens: array<nat>, lcw: seq<u32>, ocw: seq<u32>, ghost data: seq<u8>, ghost p: nat, ghost e: nat,
                       ghost items: seq<Item>, ghost lf: seq<nat>, ghost of: seq<nat>)
    returns (h: HeaderInfo, lc: Coder, oc: Coder, ghost b: Block)
    requires lens.Length == LITLEN_SYMS + OFFSET_SYMS && |lcw| == LITLEN_SYMS && |ocw| == OFFSET_SYMS
    requires Usable(lf, lens[..LITLEN_SYMS], lcw, MAX_LITLEN_LEN)
    requires Usable(of, lens[LITLEN_SYMS..], ocw, MAX_OFFSET_LEN)
    requires Made(lf, lens[..LITLEN_SYMS], MAX_LITLEN_LEN) && Made(of, lens[LITLEN_SYMS..], MAX_OFFSET_LEN)
    requires p < e <= |data| && BlockFrequencies(items, lf, of) && AllValid(items) && Tiles(data, p, items, e)
    modifies lens
    ensures Headed(data, b, lc, oc) && b.start == p && b.end == e && b.items == items && b.lf == lf && b.of == of
    ensures b.lens == old(lens[..]) && b.header == h
    ensures lens[..] == AfterHeader(old(lens[..]), h.numLitlen, h.numOffset)
  {
    hide HeaderOf, BlockFrequencies, Usable, Accepted, Codewords, AllValid, AllEncodable, Made, Tiles, EachLongest;
    ghost var before := lens[..];
    LensSmallEnough(lf, lens[..LITLEN_SYMS], lcw, MAX_LITLEN_LEN);
    LensSmallEnough(of, lens[LITLEN_SYMS..], ocw, MAX_OFFSET_LEN);
    assert forall k :: 0 <= k < LITLEN_SYMS ==> lens[k] == lens[..LITLEN_SYMS][k];
    assert forall k :: LITLEN_SYMS <= k < lens.Length ==> lens[k] == lens[LITLEN_SYMS..][k - LITLEN_SYMS];
    ghost var pre;
    h, pre := PrecomputeHeader(lens);
    b := Block(p, e, items, lf, of, before, h, pre);
    lc, oc := Coder(lens[..LITLEN_SYMS], lcw), Coder(lens[LITLEN_SYMS..], ocw);
    HeadedCodes(before, lcw, ocw, items, lf, of, h.numLitlen, h.numOffset, LitlenPart(b), OffsetPart(b), lc, oc);
  }

  lemma LensSmallEnough(freqs: seq<nat>, lens: seq<nat>, cw: seq<u32>, max: nat)
    requires Usable(freqs, lens, cw, max) && max <= 15
    ensures forall k :: 0 <= k < |lens| ==> lens[k] < REPEAT
  {
  }

  /** The codes are those of the trimmed lengths, and the stored lengths are still right for them. */
  lemma HeadedCodes(before: seq<nat>, lcw: seq<u32>, ocw: seq<u32>, items: seq<Item>, lf: seq<nat>, of: seq<nat>,
                    nl: nat, no: nat, ll: seq<nat>, ol: seq<nat>, lc: Coder, oc: Coder)
    requires |before| == LITLEN_SYMS + OFFSET_SYMS && nl <= LITLEN_SYMS && no <= OFFSET_SYMS
    requires Usable(lf, before[..LITLEN_SYMS], lcw, MAX_LITLEN_LEN)
    requires Usable(of, before[LITLEN_SYMS..], ocw, MAX_OFFSET_LEN)
    requires |lcw| == LITLEN_SYMS && |ocw| == OFFSET_SYMS && BlockFrequencies(items, lf, of) && AllValid(items)
    requires forall k :: nl <= k < LITLEN_SYMS ==> before[k] == 0
    requires forall k :: LITLEN_SYMS + no <= k < |before| ==> before[k] == 0
    requires ll == before[..nl] && ol == before[LITLEN_SYMS..LITLEN_SYMS + no]
    requires lc == Coder(AfterHeader(before, nl, no)[..LITLEN_SYMS], lcw)
    requires oc == Coder(AfterHeader(before, nl, no)[LITLEN_SYMS..], ocw)
    ensures Accepted(ll, MAX_LEN) && Accepted(ol, MAX_LEN)
    ensures Codewords(ll, lc, MAX_LITLEN_LEN) && Codewords(ol, oc, MAX_OFFSET_LEN) && AllEncodable(ll, ol, items)
  {
    hide Usable, Accepted, Codewords, AllEncodable, BlockFrequencies, AllValid, HasCode;
    var l, o := before[..LITLEN_SYMS], before[LITLEN_SYMS..];
    assert l[..nl] == ll && o[..no] == ol;
    TrimUsable(lf, l, lcw, MAX_LITLEN_LEN, nl);
    TrimUsable(of, o, ocw, MAX_OFFSET_LEN, no);
    AcceptedLonger(ll, MAX_LITLEN_LEN, MAX_LEN);
    RestoredIff(before, nl, no);
    FrequenciesLength(items, lf, of);
    OccurringEncodable(items, lf, of, ll, ol);
    StillRight(ll, Coder(l, lcw), lc, MAX_LITLEN_LEN);
    StillRight(ol, Coder(o, ocw), oc, MAX_OFFSET_LEN);
  }

  lemma FrequenciesLength(items: seq<Item>, lf: seq<nat>, of: seq<nat>)
    requires BlockFrequencies(items, lf, of)
    ensures |lf| == 288 && |of| == 32
  {
  }

  lemma StillRight(lens: seq<nat>, c: Coder, c': Coder, max: nat)
    requires Codewords(lens, c, max) && c'.codewords == c.codewords && |c'.lens| == |c.lens|
    requires c'.lens[..|lens|] == c.lens[..|lens|]
    ensures Codewords(lens, c', max)
  {
    hide Code, Le;
    forall s | 0 <= s < |lens| && lens[s] > 0 ensures c'.lens[s] == lens[s] {
      assert c'.lens[..|lens|][s] == c.lens[..|lens|][s];
    }
  }

  lemma StaticAgree(sl: Coder, so: Coder)
    requires StaticCoders(sl, so)
    ensures |sl.lens| == LITLEN_SYMS && forall s :: 0 <= s < LITLEN_SYMS ==> sl.lens[s] == StaticLitlen()[s]
  {
    hide StaticLitlen;
    StaticLengths();
  }

  lemma OwnParts(h: HeaderInfo, pre: seq<PreItem>, lens: seq<nat>)
    requires OwnHeader(h, pre, lens)
    ensures |lens| == LITLEN_SYMS + OFFSET_SYMS && h.numLitlen <= LITLEN_SYMS && h.numOffset <= OFFSET_SYMS
  {
    hide HeaderMade;
  }

  lemma HeadedParts(data: seq<u8>, b: Block, lc: Coder, oc: Coder)
    requires Headed(data, b, lc, oc)
    ensures b.header.numLitlen <= |b.lens| && LITLEN_SYMS + b.header.numOffset <= |b.lens| && BlockMade(data, b)
    ensures HeadsBlock(b.header, b.pre, LitlenPart(b), OffsetPart(b), lc, oc, b.items)
    ensures BlockFrequencies(b.items, b.lf, b.of) && AllValid(b.items)
  {
    hide HeadsBlock, OwnHeader, AllEncodable, Made, Tiles, AllValid, BlockFrequencies;
    OwnParts(b.header, b.pre, b.lens);
  }

  /** The cost of the block in its own codes and in the static ones. */
  method HuffmanCosts(h: HeaderInfo, lc: Coder, oc: Coder, sl: Coder, so: Coder, lf: seq<nat>, of: seq<nat>,
                      ghost data: seq<u8>, ghost b: Block, ghost isFinal: bool)
    returns (dynamicCost: nat, staticCost: nat)
    requires Headed(data, b, lc, oc) && StaticCoders(sl, so) && h == b.header && lf == b.lf && of == b.of
    ensures BlockMade(data, b) && |OwnForm(isFinal, data, b)| == 3 + dynamicCost
    ensures AllValid(b.items) && |StaticForm(isFinal, b.items)| == 3 + staticCost
  {
    hide Codewords, AllValid, StaticLitlen, StaticOffset, BlockFrequencies, HeadsBlock, CodedCost, Dot, PreWeights,
      BlockMade, DynamicForm, StaticForm, LitlenPart, OffsetPart, Headed;
    HeadedParts(data, b, lc, oc);
    ghost var ll, ol := LitlenPart(b), OffsetPart(b);
    DynamicCostIs(h, b.pre, ll, ol, lc, oc, b.items, lf, of, isFinal);
    HeadsBlockLengths(h, b.pre, ll, ol, lc, oc, b.items);
    FrequenciesLength(b.items, lf, of);
    StaticAgree(sl, so);
    StaticCostIs(b.items, lf, of, isFinal);
    var preCost := PrecodeCost(h);
    dynamicCost, staticCost := ItemCosts(lc.lens, oc.lens, sl.lens, lf, of);
    dynamicCost := dynamicCost + preCost;
  }

  /** Writes the block in its own codes. */
  method FlushOwn(w: BitWriter, data: seq<u8>, p: nat, e: nat, c: Choice, h: HeaderInfo, lc: Coder, oc: Coder,
                  isFinal: bool, ghost b: Block)
    requires w.Valid() && w.bitcount < 8 && p < e <= |data| && Chosen(c, data, p, e)
    requires Headed(data, b, lc, oc) && h == b.header && b.items == ChoiceItems(c, data, p, e)
    requires Tiles(data, p, b.items, e)
    modifies w, w.out
    ensures w.Valid() && w.bitcount < 8 && w.bits == old(w.bits) + OwnForm(isFinal, data, b)
    ensures Encodes(old(w.bits), data[..p], isFinal, w.bits, data[..e])
  {
    hide Chosen, ChoiceItems, Encodes, Tiles, HeadsBlock, DynamicForm, LitlenPart, OffsetPart, BlockMade, Headed;
    HeadedParts(data, b, lc, oc);
    FlushDynamic(w, data, p, e, c, h, lc, oc, isFinal, b.pre, LitlenPart(b), OffsetPart(b));
  }

  lemma SameStoredCost(n: nat, bitcount: nat, len: nat)
    requires len > 0
    ensures StoredCost(8 * n + bitcount, len) == StoredCost(bitcount, len)
  {
    SamePadding(n, bitcount);
  }

  /** Writes a block as whatever is cheapest: with its own codes, with the static codes, or stored. */
  method FlushBlock(w: BitWriter, data: seq<u8>, p: nat, e: nat, c: Choice, lf: seq<nat>, of: seq<nat>,
                    lens: array<nat>, lcw: seq<u32>, ocw: seq<u32>, sl: Coder, so: Coder, isFinal: bool)
    returns (bestCost: nat, ghost b: Block)
    requires w.Valid() && w.bitcount < 8 && StaticCoders(sl, so) && Ready(data, p, e, c, lf, of, lens[..], lcw, ocw)
    requires w.out as object != lens
    modifies w, w.out, lens
    ensures w.Valid() && w.bitcount < 8
    ensures BlockMade(data, b) && b.start == p && b.end == e && b.items == ChoiceItems(c, data, p, e)
    ensures b.lens == old(lens[..])
    ensures bestCost <= StoredCost(old(w.bitcount), e - p)
    ensures old(w.next) < w.end ==>
      && |w.bits| <= |old(w.bits)| + 3 + bestCost
      && |ShortestForm(|old(w.bits)|, isFinal, data, b)| == 3 + bestCost
    ensures w.next < w.end ==>
      && w.bits == old(w.bits) + ShortestForm(|old(w.bits)|, isFinal, data, b)
      && Encodes(old(w.bits), data[..p], isFinal, w.bits, data[..e])
  {
    hide Chosen, ChoiceItems, BlockBits, Encodes, Codewords, Tiles, AllValid, AllEncodable, StaticLitlen, StaticOffset,
      BlockFrequencies, Usable, Headed, HeaderOf, CodedCost, Hold, Made, BlockMade, OwnForm, StaticForm, StoredForm,
      StoredCost;
    ghost var items, pos := ChoiceItems(c, data, p, e), |w.bits|;
    var h, lc, oc;
    h, lc, oc, b := PrepareHeader(lens, lcw, ocw, data, p, e, items, lf, of);
    var dynamicCost, staticCost := HuffmanCosts(h, lc, oc, sl, so, lf, of, data, b, isFinal);
    var uncompressedCost := StoredCost(w.bitcount, e - p);
    StoredFormSize(pos, isFinal, data[p..e]);
    if w.next < w.end {
      HoldLength(w.out[..w.next], w.bitbuf, w.bitcount, w.bits);
      SameStoredCost(w.next, w.bitcount, e - p);
    }
    bestCost := if staticCost < uncompressedCost then staticCost else uncompressedCost;
    if dynamicCost < bestCost {
      bestCost := dynamicCost;
      FlushOwn(w, data, p, e, c, h, lc, oc, isFinal, b);
    } else if staticCost < uncompressedCost {
      FlushStatic(w, data, p, e, c, sl, so, isFinal);
    } else {
      FlushStored(w, data, p, e, isFinal);
    }
    if w.next < w.end {
      HoldLength(w.out[..w.next], w.bitbuf, w.bitcount, w.bits);
    }
  }
}
