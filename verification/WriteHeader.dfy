/** Computing and writing the header of a dynamic block. */
module WriteHeader {
  import opened Arith
  import opened Packed
  import opened Bits
  import opened LengthCounts
  import opened Canonical
  import opened Words
  import opened BitBuffer
  import opened BitWriter
  import opened HuffmanTree
  import opened HuffmanCode
  import opened BuildDecodeTable
  import opened Items
  import opened WriteBlock
  import opened UsableCode
  import opened Precode
  import opened DecodeLens
  import opened Header

  const LITLEN_SYMS: nat := 288
  const OFFSET_SYMS: nat := 32

  // ---- leaving out unused symbols at the end

  lemma TrimCounts(lens: seq<nat>, n: nat, l: nat)
    requires n <= |lens| && forall s :: n <= s < |lens| ==> lens[s] == 0
    ensures Counts(lens[..n], l) == Counts(lens, l) && Used(lens[..n], l) == Used(lens, l)
  {
    hide Count, Codespace;
    assert Counts(lens[..n], l + 1) == Counts(lens, l + 1) by {
      forall d | 1 <= d < l + 1 ensures Count(lens[..n], d) == Count(lens, d) {
        assert lens == lens[..n] + lens[n..];
        CountSplit(lens[..n], lens[n..], d);
        NoneOfLength(lens[n..], d);
      }
    }
    assert Counts(lens[..n], l) == Counts(lens[..n], l + 1)[..l] && Counts(lens, l) == Counts(lens, l + 1)[..l];
  }

  lemma TrimCode(lens: seq<nat>, n: nat, s: nat)
    requires n <= |lens| && (forall k :: n <= k < |lens| ==> lens[k] == 0) && s < n && lens[s] > 0
    ensures Code(lens[..n], s) == Code(lens, s)
  {
    TrimCounts(lens, n, lens[s] - 1);
    assert lens[..n][..s] == lens[..s];
  }

  /** Unused symbols at the end make no difference to the code. */
  lemma TrimUsable(freqs: seq<nat>, lens: seq<nat>, codewords: seq<u32>, max: nat, n: nat)
    requires Usable(freqs, lens, codewords, max)
    requires n <= |lens| && forall k :: n <= k < |lens| ==> lens[k] == 0
    ensures Accepted(lens[..n], max) && Codewords(lens[..n], Coder(lens, codewords), max)
    ensures forall s :: 0 <= s < |freqs| && freqs[s] > 0 ==> HasCode(lens[..n], s)
  {
    hide Code, Used, Pow2, Le;
    TrimCounts(lens, n, max);
    forall s | 0 <= s < n && lens[s] > 0 ensures Code(lens[..n], s) == Code(lens, s) {
      TrimCode(lens, n, s);
    }
    if s: nat :| OneCodeword(lens, s) {
      assert lens[s] == 1;
      assert OneCodeword(lens[..n], s);
    }
  }

  /** The number of symbols up to the last used one, but at least `least`. */
  method CountSyms(lens: array<nat>, start: nat, all: nat, least: nat) returns (n: nat)
    requires least <= all && start + all <= lens.Length
    ensures least <= n <= all && forall k :: start + n <= k < start + all ==> lens[k] == 0
    ensures n > least ==> lens[start + n - 1] != 0
  {
    n := all;
    while n > least && lens[start + n - 1] == 0
      invariant least <= n <= all && forall k :: start + n <= k < start + all ==> lens[k] == 0
    {
      n := n - 1;
    }
  }

  ghost function Moved(lens: seq<nat>, dst: nat, src: nat, n: nat): seq<nat>
    requires dst + n <= |lens| && src + n <= |lens|
  {
    lens[..dst] + lens[src..src + n] + lens[dst + n..]
  }

  /** Moves n lengths; the two stretches may overlap. */
  method MoveLens(lens: array<nat>, dst: nat, src: nat, n: nat)
    requires dst + n <= lens.Length && src + n <= lens.Length
    modifies lens
    ensures lens[..] == Moved(old(lens[..]), dst, src, n)
  {
    forall k | dst <= k < dst + n {
      lens[k] := lens[src + (k - dst)];
    }
  }

  // ---- the header

  /** All that is needed to write a header. */
  datatype HeaderInfo = HeaderInfo(numLitlen: nat, numOffset: nat, numExplicit: nat, numItems: nat,
                                   preLens: seq<nat>, preCodewords: seq<u32>, preFreqs: seq<nat>, packed: seq<nat>)

  /** The items and the precode are those of the lengths. */
  ghost predicate HeaderOf(h: HeaderInfo, items: seq<PreItem>, lens: seq<nat>) {
    && HeaderParts(h.numLitlen, h.numOffset, h.numExplicit, h.preLens, items)
    && |lens| == h.numLitlen + h.numOffset && ExpandsTo(items, lens)
    && h.numItems == |items| > 0 && ItemsIn(h.packed, items)
    && |h.preFreqs| == PRECODE_SYMS && (forall s :: 0 <= s < PRECODE_SYMS ==> h.preFreqs[s] == Count(SymsOf(items), s))
    && Accepted(h.preLens, MAX_PRE_LEN) && NoneStoredFrom(h.preLens, h.numExplicit)
    && Codewords(h.preLens, Coder(h.preLens, h.preCodewords), MAX_PRE_LEN)
  }

  /** What the header is made of: at each place the longest item, the code made from how often they occur, and no
      more of its lengths than up to the last that is not 0. */
  ghost predicate HeaderMade(h: HeaderInfo, items: seq<PreItem>, lens: seq<nat>) {
    && HeaderOf(h, items, lens) && EachLongest(lens, items) && Covered(items) == |lens|
    && Made(h.preFreqs, h.preLens, MAX_PRE_LEN)
    && NoneLessStored(h.preLens, h.numExplicit)
  }

  /** The used lengths of both codes, one behind the other. */
  ghost function Joined(lens: seq<nat>, nl: nat, no: nat): seq<nat>
    requires |lens| == LITLEN_SYMS + OFFSET_SYMS && nl <= LITLEN_SYMS && no <= OFFSET_SYMS
  {
    lens[..nl] + lens[LITLEN_SYMS..LITLEN_SYMS + no]
  }

  /** The header for the lengths of both codes, each up to the last that is not 0. */
  ghost predicate OwnHeader(h: HeaderInfo, items: seq<PreItem>, lens: seq<nat>) {
    var nl, no := h.numLitlen, h.numOffset;
    && |lens| == LITLEN_SYMS + OFFSET_SYMS && 257 <= nl <= LITLEN_SYMS && 1 <= no <= OFFSET_SYMS
    && HeaderMade(h, items, Joined(lens, nl, no))
    && (forall k :: nl <= k < LITLEN_SYMS ==> lens[k] == 0) && (nl > 257 ==> lens[nl - 1] != 0)
    && (forall k :: LITLEN_SYMS + no <= k < |lens| ==> lens[k] == 0) && (no > 1 ==> lens[LITLEN_SYMS + no - 1] != 0)
  }

  lemma {:induction false} SumBound(s: seq<nat>, b: nat)
    requires forall k :: 0 <= k < |s| ==> s[k] <= b
    ensures Sum(s) <= |s| * b
  {
    if s != [] {
      SumBound(s[1..], b);
      MulSucc(|s| - 1, b);
    }
  }

  lemma {:induction false} CountAtMost(s: seq<nat>, d: nat)
    ensures Count(s, d) <= |s|
  {
    if s == [] {
      CountOfNothing(d);
    } else {
      assert s == s[..|s| - 1] + [s[|s| - 1]];
      CountAtMost(s[..|s| - 1], d);
      CountSplit(s[..|s| - 1], [s[|s| - 1]], d);
      CountOne(s[|s| - 1], d);
    }
  }

  lemma PreFreqsSmall(items: seq<PreItem>, freqs: seq<nat>)
    requires |items| <= 320 && |freqs| == PRECODE_SYMS
    requires forall s :: 0 <= s < PRECODE_SYMS ==> freqs[s] == Count(SymsOf(items), s)
    ensures Sum(freqs) < HIGH_VALUES
  {
    forall s | 0 <= s < PRECODE_SYMS ensures freqs[s] <= 320 {
      CountAtMost(SymsOf(items), s);
    }
    SumBound(freqs, 320);
  }

  lemma ItemsHaveCodes(items: seq<PreItem>, freqs: seq<nat>, pl: seq<nat>, cw: seq<u32>)
    requires |freqs| == PRECODE_SYMS && forall s :: 0 <= s < PRECODE_SYMS ==> freqs[s] == Count(SymsOf(items), s)
    requires Usable(freqs, pl, cw, MAX_PRE_LEN) && forall k :: 0 <= k < |items| ==> ValidPre(items[k])
    ensures PreEncodable(pl, items) && PrecodeLens(pl)
  {
    hide Count, Accepted, Codewords, HasCode;
    forall k | 0 <= k < |items| ensures HasCode(pl, items[k].sym) {
      SymOccurs(items, k);
    }
  }

  lemma SymOccurs(items: seq<PreItem>, k: nat)
    requires k < |items|
    ensures Count(SymsOf(items), items[k].sym) > 0
  {
    var s := SymsOf(items);
    assert s == s[..k] + ([s[k]] + s[k + 1..]);
    CountSplit(s[..k], [s[k]] + s[k + 1..], s[k]);
    CountSplit([s[k]], s[k + 1..], s[k]);
    CountOne(s[k], s[k]);
  }

  /** How many lengths of the precode have to be stored. */
  method CountExplicit(pl: array<nat>) returns (m: nat)
    requires pl.Length == PRECODE_SYMS
    ensures 4 <= m <= PRECODE_SYMS && NoneStoredFrom(pl[..], m) && NoneLessStored(pl[..], m)
  {
    PermutationInverse();
    m := PRECODE_SYMS;
    while m > 4 && pl[PERMUTATION[m - 1]] == 0
      invariant 4 <= m <= PRECODE_SYMS && NoneStoredFrom(pl[..], m)
    {
      m := m - 1;
    }
  }

  /** Builds the precode for the lengths and their items. */
  method MakePrecode(lens: seq<nat>, nl: nat, no: nat) returns (h: HeaderInfo, ghost items: seq<PreItem>)
    requires 257 <= nl <= LITLEN_SYMS && 1 <= no <= OFFSET_SYMS && |lens| == nl + no
    requires forall k :: 0 <= k < |lens| ==> lens[k] < REPEAT
    ensures HeaderMade(h, items, lens) && h.numLitlen == nl && h.numOffset == no
  {
    hide ExpandsTo, Count, Usable, Accepted, Codewords, PreEncodable, PrecodeLens, NoneStoredFrom, NoneLessStored,
      EachLongest, Made, Covered;
    var freqs, packed := new nat[PRECODE_SYMS], new nat[nl + no];
    var count;
    count, items := ComputePrecodeItems(lens, freqs, packed);
    var pl, cw := new nat[PRECODE_SYMS], new u32[PRECODE_SYMS];
    PreFreqsSmall(items, freqs[..]);
    assert Pow2(5) == 32 && Pow2(7) == 128;
    MakeCode(freqs[..], MAX_PRE_LEN, pl, cw);
    ItemsHaveCodes(items, freqs[..], pl[..], cw[..]);
    UsableParts(freqs[..], pl[..], cw[..], MAX_PRE_LEN);
    var m := CountExplicit(pl);
    NotEmpty(items, lens);
    h := HeaderInfo(nl, no, m, count, pl[..], cw[..], freqs[..], packed[..]);
  }

  lemma UsableParts(freqs: seq<nat>, lens: seq<nat>, cw: seq<u32>, max: nat)
    requires Usable(freqs, lens, cw, max)
    ensures Accepted(lens, max) && Codewords(lens, Coder(lens, cw), max)
  {
  }

  lemma NotEmpty(items: seq<PreItem>, lens: seq<nat>)
    requires ExpandsTo(items, lens) && lens != []
    ensures items != []
  {
  }

  /** Computes the header for the lengths of the literal/length code and, behind them, of the offset
      code.  The offset lengths are moved up behind the used literal/length symbols and back again;
      what they have overwritten stays overwritten. */
  method PrecomputeHeader(lens: array<nat>) returns (h: HeaderInfo, ghost items: seq<PreItem>)
    requires lens.Length == LITLEN_SYMS + OFFSET_SYMS && forall k :: 0 <= k < lens.Length ==> lens[k] < REPEAT
    modifies lens
    ensures OwnHeader(h, items, old(lens[..]))
    ensures lens[..] == AfterHeader(old(lens[..]), h.numLitlen, h.numOffset)
  {
    hide HeaderMade, Moved, AfterHeader;
    ghost var was := lens[..];
    var nl := CountSyms(lens, 0, LITLEN_SYMS, 257);
    var no := CountSyms(lens, LITLEN_SYMS, OFFSET_SYMS, 1);
    if nl != LITLEN_SYMS {
      MoveLens(lens, nl, LITLEN_SYMS, no);
    }
    MovedThere(was, nl, no);
    MovedBack(was, nl, no);
    assert lens[..nl + no] == Joined(was, nl, no);
    h, items := MakePrecode(lens[..nl + no], nl, no);
    if nl != LITLEN_SYMS {
      MoveLens(lens, LITLEN_SYMS, nl, no);
    }
  }

  lemma MovedThere(lens: seq<nat>, nl: nat, no: nat)
    requires |lens| == LITLEN_SYMS + OFFSET_SYMS && nl <= LITLEN_SYMS && no <= OFFSET_SYMS
    ensures |Moved(lens, nl, LITLEN_SYMS, no)| == |lens|
    ensures Moved(lens, nl, LITLEN_SYMS, no)[..nl + no] == Joined(lens, nl, no)
    ensures nl == LITLEN_SYMS ==> Moved(lens, nl, LITLEN_SYMS, no) == lens
  {
  }

  lemma MovedBack(lens: seq<nat>, nl: nat, no: nat)
    requires |lens| == LITLEN_SYMS + OFFSET_SYMS && nl <= LITLEN_SYMS && no <= OFFSET_SYMS
    ensures |Moved(lens, nl, LITLEN_SYMS, no)| == |lens|
    ensures Moved(Moved(lens, nl, LITLEN_SYMS, no), LITLEN_SYMS, nl, no) == AfterHeader(lens, nl, no)
    ensures nl == LITLEN_SYMS ==> lens == AfterHeader(lens, nl, no)
  {
  }

  /** The lengths after the header has been computed. */
  ghost function AfterHeader(lens: seq<nat>, nl: nat, no: nat): (r: seq<nat>)
    requires |lens| == LITLEN_SYMS + OFFSET_SYMS && nl <= LITLEN_SYMS && no <= OFFSET_SYMS
    ensures |r| == |lens|
    ensures forall k :: 0 <= k < |lens| ==>
      r[k] == if nl <= k < nl + no && k < LITLEN_SYMS then lens[LITLEN_SYMS + (k - nl)] else lens[k]
  {
    seq(|lens|, k requires 0 <= k < |lens| =>
      if nl <= k < nl + no && k < LITLEN_SYMS then lens[LITLEN_SYMS + (k - nl)] else lens[k])
  }

  /** The lengths are restored exactly when there was nothing to overwrite them with; those of the
      symbols that the header names are right in any case. */
  lemma RestoredIff(lens: seq<nat>, nl: nat, no: nat)
    requires |lens| == LITLEN_SYMS + OFFSET_SYMS && nl <= LITLEN_SYMS && no <= OFFSET_SYMS
    requires forall k :: nl <= k < LITLEN_SYMS ==> lens[k] == 0
    ensures AfterHeader(lens, nl, no) == lens <==>
      forall k :: LITLEN_SYMS <= k < LITLEN_SYMS + no && nl + (k - LITLEN_SYMS) < LITLEN_SYMS ==> lens[k] == 0
    ensures AfterHeader(lens, nl, no)[..nl] == lens[..nl]
    ensures AfterHeader(lens, nl, no)[LITLEN_SYMS..] == lens[LITLEN_SYMS..]
  {
    var r := AfterHeader(lens, nl, no);
    if r == lens {
      forall k | LITLEN_SYMS <= k < LITLEN_SYMS + no && nl + (k - LITLEN_SYMS) < LITLEN_SYMS ensures lens[k] == 0 {
        assert r[nl + (k - LITLEN_SYMS)] == lens[k];
      }
    }
  }

  /** The lengths of a block of literals with one offset codeword. */
  function LiteralsOnly(): (lens: seq<nat>)
    ensures |lens| == LITLEN_SYMS + OFFSET_SYMS
  {
    seq(LITLEN_SYMS + OFFSET_SYMS, k requires 0 <= k < LITLEN_SYMS + OFFSET_SYMS =>
      if k < 255 then 8 else if k < 257 then 9 else if k == LITLEN_SYMS then 1 else 0)
  }

  /** For these the offset length stays behind as that of a length symbol. */
  lemma NotRestored()
    ensures forall k :: 257 <= k < LITLEN_SYMS ==> LiteralsOnly()[k] == 0
    ensures AfterHeader(LiteralsOnly(), 257, 1) != LiteralsOnly() && AfterHeader(LiteralsOnly(), 257, 1)[257] == 1
  {
    assert LiteralsOnly()[LITLEN_SYMS] == 1;
    RestoredIff(LiteralsOnly(), 257, 1);
  }

  // ---- writing

  method WritePreLen(w: BitWriter, pl: seq<nat>, i: nat, ghost start: Bits)
    requires w.Valid() && PrecodeLens(pl) && i < PRECODE_SYMS && w.bitcount + 3 < 8 * w.wordBytes
    requires w.bits == start + PreLenBits(pl, i)
    modifies w
    ensures w.Valid() && w.bits == start + PreLenBits(pl, i + 1) && w.bitcount == old(w.bitcount) + 3
  {
    hide Front;
    PermutationInverse();
    assert Pow2(3) == 8;
    w.AddBits(pl[PERMUTATION[i]], 3);
  }

  /** Writes the lengths one by one. */
  method WriteEachPreLen(w: BitWriter, pl: seq<nat>, m: nat)
    requires w.Valid() && PrecodeLens(pl) && m <= PRECODE_SYMS && w.bitcount < 8
    modifies w, w.out
    ensures w.Valid() && w.bitcount < 8 && w.bits == old(w.bits) + PreLenBits(pl, m)
  {
    hide PreLenBits, PrecodeLens;
    ghost var start := w.bits;
    NoPreLens(pl);
    for i := 0 to m
      invariant w.Valid() && w.bits == start + PreLenBits(pl, i) && w.bitcount < 8
    {
      WritePreLen(w, pl, i, start);
      w.FlushBits();
    }
  }

  /** Writes the first m lengths of the precode.  A large buffer holds all but the first of them. */
  method WritePreLens(w: BitWriter, pl: seq<nat>, m: nat)
    requires w.Valid() && PrecodeLens(pl) && 4 <= m <= PRECODE_SYMS && w.bitcount <= 24
    modifies w, w.out
    ensures w.Valid() && w.bitcount < 8 && w.bits == old(w.bits) + PreLenBits(pl, m)
  {
    hide PreLenBits, PrecodeLens;
    ghost var start := w.bits;
    NoPreLens(pl);
    if CanBuffer(w.wordBytes, 3 * (PRECODE_SYMS - 1)) {
      WritePreLen(w, pl, 0, start);
      w.FlushBits();
      var i := 1;
      while i < m
        invariant 1 <= i <= m && w.Valid() && w.bits == start + PreLenBits(pl, i) && w.bitcount < 8 + 3 * (i - 1)
      {
        WritePreLen(w, pl, i, start);
        i := i + 1;
      }
      w.FlushBits();
    } else {
      w.FlushBits();
      WriteEachPreLen(w, pl, m);
    }
  }

  lemma NoPreLens(pl: seq<nat>)
    requires PrecodeLens(pl)
    ensures PreLenBits(pl, 0) == []
  {
  }

  /** Writes a symbol of the precode with its extra bits. */
  method WritePreItem(w: BitWriter, item: nat, c: Coder, ghost pl: seq<nat>, ghost it: PreItem)
    requires w.Valid() && w.bitcount < 8 && Codewords(pl, c, MAX_PRE_LEN) && ValidPre(it) && HasCode(pl, it.sym)
    requires item == PackItem(it)
    modifies w, w.out
    ensures w.Valid() && w.bitcount < 8 && w.bits == old(w.bits) + PreItemBits(pl, it)
  {
    hide Codewords, Code, Front, Pow2;
    PackedParts(it);
    ExtraFits(it);
    WriteSymbol(w, c, item % 32, pl, MAX_PRE_LEN);
    w.AddBits(item / 32, ExtraBitsOf(item % 32));
    w.FlushBits();
  }

  /** Writes the items with the codewords of the precode. */
  method WritePreItems(w: BitWriter, packed: seq<nat>, c: Coder, count: nat, ghost pl: seq<nat>,
                       ghost items: seq<PreItem>)
    requires w.Valid() && w.bitcount < 8 && Codewords(pl, c, MAX_PRE_LEN) && PreEncodable(pl, items)
    requires count == |items| && ItemsIn(packed, items)
    modifies w, w.out
    ensures w.Valid() && w.bitcount < 8 && w.bits == old(w.bits) + PreItemsBits(pl, items)
  {
    hide Codewords, PreItemBits, PreEncodable, PreItemsBits, w.Valid;
    ghost var start := w.bits;
    var i := 0;
    NoItems(pl, items);
    while i < count
      invariant 0 <= i <= count && w.Valid() && w.bitcount < 8
      invariant PreEncodable(pl, items[..i])
      invariant w.bits == start + PreItemsBits(pl, items[..i])
    {
      OneMoreItem(pl, items, i);
      WritePreItem(w, packed[i], c, pl, items[i]);
      i := i + 1;
    }
    assert items[..count] == items;
  }

  lemma NoItems(pl: seq<nat>, items: seq<PreItem>)
    ensures PreEncodable(pl, items[..0]) && PreItemsBits(pl, items[..0]) == []
  {
  }

  lemma OneMoreItem(pl: seq<nat>, items: seq<PreItem>, i: nat)
    requires PreEncodable(pl, items) && i < |items|
    ensures ValidPre(items[i]) && HasCode(pl, items[i].sym)
    ensures PreEncodable(pl, items[..i]) && PreEncodable(pl, items[..i + 1])
    ensures PreItemsBits(pl, items[..i + 1]) == PreItemsBits(pl, items[..i]) + PreItemBits(pl, items[i])
  {
    hide HasCode, ValidPre, PreItemBits;
    assert AllButLast(items[..i + 1]) == items[..i];
  }

  /** Writes the header of a dynamic block, behind the bits of its type. */
  method WriteHeader(w: BitWriter, h: HeaderInfo, ghost items: seq<PreItem>, ghost lens: seq<nat>)
    requires w.Valid() && w.bitcount <= 10 && HeaderOf(h, items, lens)
    modifies w, w.out
    ensures w.Valid() && w.bitcount < 8
    ensures w.bits == old(w.bits) + HeaderBits(h.numLitlen, h.numOffset, h.numExplicit, h.preLens, items)
  {
    hide Codewords, Front, PreEncodable, PreLenBits, PreItemsBits, ExpandsTo, Accepted, PrecodeLens;
    assert Pow2(5) == 32 && Pow2(4) == 16;
    w.AddBits(h.numLitlen - 257, 5);
    w.AddBits(h.numOffset - 1, 5);
    w.AddBits(h.numExplicit - 4, 4);
    WritePreLens(w, h.preLens, h.numExplicit);
    WritePreItems(w, h.packed, Coder(h.preLens, h.preCodewords), h.numItems, h.preLens, items);
  }
}
