/** No other codes make the items of a block shorter than its own codes do, unless these had to be limited. */
module BestCodes {
  import opened Arith
  import opened Bits
  import opened BitBuffer
  import opened LengthCounts
  import opened Canonical
  import Optimal
  import opened HuffmanTree
  import opened TreeDepths
  import GenCodewords
  import opened HuffmanCode
  import opened SortByLength
  import opened BuildDecodeTable
  import opened Slots
  import opened Items
  import opened Precode
  import opened DecodeLens
  import opened Header
  import opened WriteBlock
  import opened WriteHeader
  import opened Costs
  import opened BlockForms

  // ---- codes that are accepted are within the code space

  lemma CountBehind(l: seq<nat>, x: nat, d: nat)
    ensures Count(l + [x], d) == Count(l, d) + if x == d then 1 else 0
  {
    hide Count;
    CountSplit(l, [x], d);
    CountOne(x, d);
  }

  /** What one more codeword takes of the code space. */
  lemma {:induction false} UsedMore(l: seq<nat>, x: nat, d: nat)
    ensures Used(l + [x], d) == Used(l, d) + if 0 < x <= d then Pow2(d - x) else 0
  {
    hide Used, Count;
    UsedStep(l, 0);
    UsedStep(l + [x], 0);
    if d > 0 {
      UsedMore(l, x, d - 1);
      UsedStep(l, d - 1);
      UsedStep(l + [x], d - 1);
      CountBehind(l, x, d);
    }
  }

  lemma SharesMore(freqs: seq<nat>, l: seq<nat>, d: nat)
    requires |freqs| == |l| > 0 && forall s :: 0 <= s < |l| ==> l[s] <= d
    ensures var n := |l| - 1;
      Sum(UsedShares(freqs, l, d)) ==
        Sum(UsedShares(freqs[..n], l[..n], d)) + if freqs[n] > 0 then Pow2(d - l[n]) else 0
  {
    hide Pow2;
    var n, shares := |l| - 1, UsedShares(freqs, l, d);
    assert shares == UsedShares(freqs[..n], l[..n], d) + [shares[n]];
    SumAppend(shares[..n], [shares[n]]);
    assert Sum([shares[n]]) == shares[n];
  }

  lemma {:induction false} SharesWithin(freqs: seq<nat>, l: seq<nat>, d: nat)
    requires |freqs| == |l| && forall s :: 0 <= s < |l| ==> l[s] <= d && (freqs[s] > 0 ==> l[s] > 0)
    ensures Sum(UsedShares(freqs, l, d)) <= Used(l, d)
    decreases |l|
  {
    hide Used, Pow2;
    if l == [] {
      NothingUsed(d);
    } else {
      hide Sum, UsedShares;
      var n := |l| - 1;
      SharesWithin(freqs[..n], l[..n], d);
      assert l == l[..n] + [l[n]];
      UsedMore(l[..n], l[n], d);
      SharesMore(freqs, l, d);
    }
  }

  lemma {:induction false} NothingUsed(d: nat)
    ensures Used([], d) == 0
  {
    hide Used, Count;
    UsedStep([], 0);
    if d > 0 {
      NothingUsed(d - 1);
      UsedStep([], d - 1);
      CountOfNothing(d);
    }
  }

  // ---- the fewest bits for the symbols

  /** The tree of the symbols that occur is not deeper than the limit, so that no length had to be changed. */
  ghost predicate WithinLimit(freqs: seq<nat>, max: nat) {
    forall syms: seq<nat>, f: seq<nat>, g: Merge :: Listed(freqs, syms, f) && Tree(f, g) ==> Unclamped(f, g, max)
  }

  lemma {:induction false} SumAtMost(a: seq<nat>, b: seq<nat>)
    requires |a| == |b| && forall k :: 0 <= k < |a| ==> a[k] <= b[k]
    ensures Sum(a) <= Sum(b)
  {
    if a != [] {
      SumAtMost(a[1..], b[1..]);
    }
  }

  lemma TimesAtMost(w: nat, a: nat, b: nat)
    requires a <= b || w == 0
    ensures Optimal.Times(w, a) <= Optimal.Times(w, b)
  {
    Optimal.TimesIsProduct(w, a);
    Optimal.TimesIsProduct(w, b);
    assert w == 0 || w * a <= w * b;
  }

  /** With at most one symbol there is nothing to choose. */
  lemma FewSymbols(freqs: seq<nat>, lens: seq<nat>, max: nat, syms: seq<nat>, f: seq<nat>, g: Merge, l: seq<nat>)
    requires MadeFrom(freqs, lens, max, syms, f, g) && |f| <= 1
    requires |l| == |freqs| && forall s :: 0 <= s < |l| && freqs[s] > 0 ==> l[s] > 0
    ensures TotalBits(freqs, lens) <= TotalBits(freqs, l)
  {
    hide Optimal.Times, Tree, Complete, Ordered, Unclamped, MinimumRedundancy;
    var a, b := Products(freqs, lens), Products(freqs, l);
    forall s | 0 <= s < |freqs| ensures a[s] <= b[s] {
      if freqs[s] > 0 {
        assert s in syms && syms == [s];
        assert lens[s] == 1;
      }
      TimesAtMost(freqs[s], lens[s], l[s]);
    }
    SumAtMost(a, b);
  }

  /** No lengths within the code space give all symbols that occur codewords in fewer bits. */
  lemma MadeIsBest(freqs: seq<nat>, lens: seq<nat>, max: nat, l: seq<nat>, d: nat)
    requires Made(freqs, lens, max) && WithinLimit(freqs, max) && |l| == |freqs|
    requires forall s :: 0 <= s < |l| ==> l[s] <= d && (freqs[s] > 0 ==> l[s] > 0)
    requires Used(l, d) <= Pow2(d)
    ensures |lens| == |freqs| && TotalBits(freqs, lens) <= TotalBits(freqs, l)
  {
    hide Sum, Used, Pow2, Listed, Tree, Unclamped, Complete, Ordered, Products;
    var syms, f, g :| MadeFrom(freqs, lens, max, syms, f, g);
    SharesWithin(freqs, l, d);
    if |f| <= 1 {
      FewSymbols(freqs, lens, max, syms, f, g, l);
    } else {
      assert Feasible(freqs, l, d);
    }
  }

  // ---- the fewest bits for the items

  /** The lengths with zeros behind them. */
  ghost function Padded(l: seq<nat>, n: nat): (r: seq<nat>)
    requires |l| <= n
    ensures |r| == n && r[..|l|] == l && forall s :: |l| <= s < n ==> r[s] == 0
  {
    l + Repeat(0, n - |l|)
  }

  lemma AcceptedWithin(l: seq<nat>, max: nat, n: nat)
    requires Accepted(l, max) && |l| <= n && max >= 1 && forall s :: 0 <= s < |l| ==> l[s] <= max
    ensures Used(Padded(l, n), max) <= Pow2(max)
  {
    hide Used, Pow2;
    TrimCounts(Padded(l, n), |l|, max);
    if NoCodewords(l) {
      EmptyIff(l, max);
    } else if s: nat :| OneCodeword(l, s) {
      OneUsed(l, max, s);
      Pow2Monotone(max - 1, max);
    }
  }

  lemma {:induction false} OneUsed(l: seq<nat>, max: nat, s: nat)
    requires max >= 1 && OneCodeword(l, s)
    ensures Used(l, max) == Pow2(max - 1)
  {
    hide Used, Count;
    UsedStep(l, max - 1);
    if max == 1 {
      CountOfOne(l, s);
    } else {
      OneUsed(l, max - 1, s);
      if Count(l, max) > 0 {
        var k := GenCodewords.CountFind(l, max);
      }
    }
  }

  lemma {:induction false} DotSum(f: seq<nat>, l: seq<nat>, n: nat)
    requires n <= |f| && n <= |l|
    ensures Dot(f, l, n) == Sum(Products(f[..n], l[..n]))
  {
    if n > 0 {
      DotSum(f, l, n - 1);
      var a := Products(f[..n], l[..n]);
      assert a == Products(f[..n - 1], l[..n - 1]) + [a[n - 1]];
      SumAppend(a[..n - 1], [a[n - 1]]);
      assert Sum([a[n - 1]]) == a[n - 1];
      Optimal.TimesIsProduct(f[n - 1], l[n - 1]);
    }
  }

  lemma {:induction false} DotPlus(f: seq<nat>, l: seq<nat>, x: seq<nat>, w: seq<nat>, n: nat)
    requires n <= |f| && n <= |l| && n <= |x| && n <= |w| && forall s :: 0 <= s < n ==> w[s] == l[s] + x[s]
    ensures Dot(f, w, n) == Dot(f, l, n) + Dot(f, x, n)
  {
    if n > 0 {
      DotPlus(f, l, x, w, n - 1);
      assert f[n - 1] * (l[n - 1] + x[n - 1]) == f[n - 1] * l[n - 1] + f[n - 1] * x[n - 1];
    }
  }

  /** The extra bits are the same in all codes. */
  ghost function LitlenExtra(): (x: seq<nat>)
    ensures |x| == 286
  {
    seq(286, s requires 0 <= s < 286 => if s > END_SYM then LENGTH_EXTRA[s - FIRST_LENGTH_SYM] else 0)
  }

  lemma LitlenDot(f: seq<nat>, l: seq<nat>)
    requires |f| == 288 == |l| && f[286] == 0 == f[287]
    ensures Dot(f, LitlenWeights(l), 286) == TotalBits(f, l) + Dot(f, LitlenExtra(), 286)
  {
    hide Sum, Products, Dot;
    DotPlus(f, l, LitlenExtra(), LitlenWeights(l), 286);
    DotTail(f, l, 286);
    DotTail(f, l, 287);
    DotSum(f, l, 288);
    assert f[..288] == f && l[..288] == l;
  }

  lemma DotTail(f: seq<nat>, l: seq<nat>, n: nat)
    requires n < |f| && n < |l| && f[n] == 0
    ensures Dot(f, l, n + 1) == Dot(f, l, n)
  {
  }

  lemma OffsetDot(f: seq<nat>, l: seq<nat>)
    requires |f| == 32 == |l| && f[30] == 0 == f[31]
    ensures Dot(f, OffsetWeights(l), 30) == TotalBits(f, l) + Dot(f, OFFSET_EXTRA, 30)
  {
    hide Sum, Products, Dot;
    DotPlus(f, l, OFFSET_EXTRA, OffsetWeights(l), 30);
    DotTail(f, l, 30);
    DotTail(f, l, 31);
    DotSum(f, l, 32);
    assert f[..32] == f && l[..32] == l;
  }

  lemma NoOtherSymbols(items: seq<Item>, lf: seq<nat>, of: seq<nat>)
    requires BlockFrequencies(items, lf, of)
    ensures |lf| == 288 && |of| == 32 && lf[286] == 0 == lf[287] && of[30] == 0 == of[31]
  {
    hide Count;
    NoSuchSymbol(LitlenSyms(items), 286);
    NoSuchSymbol(LitlenSyms(items), 287);
    NoSuchSymbol(OffsetSyms(items), 30);
    NoSuchSymbol(OffsetSyms(items), 31);
  }

  /** The bits of the items, in any codes that have codewords for them. */
  lemma BitsInCodes(items: seq<Item>, lf: seq<nat>, of: seq<nat>, ll: seq<nat>, ol: seq<nat>, la: seq<nat>,
                    oa: seq<nat>)
    requires BlockFrequencies(items, lf, of) && AllEncodable(ll, ol, items)
    requires |ll| <= |la| == 288 == |lf| && la[..|ll|] == ll && |ol| <= |oa| == 32 == |of| && oa[..|ol|] == ol
    ensures |BlockBits(ll, ol, items)| ==
      TotalBits(lf, la) + TotalBits(of, oa) + Dot(lf, LitlenExtra(), 286) + Dot(of, OFFSET_EXTRA, 30)
  {
    hide BlockFrequencies, AllEncodable, Dot, TotalBits, BlockBits, LitlenWeights, OffsetWeights;
    assert Agree(la, ll) && Agree(oa, ol);
    BlockCost(ll, ol, items, lf, of, la, oa);
    NoOtherSymbols(items, lf, of);
    LitlenDot(lf, la);
    OffsetDot(of, oa);
  }

  /** Symbols that occur have codewords in any codes that the items can be written in. */
  lemma {:induction false} OccurringHaveCodes(items: seq<Item>, ll: seq<nat>, ol: seq<nat>)
    requires Encodables(ll, ol, items)
    ensures forall s :: Count(LitlenSyms(items), s) > 0 ==> HasCode(ll, s)
    ensures forall s :: Count(OffsetSyms(items), s) > 0 ==> HasCode(ol, s)
  {
    hide Count, LengthSlot, OffsetSlot;
    if items == [] {
      forall s: nat ensures Count([], s) == 0 {
        CountOfNothing(s);
      }
    } else {
      var front, last := items[..|items| - 1], items[|items| - 1];
      OccurringHaveCodes(front, ll, ol);
      assert Encodable(ll, ol, last);
      forall s: nat
        ensures Count(LitlenSyms(items), s) > 0 ==> HasCode(ll, s)
        ensures Count(OffsetSyms(items), s) > 0 ==> HasCode(ol, s)
      {
        CountBehind(LitlenSyms(front), LitlenSym(last), s);
        if last.Match? {
          CountBehind(OffsetSyms(front), OffsetSlot(last.offset), s);
        } else {
          assert OffsetSyms(items) == OffsetSyms(front);
        }
      }
    }
  }

  lemma FrequentHaveCodes(items: seq<Item>, lf: seq<nat>, of: seq<nat>, ll: seq<nat>, ol: seq<nat>)
    requires BlockFrequencies(items, lf, of) && AllEncodable(ll, ol, items)
    ensures |lf| == 288 && |of| == 32
    ensures forall s :: 0 <= s < 288 && lf[s] > 0 ==> HasCode(ll, s)
    ensures forall s :: 0 <= s < 32 && of[s] > 0 ==> HasCode(ol, s)
  {
    hide Count;
    OccurringHaveCodes(items, ll, ol);
  }

  /** Written in any other codes that the decompressor accepts, the items of a block take no fewer bits than in its
      own, if these did not have to be limited. */
  lemma NoShorterCodes(data: seq<u8>, b: Block, ll: seq<nat>, ol: seq<nat>, max: nat)
    requires BlockMade(data, b) && WithinLimit(b.lf, MAX_LITLEN_LEN) && WithinLimit(b.of, MAX_OFFSET_LEN)
    requires |ll| <= LITLEN_SYMS && Accepted(ll, max) && forall s :: 0 <= s < |ll| ==> ll[s] <= max
    requires |ol| <= OFFSET_SYMS && Accepted(ol, max) && forall s :: 0 <= s < |ol| ==> ol[s] <= max
    requires max >= 1 && AllEncodable(ll, ol, b.items)
    ensures |BlockBits(LitlenPart(b), OffsetPart(b), b.items)| <= |BlockBits(ll, ol, b.items)|
  {
    hide BlockFrequencies, AllEncodable, Dot, TotalBits, BlockBits, Used, Pow2, Accepted, WithinLimit, Made, OwnHeader,
      Tiles, AllValid;
    OwnLengths(data, b);
    var lens, offs, la, oa := b.lens[..LITLEN_SYMS], b.lens[LITLEN_SYMS..], Padded(ll, 288), Padded(ol, 32);
    FrequentHaveCodes(b.items, b.lf, b.of, ll, ol);
    AcceptedWithin(ll, max, 288);
    AcceptedWithin(ol, max, 32);
    MadeIsBest(b.lf, lens, MAX_LITLEN_LEN, la, max);
    MadeIsBest(b.of, offs, MAX_OFFSET_LEN, oa, max);
    BitsInCodes(b.items, b.lf, b.of, LitlenPart(b), OffsetPart(b), lens, offs);
    BitsInCodes(b.items, b.lf, b.of, ll, ol, la, oa);
  }

  // ---- the header

  ghost function PreExtra(): (x: seq<nat>)
    ensures |x| == PRECODE_SYMS
  {
    seq(PRECODE_SYMS, s requires 0 <= s < PRECODE_SYMS => ExtraBitsOf(s))
  }

  lemma PreBits(items: seq<PreItem>, freqs: seq<nat>, pl: seq<nat>)
    requires |pl| == PRECODE_SYMS == |freqs| && PreEncodable(pl, items)
    requires forall s :: 0 <= s < PRECODE_SYMS ==> freqs[s] == Count(SymsOf(items), s)
    ensures |PreItemsBits(pl, items)| == TotalBits(freqs, pl) + Dot(freqs, PreExtra(), PRECODE_SYMS)
  {
    hide Count, PreEncodable, Dot, Sum, Products, PreItemsBits;
    PreCost(pl, items, freqs);
    DotPlus(freqs, pl, PreExtra(), PreWeights(pl), PRECODE_SYMS);
    DotSum(freqs, pl, PRECODE_SYMS);
    assert freqs[..PRECODE_SYMS] == freqs && pl[..PRECODE_SYMS] == pl;
  }

  lemma FrequentItem(items: seq<PreItem>, pl: seq<nat>, s: nat)
    requires PreEncodable(pl, items) && Count(SymsOf(items), s) > 0
    ensures HasCode(pl, s)
  {
    hide Count;
    if forall k :: 0 <= k < |items| ==> SymsOf(items)[k] != s {
      NoSuchSymbol(SymsOf(items), s);
    }
  }

  /** No other precode makes the items of the header shorter, if it did not have to be limited. */
  lemma NoShorterPrecode(h: HeaderInfo, items: seq<PreItem>, lens: seq<nat>, pl: seq<nat>, max: nat)
    requires HeaderMade(h, items, lens) && WithinLimit(h.preFreqs, MAX_PRE_LEN)
    requires |pl| == PRECODE_SYMS && Accepted(pl, max) && max >= 1 && forall s :: 0 <= s < |pl| ==> pl[s] <= max
    requires PreEncodable(pl, items)
    ensures PreEncodable(h.preLens, items)
    ensures |PreItemsBits(h.preLens, items)| <= |PreItemsBits(pl, items)|
  {
    hide Count, PreEncodable, Dot, TotalBits, Used, Pow2, Accepted, WithinLimit, Made, EachLongest, ExpandsTo, Covered;
    forall s | 0 <= s < PRECODE_SYMS && h.preFreqs[s] > 0 ensures pl[s] > 0 {
      FrequentItem(items, pl, s);
    }
    AcceptedWithin(pl, max, PRECODE_SYMS);
    assert Padded(pl, PRECODE_SYMS) == pl;
    MadeIsBest(h.preFreqs, h.preLens, MAX_PRE_LEN, pl, max);
    PreBits(items, h.preFreqs, h.preLens);
    PreBits(items, h.preFreqs, pl);
  }

  /** The bits of a header by its parts. */
  lemma FormSize(isFinal: bool, h: HeaderInfo, pre: seq<PreItem>, ll: seq<nat>, ol: seq<nat>, items: seq<Item>)
    requires HeaderOf(h, pre, ll + ol) && AllEncodable(ll, ol, items)
    ensures PreEncodable(h.preLens, pre)
    ensures |DynamicForm(isFinal, h, pre, ll, ol, items)| ==
      17 + 3 * h.numExplicit + |PreItemsBits(h.preLens, pre)| + |BlockBits(ll, ol, items)|
  {
    hide ExpandsTo, Accepted, Codewords, AllEncodable, BlockBits, PreItemsBits, Count;
  }

  /** With any other header that has the same items, the block takes no fewer bits, not counting those of the stored
      lengths of the precode. */
  lemma NoShorterHeader(isFinal: bool, data: seq<u8>, b: Block, h: HeaderInfo)
    requires BlockMade(data, b) && WithinLimit(b.header.preFreqs, MAX_PRE_LEN)
    requires HeaderOf(h, b.pre, LitlenPart(b) + OffsetPart(b))
    ensures |OwnForm(isFinal, data, b)| + 3 * h.numExplicit <=
      |DynamicForm(isFinal, h, b.pre, LitlenPart(b), OffsetPart(b), b.items)| + 3 * b.header.numExplicit
  {
    hide HeaderOf, AllEncodable, BlockBits, PreItemsBits, WithinLimit, Made, Tiles, AllValid, BlockFrequencies,
      DynamicForm;
    var ll, ol := LitlenPart(b), OffsetPart(b);
    FormSize(isFinal, b.header, b.pre, ll, ol, b.items);
    FormSize(isFinal, h, b.pre, ll, ol, b.items);
    PrecodeOf(h, b.pre, ll + ol);
    NoShorterPrecode(b.header, b.pre, ll + ol, h.preLens, MAX_PRE_LEN);
  }

  lemma PrecodeOf(h: HeaderInfo, items: seq<PreItem>, lens: seq<nat>)
    requires HeaderOf(h, items, lens)
    ensures |h.preLens| == PRECODE_SYMS && Accepted(h.preLens, MAX_PRE_LEN) && PreEncodable(h.preLens, items)
    ensures forall s :: 0 <= s < PRECODE_SYMS ==> h.preLens[s] <= MAX_PRE_LEN
  {
    hide ExpandsTo, Accepted, Codewords, PreEncodable;
  }

  lemma OwnLengths(data: seq<u8>, b: Block)
    requires BlockMade(data, b)
    ensures |b.lens| == LITLEN_SYMS + OFFSET_SYMS
    ensures b.header.numLitlen <= |b.lens| && LITLEN_SYMS + b.header.numOffset <= |b.lens|
    ensures |LitlenPart(b)| <= LITLEN_SYMS && b.lens[..LITLEN_SYMS][..|LitlenPart(b)|] == LitlenPart(b)
    ensures |OffsetPart(b)| <= OFFSET_SYMS && b.lens[LITLEN_SYMS..][..|OffsetPart(b)|] == OffsetPart(b)
  {
    hide HeaderMade, BlockFrequencies, AllEncodable, Made, Tiles, AllValid;
  }
}
