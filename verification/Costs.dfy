/** The size of a block in bits, from the frequencies of its symbols. */
module Costs {
  import opened Arith
  import opened Bits
  import opened LengthCounts
  import opened Canonical
  import opened Words
  import opened BitBuffer
  import opened Slots
  import opened Items
  import opened WriteBlock
  import opened Precode
  import opened DecodeLens

  /** The first n frequencies times their weights. */
  ghost function Dot(f: seq<nat>, w: seq<nat>, n: nat): nat
    requires n <= |f| && n <= |w|
  {
    if n == 0 then 0 else Dot(f, w, n - 1) + f[n - 1] * w[n - 1]
  }

  lemma {:induction false} DotMore(f: seq<nat>, w: seq<nat>, n: nat, s: nat)
    requires n <= |f| && n <= |w| && s < n
    ensures Dot(f[s := f[s] + 1], w, n) == Dot(f, w, n) + w[s]
  {
    if s == n - 1 {
      DotSame(f, f[s := f[s] + 1], w, n - 1);
      assert (f[s] + 1) * w[s] == f[s] * w[s] + w[s];
    } else {
      DotMore(f, w, n - 1, s);
    }
  }

  lemma {:induction false} DotSame(f: seq<nat>, g: seq<nat>, w: seq<nat>, n: nat)
    requires n <= |f| && n <= |g| && n <= |w| && forall s :: 0 <= s < n ==> f[s] == g[s]
    ensures Dot(f, w, n) == Dot(g, w, n)
  {
    if n > 0 {
      DotSame(f, g, w, n - 1);
    }
  }

  lemma {:induction false} DotWeights(f: seq<nat>, v: seq<nat>, w: seq<nat>, n: nat)
    requires n <= |f| && n <= |v| && n <= |w| && forall s :: 0 <= s < n && f[s] > 0 ==> v[s] == w[s]
    ensures Dot(f, v, n) == Dot(f, w, n)
  {
    if n > 0 {
      DotWeights(f, v, w, n - 1);
    }
  }

  lemma {:induction false} DotZero(f: seq<nat>, w: seq<nat>, n: nat)
    requires n <= |f| && n <= |w| && forall s :: 0 <= s < n ==> f[s] == 0
    ensures Dot(f, w, n) == 0
  {
    if n > 0 {
      DotZero(f, w, n - 1);
    }
  }

  /** How often each symbol below n occurs. */
  ghost function Frequencies(syms: seq<nat>, n: nat): (f: seq<nat>)
    ensures |f| == n && forall s :: 0 <= s < n ==> f[s] == Count(syms, s)
  {
    seq(n, s requires 0 <= s < n => Count(syms, s))
  }

  ghost function Total(syms: seq<nat>, w: seq<nat>): nat
    requires forall k :: 0 <= k < |syms| ==> syms[k] < |w|
  {
    if syms == [] then 0 else Total(syms[..|syms| - 1], w) + w[syms[|syms| - 1]]
  }

  /** Adding up weights symbol by symbol, or frequency times weight. */
  lemma {:induction false} TotalIsDot(syms: seq<nat>, w: seq<nat>)
    requires forall k :: 0 <= k < |syms| ==> syms[k] < |w|
    ensures Total(syms, w) == Dot(Frequencies(syms, |w|), w, |w|)
  {
    hide Count;
    var f := Frequencies(syms, |w|);
    if syms == [] {
      forall s | 0 <= s < |w| ensures f[s] == 0 {
        CountOfNothing(s);
      }
      DotZero(f, w, |w|);
    } else {
      var front, t := syms[..|syms| - 1], syms[|syms| - 1];
      var g := Frequencies(front, |w|);
      TotalIsDot(front, w);
      forall s | 0 <= s < |w| ensures f[s] == g[t := g[t] + 1][s] {
        assert syms == front + [t];
        CountSplit(front, [t], s);
        CountOne(t, s);
      }
      DotMore(g, w, |w|, t);
      DotSame(f, g[t := g[t] + 1], w, |w|);
    }
  }

  // ---- the symbols of items

  /** The literal/length symbols of the items, without the end of the block. */
  ghost function LitlenSyms(items: seq<Item>): (s: seq<nat>)
    ensures forall k :: 0 <= k < |s| ==> s[k] < 286
  {
    if items == [] then [] else LitlenSyms(items[..|items| - 1]) + [LitlenSym(items[|items| - 1])]
  }

  ghost function LitlenSym(it: Item): (s: nat)
    ensures s < 286
  {
    match it
    case Literal(b) => b
    case Match(length, _) => FIRST_LENGTH_SYM + LengthSlot(length)
  }

  ghost function OffsetSyms(items: seq<Item>): (s: seq<nat>)
    ensures forall k :: 0 <= k < |s| ==> s[k] < 30
  {
    if items == [] then []
    else
      var last := items[|items| - 1];
      OffsetSyms(items[..|items| - 1]) + if last.Match? then [OffsetSlot(last.offset)] else []
  }

  /** Codeword and extra bits of the literal/length symbols. */
  function LitlenWeights(lens: seq<nat>): (w: seq<nat>)
    requires |lens| >= 286
    ensures |w| == 286
  {
    seq(286, s requires 0 <= s < 286 => lens[s] + if s > END_SYM then LENGTH_EXTRA[s - FIRST_LENGTH_SYM] else 0)
  }

  function OffsetWeights(lens: seq<nat>): (w: seq<nat>)
    requires |lens| >= 30
    ensures |w| == 30
  {
    seq(30, s requires 0 <= s < 30 => lens[s] + OFFSET_EXTRA[s])
  }

  lemma {:induction false} ItemsBitsBack(ll: seq<nat>, ol: seq<nat>, items: seq<Item>)
    requires Encodables(ll, ol, items) && items != []
    ensures var front := items[..|items| - 1];
      var last := items[|items| - 1];
      && Encodables(ll, ol, front) && Encodable(ll, ol, last)
      && ItemsBits(ll, ol, items) == ItemsBits(ll, ol, front) + ItemBits(ll, ol, last)
  {
    hide Encodable, ItemBits;
    assert items == items[..|items| - 1] + [items[|items| - 1]];
    ItemWritten(ll, ol, items[..|items| - 1], items[|items| - 1]);
  }

  /** The stored lengths are right for all symbols that have codewords. */
  ghost predicate Agree(stored: seq<nat>, lens: seq<nat>) {
    forall s :: 0 <= s < |lens| && lens[s] > 0 ==> s < |stored| && stored[s] == lens[s]
  }

  /** The bits of the items are as many as their symbols weigh. */
  lemma {:induction false} ItemsCost(ll: seq<nat>, ol: seq<nat>, items: seq<Item>, la: seq<nat>, oa: seq<nat>)
    requires |la| >= 286 && |oa| >= 30 && Agree(la, ll) && Agree(oa, ol) && Encodables(ll, ol, items)
    ensures |ItemsBits(ll, ol, items)| ==
      Total(LitlenSyms(items), LitlenWeights(la)) + Total(OffsetSyms(items), OffsetWeights(oa))
    decreases |items|
  {
    hide Encodable, ItemBits, LitlenWeights, OffsetWeights, Agree;
    if items != [] {
      var front, last := items[..|items| - 1], items[|items| - 1];
      ItemsBitsBack(ll, ol, items);
      ItemsCost(ll, ol, front, la, oa);
      ItemCost(ll, ol, last, la, oa);
      assert LitlenSyms(items)[..|LitlenSyms(items)| - 1] == LitlenSyms(front);
      if last.Match? {
        assert OffsetSyms(items)[..|OffsetSyms(items)| - 1] == OffsetSyms(front);
      } else {
        assert OffsetSyms(items) == OffsetSyms(front);
      }
    }
  }

  lemma LengthWeight(ll: seq<nat>, length: nat, la: seq<nat>)
    requires |la| >= 286 && Agree(la, ll) && MIN_MATCH <= length <= MAX_MATCH
    requires HasCode(ll, FIRST_LENGTH_SYM + LengthSlot(length))
    ensures |LengthBits(ll, length)| == LitlenWeights(la)[FIRST_LENGTH_SYM + LengthSlot(length)]
  {
    hide Code, LengthSlot, Front, Pow2;
  }

  lemma OffsetWeight(ol: seq<nat>, offset: nat, oa: seq<nat>)
    requires |oa| >= 30 && Agree(oa, ol) && 1 <= offset <= MAX_OFFSET && HasCode(ol, OffsetSlot(offset))
    ensures |OffsetBits(ol, offset)| == OffsetWeights(oa)[OffsetSlot(offset)]
  {
    hide Code, OffsetSlot, Front, Pow2;
  }

  lemma ItemCost(ll: seq<nat>, ol: seq<nat>, it: Item, la: seq<nat>, oa: seq<nat>)
    requires |la| >= 286 && |oa| >= 30 && Agree(la, ll) && Agree(oa, ol) && Encodable(ll, ol, it)
    ensures |ItemBits(ll, ol, it)| ==
      LitlenWeights(la)[LitlenSym(it)] + if it.Match? then OffsetWeights(oa)[OffsetSlot(it.offset)] else 0
  {
    hide Code, LengthSlot, OffsetSlot, Front, Pow2;
    match it
    case Literal(b) =>
    case Match(length, offset) =>
      LengthWeight(ll, length, la);
      OffsetWeight(ol, offset, oa);
  }

  /** The frequencies of a block: those of its items, and one end-of-block symbol. */
  ghost predicate BlockFrequencies(items: seq<Item>, litlenFreqs: seq<nat>, offsetFreqs: seq<nat>) {
    && |litlenFreqs| == 288 && |offsetFreqs| == 32
    && (forall s :: 0 <= s < 288 ==> litlenFreqs[s] == Count(LitlenSyms(items), s) + if s == END_SYM then 1 else 0)
    && forall s :: 0 <= s < 32 ==> offsetFreqs[s] == Count(OffsetSyms(items), s)
  }

  lemma NoSuchSymbol(syms: seq<nat>, s: nat)
    requires forall k :: 0 <= k < |syms| ==> syms[k] != s
    ensures Count(syms, s) == 0
  {
    if Count(syms, s) > 0 {
      assert syms[..|syms|] == syms;
      var k := RankExists(syms, s, 0, |syms|);
    }
  }

  lemma {:induction false} EndIsNoItem(items: seq<Item>)
    ensures forall k :: 0 <= k < |LitlenSyms(items)| ==> LitlenSyms(items)[k] != END_SYM
  {
    if items != [] {
      EndIsNoItem(items[..|items| - 1]);
    }
  }

  /** The bits of a block are as many as frequency times weight adds up to. */
  lemma BlockCost(ll: seq<nat>, ol: seq<nat>, items: seq<Item>, litlenFreqs: seq<nat>, offsetFreqs: seq<nat>,
                  la: seq<nat>, oa: seq<nat>)
    requires |la| >= 286 && |oa| >= 30 && Agree(la, ll) && Agree(oa, ol) && AllEncodable(ll, ol, items)
    requires BlockFrequencies(items, litlenFreqs, offsetFreqs)
    ensures |BlockBits(ll, ol, items)| ==
      Dot(litlenFreqs, LitlenWeights(la), 286) + Dot(offsetFreqs, OffsetWeights(oa), 30)
  {
    hide Code, Encodables, ItemsBits, Count, Dot;
    var w := LitlenWeights(la);
    ItemsCost(ll, ol, items, la, oa);
    TotalIsDot(LitlenSyms(items), w);
    TotalIsDot(OffsetSyms(items), OffsetWeights(oa));
    var f := Frequencies(LitlenSyms(items), 286);
    EndIsNoItem(items);
    NoSuchSymbol(LitlenSyms(items), END_SYM);
    DotMore(f, w, 286, END_SYM);
    DotSame(litlenFreqs, f[END_SYM := f[END_SYM] + 1], w, 286);
    DotSame(offsetFreqs, Frequencies(OffsetSyms(items), 30), OffsetWeights(oa), 30);
  }

  /** A symbol that an item uses occurs. */
  lemma {:induction false} ItemOccurs(items: seq<Item>, k: nat)
    requires k < |items|
    ensures Count(LitlenSyms(items), LitlenSym(items[k])) > 0
    ensures items[k].Match? ==> Count(OffsetSyms(items), OffsetSlot(items[k].offset)) > 0
    decreases |items|
  {
    hide Count, LengthSlot, OffsetSlot;
    var front, last := items[..|items| - 1], items[|items| - 1];
    var s, t := LitlenSym(items[k]), if items[k].Match? then OffsetSlot(items[k].offset) else 0;
    CountSplit(LitlenSyms(front), [LitlenSym(last)], s);
    CountOne(LitlenSym(last), s);
    if last.Match? {
      CountSplit(OffsetSyms(front), [OffsetSlot(last.offset)], t);
      CountOne(OffsetSlot(last.offset), t);
    } else {
      assert OffsetSyms(items) == OffsetSyms(front);
    }
    if k < |items| - 1 {
      ItemOccurs(front, k);
    }
  }

  // ---- the items of the header

  function PreWeights(pl: seq<nat>): (w: seq<nat>)
    requires |pl| == PRECODE_SYMS
    ensures |w| == PRECODE_SYMS
  {
    seq(PRECODE_SYMS, s requires 0 <= s < PRECODE_SYMS => ExtraBitsOf(s) + pl[s])
  }

  lemma {:induction false} PreItemsCost(pl: seq<nat>, items: seq<PreItem>)
    requires |pl| == PRECODE_SYMS && PreEncodable(pl, items)
    ensures (forall k :: 0 <= k < |items| ==> SymsOf(items)[k] < PRECODE_SYMS)
      && |PreItemsBits(pl, items)| == Total(SymsOf(items), PreWeights(pl))
    decreases |items|
  {
    hide Code, Front;
    if items != [] {
      var front := AllButLast(items);
      PreItemsCost(pl, front);
      assert SymsOf(items)[..|items| - 1] == SymsOf(front);
    }
  }

  lemma PreCost(pl: seq<nat>, items: seq<PreItem>, freqs: seq<nat>)
    requires |pl| == PRECODE_SYMS == |freqs| && PreEncodable(pl, items)
    requires forall s :: 0 <= s < PRECODE_SYMS ==> freqs[s] == Count(SymsOf(items), s)
    ensures |PreItemsBits(pl, items)| == Dot(freqs, PreWeights(pl), PRECODE_SYMS)
  {
    hide Count, PreEncodable, Dot;
    PreItemsCost(pl, items);
    TotalIsDot(SymsOf(items), PreWeights(pl));
    DotSame(freqs, Frequencies(SymsOf(items), PRECODE_SYMS), PreWeights(pl), PRECODE_SYMS);
  }
}
