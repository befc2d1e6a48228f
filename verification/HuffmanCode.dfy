/** Length-limited canonical Huffman codes from symbol frequencies. */
module HuffmanCode {
  import opened Arith
  import opened Packed
  import opened Bits
  import opened HuffmanTree
  import opened TreeDepths
  import opened LengthCounts
  import opened Canonical
  import opened GenCodewords
  import opened SortSymbols
  import opened Optimal
  import opened Dyadic

  // ---- sums over the alphabet and over the sorted symbols

  ghost function Through(v: seq<nat>, syms: seq<nat>): (r: seq<nat>)
    requires Symbols(syms, |v|)
    ensures |r| == |syms| && forall k :: 0 <= k < |r| ==> r[k] == v[syms[k]]
  {
    seq(|syms|, k requires 0 <= k < |syms| => v[syms[k]])
  }

  lemma {:induction false} SumZero(v: seq<nat>)
    requires forall s :: 0 <= s < |v| ==> v[s] == 0
    ensures Sum(v) == 0
  {
    if v != [] {
      SumZero(v[1..]);
    }
  }

  /** Values that vanish on unlisted symbols sum to the same over the list as over the alphabet. */
  lemma {:induction false} SumThrough(v: seq<nat>, syms: seq<nat>)
    requires Symbols(syms, |v|)
    requires forall s :: 0 <= s < |v| && s !in syms ==> v[s] == 0
    ensures Sum(v) == Sum(Through(v, syms))
    decreases |syms|
  {
    if syms == [] {
      SumZero(v);
    } else {
      var s, v', rest := syms[0], v[syms[0] := 0], syms[1..];
      assert syms == [s] + rest;
      SumThrough(v', rest);
      assert Through(v', rest) == Through(v, syms)[1..];
      SumUpdate(v, s, 0);
    }
  }

  // ---- competitors: any lengths for the used symbols

  /** The shares of the code space taken by the used symbols, in units of 2^-d. */
  ghost function UsedShares(freqs: seq<nat>, l: seq<nat>, d: nat): (r: seq<nat>)
    requires |l| == |freqs| && forall s :: 0 <= s < |l| ==> l[s] <= d
    ensures |r| == |l| && forall s :: 0 <= s < |l| ==> r[s] == if freqs[s] > 0 then Pow2(d - l[s]) else 0
  {
    seq(|l|, s requires 0 <= s < |l| => if freqs[s] > 0 then Pow2(d - l[s]) else 0)
  }

  /** Some code gives every used symbol s a codeword of l[s] bits: the Kraft inequality. */
  ghost predicate Feasible(freqs: seq<nat>, l: seq<nat>, d: nat) {
    && |l| == |freqs| && (forall s :: 0 <= s < |l| ==> l[s] <= d)
    && Sum(UsedShares(freqs, l, d)) <= Pow2(d)
  }

  /** The number of bits needed to send all symbols. */
  ghost function TotalBits(freqs: seq<nat>, l: seq<nat>): nat
    requires |freqs| == |l|
  {
    Sum(Products(freqs, l))
  }

  ghost predicate MinimumRedundancy(freqs: seq<nat>, lens: seq<nat>) {
    && |lens| == |freqs|
    && forall l, d :: Feasible(freqs, l, d) ==> TotalBits(freqs, lens) <= TotalBits(freqs, l)
  }

  // ---- from the sorted list back to the alphabet

  ghost predicate Listed(freqs: seq<nat>, syms: seq<nat>, f: seq<nat>) {
    && Symbols(syms, |freqs|) && f == Through(freqs, syms)
    && (forall s :: 0 <= s < |freqs| ==> (freqs[s] > 0 <==> s in syms))
  }

  lemma ListedSyms(freqs: seq<nat>, out: seq<u32>)
    requires SortedSymbols(freqs, out)
    ensures Listed(freqs, Syms(out), His(out)) && Sorted(His(out)) && Sum(His(out)) == Sum(freqs)
  {
    var syms, f := Syms(out), His(out);
    forall j, k | 0 <= j < k < |syms| ensures syms[j] != syms[k] && f[j] <= f[k] {
      assert out[j] < out[k];
    }
    forall s | 0 <= s < |freqs| && s in syms ensures freqs[s] > 0 {
      var k :| 0 <= k < |syms| && syms[k] == s;
      assert out[k] == out[k];
    }
    SumThrough(freqs, syms);
  }

  lemma BitsThrough(freqs: seq<nat>, syms: seq<nat>, f: seq<nat>, l: seq<nat>)
    requires Listed(freqs, syms, f) && |l| == |freqs|
    ensures TotalBits(freqs, l) == Sum(Products(f, Through(l, syms)))
  {
    var v := Products(freqs, l);
    forall s | 0 <= s < |v| && s !in syms ensures v[s] == 0 {
      TimesZero(l[s]);
    }
    SumThrough(v, syms);
    assert Through(v, syms) == Products(f, Through(l, syms));
  }

  lemma {:induction false} TimesZero(l: nat)
    ensures Times(0, l) == 0
  {
    if l > 0 {
      TimesZero(l - 1);
    }
  }

  lemma SharesThrough(freqs: seq<nat>, syms: seq<nat>, f: seq<nat>, l: seq<nat>, d: nat)
    requires Listed(freqs, syms, f) && |l| == |freqs| && forall s :: 0 <= s < |l| ==> l[s] <= d
    ensures forall k :: 0 <= k < |syms| ==> Through(l, syms)[k] <= d
    ensures Sum(UsedShares(freqs, l, d)) == Sum(Shares(Through(l, syms), d))
  {
    SumThrough(UsedShares(freqs, l, d), syms);
    assert Through(UsedShares(freqs, l, d), syms) == Shares(Through(l, syms), d);
  }

  /** Lengths assigned in the order of the tree's leaves are as good as any. */
  lemma AssignedIsOptimal(freqs: seq<nat>, syms: seq<nat>, f: seq<nat>, g: Merge, lens: seq<nat>)
    requires Listed(freqs, syms, f) && Tree(f, g) && |lens| == |freqs|
    requires Through(lens, syms) == LeafDepths(g)
    ensures MinimumRedundancy(freqs, lens)
  {
    hide Tree, Sum, Parents, LeafParents, Times, Pow2, Depth;
    BitsThrough(freqs, syms, f, lens);
    forall l, d | Feasible(freqs, l, d) ensures TotalBits(freqs, lens) <= TotalBits(freqs, l) {
      SharesThrough(freqs, syms, f, l, d);
      BitsThrough(freqs, syms, f, l);
      TreeIsOptimal(f, g, Through(l, syms), d);
    }
  }

  /** No leaf is deeper than the limit, so nothing was clamped. */
  ghost predicate Unclamped(f: seq<nat>, g: Merge, max: nat) {
    Tree(f, g) && forall k :: 0 <= k < |f| ==> LeafDepths(g)[k] <= max
  }

  /** The lengths handed out by decreasing length are exactly the depths of the leaves. */
  lemma DescendingIsDepths(f: seq<nat>, g: Merge, c: seq<nat>, max: nat)
    requires Visited(f, g, 0, c, max) && Unclamped(f, g, max)
    ensures Descending(c) == LeafDepths(g)
  {
    hide Steps, Step, Sum, Pow2, Codespace, Depth;
    var ld := LeafDepths(g);
    NodeDepthBound(f, g, max, 0);
    TracksLeaves(f, g, c);
    DescendingLength(c);
    DescendingShape(c);
    forall j, k | 0 <= j < k < |ld| ensures ld[j] >= ld[k] {
      LeafDepthsDecrease(f, g, j, k);
    }
    forall d: nat ensures Count(Descending(c), d) == Count(ld, d) {
      CountDescending(c, d);
      if d > max || d == 0 {
        if Count(ld, d) > 0 {
          var k := CountFind(ld, d);
        }
      }
    }
    SameCounts(Descending(c), ld);
  }

  /** A more frequent symbol never gets a longer codeword. */
  ghost predicate Ordered(freqs: seq<nat>, lens: seq<nat>) {
    && |freqs| == |lens|
    && forall s, t :: 0 <= s < |freqs| && 0 <= t < |freqs| && 0 < freqs[s] < freqs[t] ==> lens[t] <= lens[s]
  }

  lemma AssignedOrdered(freqs: seq<nat>, syms: seq<nat>, f: seq<nat>, lens: seq<nat>, L: seq<nat>)
    requires Listed(freqs, syms, f) && Sorted(f) && Assigned(lens, syms, L) && |lens| == |freqs|
    requires NonIncreasing(L)
    ensures Ordered(freqs, lens)
  {
    forall s, t | 0 <= s < |freqs| && 0 <= t < |freqs| && 0 < freqs[s] < freqs[t] ensures lens[t] <= lens[s] {
      var j :| 0 <= j < |syms| && syms[j] == s;
      var k :| 0 <= k < |syms| && syms[k] == t;
      assert f[j] == freqs[s] && f[k] == freqs[t];
      assert j < k;
    }
  }

  // ---- frequencies that determine the lengths

  /** Every symbol s is used, with a share of 2^-l[s] of all occurrences. */
  ghost predicate StandsFor(freqs: seq<nat>, l: seq<nat>, d: nat) {
    && |l| == |freqs| && Sum(freqs) == Pow2(d)
    && forall s :: 0 <= s < |l| ==> l[s] <= d && freqs[s] == Pow2(d - l[s])
  }

  lemma StandsForLengths(freqs: seq<nat>, syms: seq<nat>, f: seq<nat>, g: Merge, c: seq<nat>, lens: seq<nat>, max: nat,
                         l: seq<nat>, d: nat)
    requires Listed(freqs, syms, f) && |lens| == |freqs| && StandsFor(freqs, l, d) && d <= max
    requires Visited(f, g, 0, c, max) && Assigned(lens, syms, Descending(c))
    ensures lens == l
  {
    hide Tree, Sum, Pow2, Parents, LeafParents, Depth, Codespace, Count, Tracks, Descending;
    SumThrough(freqs, syms);
    DepthsAreLengths(f, g, Through(l, syms), d);
    DescendingIsDepths(f, g, c, max);
    forall s | 0 <= s < |freqs| ensures lens[s] == l[s] {
      assert freqs[s] > 0 && s in syms;
      var k :| 0 <= k < |syms| && syms[k] == s;
      assert Through(l, syms)[k] == l[s];
    }
  }

  // ---- the result of deflate_make_huffman_code

  /** What holds of the lengths and codewords when at least two symbols are used. */
  ghost predicate Good(freqs: seq<nat>, lens: seq<nat>, codewords: seq<u32>, max: nat) {
    && |lens| == |freqs| <= |codewords|
    && Complete(lens, max)
    && (forall s :: 0 <= s < |freqs| ==> (lens[s] > 0 <==> freqs[s] > 0))
    && Ordered(freqs, lens)
    && (forall s :: 0 <= s < |freqs| && lens[s] > 0 ==> codewords[s] == Le(Code(lens, s)))
  }

  lemma FinishGood(freqs: seq<nat>, syms: seq<nat>, f: seq<nat>, g: Merge, c: seq<nat>, lens: seq<nat>, max: nat)
    requires Listed(freqs, syms, f) && Sorted(f) && |lens| == |freqs|
    requires Visited(f, g, 0, c, max) && Assigned(lens, syms, Descending(c))
    ensures Ordered(freqs, lens)
    ensures forall s :: 0 <= s < |freqs| ==> (lens[s] > 0 <==> freqs[s] > 0)
    ensures Unclamped(f, g, max) ==> MinimumRedundancy(freqs, lens)
  {
    hide Visited, MinimumRedundancy, Sum;
    DescendingShape(c);
    AssignedOrdered(freqs, syms, f, lens, Descending(c));
    if Unclamped(f, g, max) {
      DescendingIsDepths(f, g, c, max);
      assert Through(lens, syms) == LeafDepths(g);
      AssignedIsOptimal(freqs, syms, f, g, lens);
    }
  }

  /** With one used symbol s the code has a second, unused codeword so that it is complete. */
  ghost function PairLengths(n: nat, s: nat): (l: seq<nat>)
    requires s < n && n >= 2
    ensures |l| == n
  {
    var t := if s == 0 then 1 else s;
    seq(n, k => if k == 0 || k == t then 1 else 0)
  }

  lemma {:induction false} PairCount(n: nat, s: nat, m: nat)
    requires s < n && n >= 2 && m <= n
    ensures var t := if s == 0 then 1 else s;
      Count(PairLengths(n, s)[..m], 1) == if m == 0 then 0 else if m <= t then 1 else 2
  {
    var l := PairLengths(n, s);
    if m == 0 {
      assert Marks(l[..0], 1) == [];
    } else {
      PairCount(n, s, m - 1);
      CountPrefix(l, m - 1, 1);
    }
  }

  lemma PairIsComplete(n: nat, s: nat, max: nat)
    requires s < n && n >= 2 && max >= 1
    ensures var t := if s == 0 then 1 else s; var l := PairLengths(n, s);
      Complete(l, max) && Le(Code(l, 0)) == 0 && Le(Code(l, t)) == 1
  {
    var t, l := if s == 0 then 1 else s, PairLengths(n, s);
    assert l[..n] == l;
    PairCount(n, s, n);
    PairCount(n, s, 0);
    PairCount(n, s, t);
    UsedStep(l, 0);
    assert Used(l, 1) == 2;
    PairUsed(l, max);
    assert CodeValue(l, 0) == 0 && CodeValue(l, t) == 1;
    assert Digits(0, 1) == [false] && Digits(1, 1) == [true];
    assert [false][1..] == [] && [true][1..] == [];
  }

  lemma {:induction false} PairUsed(l: seq<nat>, max: nat)
    requires max >= 1 && Used(l, 1) == 2 && forall k :: 0 <= k < |l| ==> l[k] <= 1
    ensures Used(l, max) == Pow2(max)
  {
    if max > 1 {
      PairUsed(l, max - 1);
      UsedStep(l, max - 1);
      if Count(l, max) > 0 {
        var k := CountFind(l, max);
      }
    }
  }

  /** Only s is used. */
  ghost predicate Single(freqs: seq<nat>, lens: seq<nat>, codewords: seq<u32>, max: nat, s: nat) {
    && s < |freqs| == |lens| <= |codewords| && |freqs| >= 2
    && (forall t :: 0 <= t < |freqs| ==> (freqs[t] > 0 <==> t == s))
    && lens == PairLengths(|freqs|, s) && Complete(lens, max)
    && (forall t :: 0 <= t < |freqs| && lens[t] > 0 ==> codewords[t] == Le(Code(lens, t)))
  }

  lemma FinishSingle(freqs: seq<nat>, f: seq<nat>, lens: seq<nat>, codewords: seq<u32>, max: nat, s: nat, t: nat)
    requires Listed(freqs, [s], f) && s < |freqs| == |lens| <= |codewords| && |freqs| >= 2 && max >= 1
    requires t == if s == 0 then 1 else s
    requires forall k :: 0 <= k < |lens| ==> lens[k] == if k == 0 || k == t then 1 else 0
    requires codewords[0] == 0 && codewords[t] == 1
    ensures Single(freqs, lens, codewords, max, s)
  {
    hide Complete, Code;
    PairIsComplete(|freqs|, s, max);
    assert lens == PairLengths(|freqs|, s);
    forall k | 0 <= k < |freqs| ensures freqs[k] > 0 <==> k == s {
      assert k in [s] <==> k == s;
    }
  }

  lemma FinishEmpty(freqs: seq<nat>)
    requires Listed(freqs, [], [])
    ensures forall s :: 0 <= s < |freqs| ==> freqs[s] == 0
  {
    forall s | 0 <= s < |freqs| ensures freqs[s] == 0 {
      assert s !in [];
    }
  }

  lemma ListedSymbols(freqs: seq<nat>, syms: seq<nat>, f: seq<nat>)
    requires Listed(freqs, syms, f)
    ensures Symbols(syms, |freqs|) && |f| == |syms|
    ensures forall s :: 0 <= s < |freqs| && s !in syms ==> freqs[s] == 0
  {
  }

  lemma FinalCounts(f: seq<nat>, g: Merge, c: seq<nat>, max: nat)
    requires Visited(f, g, 0, c, max)
    ensures |c| == max + 1 && c[0] == 0 && Codespace(c) == Pow2(max) && Sum(c) == |f|
  {
  }

  /** How the lengths come from the frequencies.  `g` is the tree of the used symbols `syms`, whose sorted
      frequencies are `f`. */
  ghost predicate MadeFrom(freqs: seq<nat>, lens: seq<nat>, max: nat, syms: seq<nat>, f: seq<nat>, g: Merge) {
    && |lens| == |freqs| >= 2 && Listed(freqs, syms, f)
    && (f == [] ==> forall s :: 0 <= s < |lens| ==> lens[s] == 0)
    && (|f| == 1 ==> lens == PairLengths(|freqs|, syms[0]))
    && (|f| >= 2 ==>
          && Tree(f, g) && Complete(lens, max) && Ordered(freqs, lens)
          && (forall s :: 0 <= s < |freqs| ==> (lens[s] > 0 <==> freqs[s] > 0))
          && (Unclamped(f, g, max) ==> MinimumRedundancy(freqs, lens)))
  }

  ghost predicate Made(freqs: seq<nat>, lens: seq<nat>, max: nat) {
    exists syms, f, g :: MadeFrom(freqs, lens, max, syms, f, g)
  }

  lemma NoneMade(freqs: seq<nat>, lens: seq<nat>, max: nat, g: Merge)
    requires |lens| == |freqs| >= 2 && Listed(freqs, [], []) && forall s :: 0 <= s < |lens| ==> lens[s] == 0
    ensures Made(freqs, lens, max)
  {
    hide Listed;
    assert MadeFrom(freqs, lens, max, [], [], g);
  }

  lemma SingleMade(freqs: seq<nat>, lens: seq<nat>, codewords: seq<u32>, max: nat, s: nat, f: seq<nat>, g: Merge)
    requires Single(freqs, lens, codewords, max, s) && Listed(freqs, [s], f)
    ensures Made(freqs, lens, max)
  {
    hide Complete, Code, Tree, Ordered;
    assert MadeFrom(freqs, lens, max, [s], f, g);
  }

  lemma GoodMade(freqs: seq<nat>, lens: seq<nat>, codewords: seq<u32>, max: nat, syms: seq<nat>, f: seq<nat>, g: Merge)
    requires Listed(freqs, syms, f) && |f| >= 2 && Tree(f, g) && Good(freqs, lens, codewords, max) && |freqs| >= 2
    requires Unclamped(f, g, max) ==> MinimumRedundancy(freqs, lens)
    ensures Made(freqs, lens, max)
  {
    hide Listed, Tree, Unclamped, MinimumRedundancy, Complete, Code, Ordered;
    assert MadeFrom(freqs, lens, max, syms, f, g);
  }

  /** Builds a length-limited canonical Huffman code.  `g` is the tree of the used symbols, whose
      sorted frequencies are `f`. */
  method MakeHuffmanCode(numSyms: nat, maxCodewordLen: nat, freqs: seq<nat>, lens: array<nat>, codewords: array<u32>)
    returns (ghost f: seq<nat>, ghost g: Merge)
    requires 3 <= numSyms == |freqs| == lens.Length <= codewords.Length && numSyms <= SYMBOL_VALUES
    requires 1 <= maxCodewordLen <= 15 && numSyms <= Pow2(maxCodewordLen)
    requires Sum(freqs) < HIGH_VALUES && codewords as object != lens
    modifies lens, codewords
    ensures f == [] ==> forall s :: 0 <= s < numSyms ==> lens[s] == 0 == freqs[s]
    ensures |f| == 1 ==> exists s :: Single(freqs, lens[..], codewords[..], maxCodewordLen, s)
    ensures exists syms :: Listed(freqs, syms, f)
    ensures |f| >= 2 ==> Tree(f, g) && Good(freqs, lens[..], codewords[..], maxCodewordLen)
    ensures |f| >= 2 && Unclamped(f, g, maxCodewordLen) ==> MinimumRedundancy(freqs, lens[..])
    ensures |f| >= 2 ==> forall l: seq<nat>, d: nat :: StandsFor(freqs, l, d) && d <= maxCodewordLen ==> lens[..] == l
    ensures Made(freqs, lens[..], maxCodewordLen)
  {
    hide Sum, Count, Complete, Code, Listed, SortedSymbols, Visited, Assigned, Tree, Unclamped, MinimumRedundancy,
      Single, Codespace, Sorted, Hi, Sym, Ordered, StandsFor, Made;
    g := Merge([], [], [], [], []);
    var numUsedSyms := SortSymbols.SortSymbols(numSyms, freqs, lens, codewords);
    ghost var out := codewords[..numUsedSyms];
    ghost var syms := Syms(out);
    f := His(out);
    ListedSyms(freqs, out);
    ListedSymbols(freqs, syms, f);
    if numUsedSyms == 0 {
      assert syms == [] && f == [];
      FinishEmpty(freqs);
      NoneMade(freqs, lens[..], maxCodewordLen, g);
      return;
    }
    if numUsedSyms == 1 {
      var sym := Sym(codewords[0]);
      assert syms == [sym];
      var nonzeroIdx := if sym != 0 then sym else 1;
      codewords[0] := 0;
      lens[0] := 1;
      codewords[nonzeroIdx] := 1;
      lens[nonzeroIdx] := 1;
      FinishSingle(freqs, f, lens[..], codewords[..], maxCodewordLen, sym, nonzeroIdx);
      SingleMade(freqs, lens[..], codewords[..], maxCodewordLen, sym, f, g);
      return;
    }
    g := BuildTree(codewords, numUsedSyms);
    var lenCounts := new nat[16];
    ComputeLengthCounts(codewords, numUsedSyms - 2, lenCounts, maxCodewordLen, f, g);
    ghost var c := lenCounts[..maxCodewordLen + 1];
    FinalCounts(f, g, c, maxCodewordLen);
    GenCodewords.GenCodewords(codewords, lens, lenCounts, maxCodewordLen, numSyms, syms);
    FinishGood(freqs, syms, f, g, c, lens[..], maxCodewordLen);
    ghost var result := lens[..];
    forall l: seq<nat>, d: nat | StandsFor(freqs, l, d) && d <= maxCodewordLen ensures result == l {
      StandsForLengths(freqs, syms, f, g, c, result, maxCodewordLen, l, d);
    }
    GoodMade(freqs, lens[..], codewords[..], maxCodewordLen, syms, f, g);
  }
}
