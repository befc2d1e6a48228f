/** Counting the codeword lengths and sorting the symbols by length, then by value. */
module SortByLength {
  import opened Arith
  import opened LengthCounts
  import opened Canonical
  import opened CodeOrder
  import opened GenCodewords

  ghost predicate AtMost(lens: seq<nat>, max: nat) {
    forall s :: 0 <= s < |lens| ==> lens[s] <= max
  }

  /** The longest length in use, or 1. */
  ghost function Longest(lens: seq<nat>, max: nat): (m: nat)
    ensures m <= max && (max >= 1 ==> m >= 1)
  {
    if max > 1 && Count(lens, max) == 0 then Longest(lens, max - 1) else max
  }

  /** Where the symbols of length l start, when the unused symbols come first. */
  ghost function Offset(lens: seq<nat>, l: nat): nat {
    if l == 0 then 0 else Offset(lens, l - 1) + Count(lens, l - 1)
  }

  ghost function Spot(lens: seq<nat>, s: nat): nat
    requires s < |lens|
  {
    Offset(lens, lens[s]) + Rank(lens, s)
  }

  lemma {:induction false} OffsetIsBase(lens: seq<nat>, l: nat)
    ensures Offset(lens, l + 1) == Count(lens, 0) + Base(lens, l + 1)
  {
    if l > 0 {
      OffsetIsBase(lens, l - 1);
    }
  }

  lemma {:induction false} OffsetMonotone(lens: seq<nat>, l: nat, m: nat)
    requires l <= m
    ensures Offset(lens, l) <= Offset(lens, m)
    decreases m
  {
    if l < m {
      OffsetMonotone(lens, l, m - 1);
    }
  }

  lemma {:induction false} OffsetPrefix(lens: seq<nat>, n: nat, l: nat)
    requires n < |lens|
    ensures Offset(lens[..n + 1], l) == Offset(lens[..n], l) + if lens[n] < l then 1 else 0
  {
    if l > 0 {
      OffsetPrefix(lens, n, l - 1);
      CountPrefix(lens, n, l - 1);
    }
  }

  lemma {:induction false} OffsetOfNone(l: nat)
    ensures Offset([], l) == 0
  {
    if l > 0 {
      OffsetOfNone(l - 1);
      assert Marks([], l - 1) == [];
    }
  }

  lemma {:induction false} OffsetTotal(lens: seq<nat>, max: nat, n: nat)
    requires AtMost(lens, max) && n <= |lens|
    ensures Offset(lens[..n], max + 1) == n
    decreases n
  {
    if n == 0 {
      OffsetOfNone(max + 1);
    } else {
      OffsetPrefix(lens, n - 1, max + 1);
      OffsetTotal(lens, max, n - 1);
    }
  }

  lemma SpotBound(lens: seq<nat>, max: nat, s: nat)
    requires AtMost(lens, max) && s < |lens|
    ensures Offset(lens, lens[s]) <= Spot(lens, s) < Offset(lens, lens[s] + 1) <= |lens|
  {
    hide Count, Rank;
    RankBound(lens, s);
    OffsetEnd(lens, max);
    hide Offset;
    OffsetMonotone(lens, lens[s] + 1, max + 1);
  }

  lemma OffsetEnd(lens: seq<nat>, max: nat)
    requires AtMost(lens, max)
    ensures Offset(lens, max + 1) == |lens|
  {
    OffsetTotal(lens, max, |lens|);
    assert lens[..|lens|] == lens;
  }

  lemma SpotsDiffer(lens: seq<nat>, max: nat, s: nat, t: nat)
    requires AtMost(lens, max) && s < t < |lens|
    ensures Spot(lens, s) != Spot(lens, t)
  {
    SpotBound(lens, max, s);
    SpotBound(lens, max, t);
    if lens[s] == lens[t] {
      RankStrict(lens, s, t);
    } else if lens[s] < lens[t] {
      OffsetMonotone(lens, lens[s] + 1, lens[t]);
    } else {
      OffsetMonotone(lens, lens[t] + 1, lens[s]);
    }
  }

  // ---- the listing is in order

  lemma {:induction false} PlaceTaken(lens: seq<nat>, l: nat, p: nat) returns (s: nat)
    requires p < Base(lens, l + 1)
    ensures s < |lens| && 0 < lens[s] <= l && Place(lens, s) == p
    decreases l
  {
    if p < Base(lens, l) {
      s := PlaceTaken(lens, l - 1, p);
    } else {
      assert lens[..|lens|] == lens;
      s := RankExists(lens, l, p - Base(lens, l), |lens|);
    }
  }

  lemma SpotIsPlace(lens: seq<nat>, s: nat)
    requires s < |lens| && lens[s] > 0
    ensures Spot(lens, s) == Count(lens, 0) + Place(lens, s)
  {
    OffsetIsBase(lens, lens[s] - 1);
  }

  lemma ListedInOrder(lens: seq<nat>, max: nat, sl: seq<nat>)
    requires AtMost(lens, max) && max >= 1 && |sl| == |lens| - Count(lens, 0)
    requires forall s :: 0 <= s < |lens| && lens[s] > 0 ==> Place(lens, s) < |sl| && sl[Place(lens, s)] == s
    ensures InOrder(lens, sl, max)
  {
    hide Place, Base;
    OffsetEnd(lens, max);
    OffsetIsBase(lens, max);
    forall p | 0 <= p < |sl| ensures sl[p] < |lens| && 0 < lens[sl[p]] <= max && Place(lens, sl[p]) == p {
      var s := PlaceTaken(lens, max, p);
    }
  }

  // ---- reducing the maximum

  lemma ShorterMax(lens: seq<nat>, max: nat)
    requires AtMost(lens, max) && max > 1 && Count(lens, max) == 0
    ensures AtMost(lens, max - 1)
  {
    forall s | 0 <= s < |lens| ensures lens[s] <= max - 1 {
      CountPositive(lens, s);
    }
  }

  lemma {:induction false} LongestFits(lens: seq<nat>, max: nat)
    requires AtMost(lens, max) && max >= 1
    ensures AtMost(lens, Longest(lens, max))
    ensures Used(lens, max) == Used(lens, Longest(lens, max)) * Pow2(max - Longest(lens, max))
  {
    hide Used;
    if max > 1 && Count(lens, max) == 0 {
      ShorterMax(lens, max);
      LongestFits(lens, max - 1);
      UsedStep(lens, max - 1);
      Twice(Used(lens, Longest(lens, max)), Pow2(max - 1 - Longest(lens, max)));
    }
  }

  /** Completeness does not depend on the length that the code is measured at. */
  lemma CompleteAtLongest(lens: seq<nat>, max: nat)
    requires AtMost(lens, max) && max >= 1
    ensures Complete(lens, max) <==> Complete(lens, Longest(lens, max))
  {
    hide Used, Pow2, Longest;
    LongestFits(lens, max);
    var m := Longest(lens, max);
    Pow2Add(m, max - m);
    if Used(lens, max) == Pow2(max) {
      SameFactor(Used(lens, m), Pow2(m), Pow2(max - m));
    }
  }

  // ---- the methods

  method CountLengths(lens: seq<nat>, max: nat, lenCounts: array<nat>)
    requires AtMost(lens, max) && max < lenCounts.Length
    modifies lenCounts
    ensures forall l :: 0 <= l <= max ==> lenCounts[l] == Count(lens, l)
  {
    hide Count;
    forall l | 0 <= l <= max {
      lenCounts[l] := 0;
    }
    CountNone();
    for sym := 0 to |lens|
      invariant forall l :: 0 <= l <= max ==> lenCounts[l] == Count(lens[..sym], l)
    {
      forall l | 0 <= l <= max
        ensures Count(lens[..sym + 1], l) == Count(lens[..sym], l) + if lens[sym] == l then 1 else 0
      {
        CountPrefix(lens, sym, l);
      }
      lenCounts[lens[sym]] := lenCounts[lens[sym]] + 1;
    }
    assert lens[..|lens|] == lens;
  }

  lemma CountNone()
    ensures forall l: nat :: Count([], l) == 0
  {
    forall l: nat ensures Count([], l) == 0 {
      assert Marks([], l) == [];
    }
  }

  /** Computes where every length starts, and the code space that all codewords use. */
  method MakeOffsets(lens: seq<nat>, max: nat, lenCounts: array<nat>, offsets: array<nat>) returns (codespaceUsed: nat)
    requires 1 <= max && max < lenCounts.Length && max < offsets.Length && lenCounts != offsets
    requires forall l :: 0 <= l <= max ==> lenCounts[l] == Count(lens, l)
    modifies offsets
    ensures codespaceUsed == Used(lens, max)
    ensures forall l :: 0 <= l <= max ==> offsets[l] == Offset(lens, l)
  {
    hide Used, Count;
    offsets[0] := 0;
    offsets[1] := lenCounts[0];
    codespaceUsed := 0;
    UsedStep(lens, 0);
    for len := 1 to max
      invariant codespaceUsed == Used(lens, len - 1)
      invariant forall l :: 0 <= l <= len ==> offsets[l] == Offset(lens, l)
    {
      offsets[len + 1] := offsets[len] + lenCounts[len];
      codespaceUsed := 2 * codespaceUsed + lenCounts[len];
      UsedStep(lens, len - 1);
    }
    UsedStep(lens, max - 1);
    codespaceUsed := 2 * codespaceUsed + lenCounts[max];
  }

  /** Lists the symbols by length, then by value, unused ones first; leaves in offsets[0] the
      number of unused ones. */
  method ListSymbols(lens: seq<nat>, max: nat, offsets: array<nat>, sortedSyms: array<nat>)
    requires AtMost(lens, max) && max < offsets.Length && |lens| <= sortedSyms.Length && offsets != sortedSyms
    requires forall l :: 0 <= l <= max ==> offsets[l] == Offset(lens, l)
    modifies offsets, sortedSyms
    ensures offsets[0] == Count(lens, 0)
    ensures forall s :: 0 <= s < |lens| ==> Spot(lens, s) < |lens| && sortedSyms[Spot(lens, s)] == s
  {
    hide Count, Spot, Offset, Rank;
    CountNone();
    for sym := 0 to |lens|
      invariant forall l :: 0 <= l <= max ==> offsets[l] == Offset(lens, l) + Count(lens[..sym], l)
      invariant forall s :: 0 <= s < sym ==> Spot(lens, s) < |lens| && sortedSyms[Spot(lens, s)] == s
    {
      forall l | 0 <= l <= max
        ensures Count(lens[..sym + 1], l) == Count(lens[..sym], l) + if lens[sym] == l then 1 else 0
      {
        CountPrefix(lens, sym, l);
      }
      forall s | 0 <= s < sym ensures Spot(lens, s) != Spot(lens, sym) {
        SpotsDiffer(lens, max, s, sym);
      }
      SpotBound(lens, max, sym);
      SpotIs(lens, sym);
      sortedSyms[offsets[lens[sym]]] := sym;
      offsets[lens[sym]] := offsets[lens[sym]] + 1;
    }
    assert lens[..|lens|] == lens;
    OffsetZero(lens);
  }

  lemma SpotIs(lens: seq<nat>, s: nat)
    requires s < |lens|
    ensures Spot(lens, s) == Offset(lens, lens[s]) + Count(lens[..s], lens[s])
  {
  }

  lemma OffsetZero(lens: seq<nat>)
    ensures Offset(lens, 0) == 0
  {
  }
}
