/** The symbols in the order of their codewords: by length, then by value. */
module CodeOrder {
  import opened Arith
  import opened Bits
  import opened LengthCounts
  import opened Canonical
  import opened Reverse
  import opened Words

  /** The number of codewords shorter than l. */
  ghost function Base(lens: seq<nat>, l: nat): nat {
    if l <= 1 then 0 else Base(lens, l - 1) + Count(lens, l - 1)
  }

  lemma {:induction false} BaseMonotone(lens: seq<nat>, l: nat, m: nat)
    requires l <= m
    ensures Base(lens, l) <= Base(lens, m)
    decreases m
  {
    if l < m {
      BaseMonotone(lens, l, m - 1);
    }
  }

  ghost function Place(lens: seq<nat>, s: nat): nat
    requires s < |lens|
  {
    Base(lens, lens[s]) + Rank(lens, s)
  }

  /** sl lists the symbols that have codewords, in the order of the codewords. */
  ghost predicate InOrder(lens: seq<nat>, sl: seq<nat>, max: nat) {
    && |sl| == Base(lens, max + 1)
    && (forall p :: 0 <= p < |sl| ==> sl[p] < |lens| && 0 < lens[sl[p]] <= max && Place(lens, sl[p]) == p)
    && (forall s :: 0 <= s < |lens| && lens[s] > 0 ==> Place(lens, s) < |sl| && sl[Place(lens, s)] == s)
  }

  lemma PlaceBound(lens: seq<nat>, s: nat)
    requires s < |lens| && lens[s] > 0
    ensures Base(lens, lens[s]) <= Place(lens, s) < Base(lens, lens[s] + 1)
  {
    RankBound(lens, s);
  }

  /** The k-th symbol has length l when k lies in the range of l. */
  lemma LengthAt(lens: seq<nat>, sl: seq<nat>, max: nat, k: nat, l: nat)
    requires InOrder(lens, sl, max) && k < |sl| && Base(lens, l) <= k < Base(lens, l + 1)
    ensures lens[sl[k]] == l
  {
    var m := lens[sl[k]];
    PlaceBound(lens, sl[k]);
    if m < l {
      BaseMonotone(lens, m + 1, l);
    } else if l < m {
      BaseMonotone(lens, l + 1, m);
    }
  }

  lemma DistinctInOrder(lens: seq<nat>, sl: seq<nat>, max: nat, j: nat, k: nat)
    requires InOrder(lens, sl, max) && j < k < |sl|
    ensures sl[j] != sl[k]
  {
  }

  // ---- the codeword value after k symbols, at length l

  /** The value at which the codewords of length l continue after the first k codewords. */
  ghost function Boundary(lens: seq<nat>, k: nat, l: nat): nat
    requires l >= 1 && Base(lens, l) <= k
  {
    2 * Used(lens, l - 1) + (k - Base(lens, l))
  }

  lemma BoundaryIsCode(lens: seq<nat>, sl: seq<nat>, max: nat, k: nat, l: nat)
    requires InOrder(lens, sl, max) && l >= 1 && k < |sl| && Base(lens, l) <= k < Base(lens, l + 1)
    ensures lens[sl[k]] == l && Boundary(lens, k, l) == CodeValue(lens, sl[k])
  {
    LengthAt(lens, sl, max, k, l);
  }

  /** At the end of a length the boundary is the used code space; one more bit doubles it. */
  lemma BoundaryStep(lens: seq<nat>, l: nat)
    requires l >= 1
    ensures Base(lens, l) <= Base(lens, l + 1)
    ensures Boundary(lens, Base(lens, l + 1), l) == Used(lens, l)
    ensures Boundary(lens, Base(lens, l + 1), l + 1) == 2 * Used(lens, l)
  {
    UsedStep(lens, l - 1);
  }

  lemma BoundaryBound(lens: seq<nat>, max: nat, k: nat, l: nat)
    requires Valid(lens, max) && 1 <= l <= max && Base(lens, l) <= k < Base(lens, l + 1)
    ensures Boundary(lens, k, l) < Used(lens, l) <= Pow2(l)
  {
    UsedStep(lens, l - 1);
    UsedFits(lens, l, max);
  }

  /** A full code space leaves no room for longer codewords. */
  lemma {:induction false} FullEnds(lens: seq<nat>, max: nat, l: nat, m: nat)
    requires Valid(lens, max) && l <= m <= max && Used(lens, l) == Pow2(l)
    ensures Used(lens, m) == Pow2(m) && Base(lens, m + 1) == Base(lens, l + 1)
    decreases m
  {
    hide Used, Pow2, Count, Base, Valid;
    if l < m {
      FullEnds(lens, max, l, m - 1);
      NoRoom(lens, max, m - 1);
      BaseStep(lens, m);
    }
  }

  lemma NoRoom(lens: seq<nat>, max: nat, m: nat)
    requires Valid(lens, max) && m < max && Used(lens, m) == Pow2(m)
    ensures Used(lens, m + 1) == Pow2(m + 1) && Count(lens, m + 1) == 0
  {
    hide Used, Pow2, Count, Valid;
    UsedStep(lens, m);
    UsedFits(lens, m + 1, max);
    PowStep(m);
  }

  lemma {:induction false} NoneLonger(lens: seq<nat>, l: nat, m: nat)
    requires 1 <= l <= m && Base(lens, m + 1) == Base(lens, l + 1)
    ensures Used(lens, m) == Used(lens, l) * Pow2(m - l)
    decreases m
  {
    assert Pow2(0) == 1;
    hide Used, Pow2, Base, Count;
    if l < m {
      BaseMonotone(lens, l + 1, m);
      BaseStep(lens, m);
      NoneLonger(lens, l, m - 1);
      assert Used(lens, m) == 2 * Used(lens, m - 1) by {
        UsedStep(lens, m - 1);
      }
      TimesPow(Used(lens, l), m - l);
    }
  }

  /** The last codeword, and only the last, is all ones. */
  lemma LastIsOnes(lens: seq<nat>, max: nat, k: nat, l: nat)
    requires Complete(lens, max) && 1 <= l <= max && Base(lens, l) <= k < Base(lens, l + 1)
    ensures Boundary(lens, k, l) + 1 == Pow2(l) <==> k + 1 == Base(lens, max + 1)
  {
    hide Used, Base, Pow2;
    BoundaryBound(lens, max, k, l);
    UsedStep(lens, l - 1);
    BaseStep(lens, l);
    BaseMonotone(lens, l + 1, max + 1);
    if Boundary(lens, k, l) + 1 == Pow2(l) {
      FullEnds(lens, max, l, max);
    }
    if k + 1 == Base(lens, max + 1) {
      NoneLonger(lens, l, max);
      Pow2Add(l, max - l);
      SameFactor(Used(lens, l), Pow2(l), Pow2(max - l));
    }
  }

  lemma BaseStep(lens: seq<nat>, l: nat)
    requires l >= 1
    ensures Base(lens, l + 1) == Base(lens, l) + Count(lens, l)
  {
  }

  lemma SameFactor(a: nat, b: nat, p: nat)
    requires p > 0 && a * p == b * p
    ensures a == b
  {
  }

}
