/** How large a decode table has to be: no larger than one entry for each value of the main bits and a
    full subtable for each symbol. */
module TableRoom {
  import opened Arith
  import opened LengthCounts
  import opened Canonical
  import opened DecodeTable
  import opened Subtables

  /** The number of codewords of more than a and at most b bits. */
  ghost function Longer(lens: seq<nat>, a: nat, b: nat): nat {
    if b <= a then 0 else Longer(lens, a, b - 1) + Count(lens, b)
  }

  lemma {:induction false} LongerOne(front: seq<nat>, v: nat, a: nat, b: nat)
    ensures Longer(front + [v], a, b) == Longer(front, a, b) + if a < v <= b then 1 else 0
    decreases b
  {
    hide Count;
    if b > a {
      LongerOne(front, v, a, b - 1);
      CountSplit(front, [v], b);
      CountOne(v, b);
    }
  }

  lemma {:induction false} LongerNone(a: nat, b: nat)
    ensures Longer([], a, b) == 0
    decreases b
  {
    if b > a {
      LongerNone(a, b - 1);
      assert Marks([], b) == [];
    }
  }

  /** There are no more codewords than symbols. */
  lemma {:induction false} LongerFew(lens: seq<nat>, a: nat, b: nat)
    ensures Longer(lens, a, b) <= |lens|
  {
    if lens == [] {
      LongerNone(a, b);
    } else {
      var front, v := lens[..|lens| - 1], lens[|lens| - 1];
      assert lens == front + [v];
      LongerFew(front, a, b);
      LongerOne(front, v, a, b);
    }
  }

  /** Each prefix that longer codewords share leads to one of them at least. */
  lemma {:induction false} UsedByLonger(lens: seq<nat>, a: nat, b: nat)
    requires a <= b
    ensures Used(lens, b) <= (Used(lens, a) + Longer(lens, a, b)) * Pow2(b - a)
    decreases b
  {
    hide Used, Count;
    if a < b {
      UsedByLonger(lens, a, b - 1);
      UsedStep(lens, b - 1);
      hide Longer;
      OneBitMore(Used(lens, b - 1), Used(lens, a) + Longer(lens, a, b - 1), Count(lens, b), Pow2(b - 1 - a));
    }
  }

  lemma OneBitMore(used: nat, n: nat, c: nat, p: nat)
    requires used <= n * p && p >= 1
    ensures 2 * used + c <= (n + c) * (2 * p)
  {
    Twice(n, p);
    Distribute(2 * p, n, c);
    MulMonotone(c, 1, 2 * p);
  }

  lemma PrefixesFew(lens: seq<nat>, max: nat, tb: nat)
    requires Complete(lens, max) && tb <= max
    ensures Pow2(tb) - Used(lens, tb) <= |lens|
  {
    hide Used, Pow2;
    UsedByLonger(lens, tb, max);
    LongerFew(lens, tb, max);
    Pow2Add(tb, max - tb);
    NotLess(Used(lens, tb) + Longer(lens, tb, max), Pow2(tb), Pow2(max - tb));
  }

  lemma NotLess(u: nat, v: nat, p: nat)
    requires v * p <= u * p && p >= 1
    ensures v <= u
  {
    if u < v {
      MulMonotone(p, u + 1, v);
      Distribute(p, u, 1);
    }
  }

  lemma {:induction false} SubStartBound(c: Spec, tb: nat, p: nat)
    requires Ok(c) && tb <= c.max && p >= Used(c.lens, tb)
    ensures SubStart(c, tb, p) <= Pow2(tb) + (p - Used(c.lens, tb)) * Pow2(c.max - tb)
    decreases p
  {
    hide Used, Pow2, SubBits;
    var u := Used(c.lens, tb);
    if p > u {
      SubStartBound(c, tb, p - 1);
      Pow2Monotone(SubBits(c, tb, p - 1), c.max - tb);
      OneMore(p - 1 - u, Pow2(c.max - tb));
    }
  }

  lemma OneMore(n: nat, p: nat)
    ensures n * p + p == (n + 1) * p
  {
  }

  lemma SubtablesFew(c: Spec, tb: nat)
    requires Ok(c) && tb < c.max
    ensures Used(c.lens, tb) <= Pow2(tb)
    ensures (Pow2(tb) - Used(c.lens, tb)) * Pow2(c.max - tb) <= |c.lens| * Pow2(c.max - tb)
  {
    hide Used, Pow2;
    PrefixesFew(c.lens, c.max, tb);
    UsedWithin(c, tb);
    MulMonotone(Pow2(c.max - tb), Pow2(tb) - Used(c.lens, tb), |c.lens|);
  }

  /** A table of this size is large enough for the code. */
  lemma TableBound(c: Spec, tb: nat)
    requires Ok(c)
    ensures TableSize(c, tb) <= Pow2(tb) + |c.lens| * (if tb < c.max then Pow2(c.max - tb) else 0)
  {
    hide Used, Pow2, SubStart, Ok, Complete;
    if tb < c.max {
      SubtablesFew(c, tb);
      SubStartBound(c, tb, Pow2(tb));
    }
  }

  lemma UsedWithin(c: Spec, tb: nat)
    requires Ok(c) && tb < c.max
    ensures Used(c.lens, tb) <= Pow2(tb)
  {
    hide Used, Pow2;
    UsedGrows(c.lens, tb, c.max);
    Pow2Add(tb, c.max - tb);
    if Used(c.lens, tb) > Pow2(tb) {
      MulMonotone(Pow2(c.max - tb), Pow2(tb) + 1, Used(c.lens, tb));
      Distribute(Pow2(c.max - tb), Pow2(tb), 1);
    }
  }
}
