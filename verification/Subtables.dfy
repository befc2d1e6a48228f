/** The layout of the subtables: one for every prefix of tb bits that belongs to codewords of more
    than tb bits, in the order of the prefixes. */
module Subtables {
  import opened Arith
  import opened LengthCounts
  import opened Canonical
  import opened Reverse
  import opened Words
  import opened CodeOrder
  import opened DecodeTable

  /** From b bits on, the fewest bits with which the subtable of prefix p is filled by codewords. */
  ghost function Grow(lens: seq<nat>, max: nat, tb: nat, p: nat, b: nat): (r: nat)
    requires tb + b <= max
    ensures b <= r && tb + r <= max
    decreases max - b
  {
    if Used(lens, tb + b) >= (p + 1) * Pow2(b) || tb + b == max then b else Grow(lens, max, tb, p, b + 1)
  }

  ghost function SubBits(c: Spec, tb: nat, p: nat): (b: nat)
    requires Ok(c) && tb <= c.max
    ensures tb + b <= c.max
  {
    Grow(c.lens, c.max, tb, p, 0)
  }

  /** Where the subtable of prefix p starts: behind the main table and all earlier subtables. */
  ghost function SubStart(c: Spec, tb: nat, p: nat): nat
    requires Ok(c) && tb <= c.max
  {
    if p <= Used(c.lens, tb) then Pow2(tb) else SubStart(c, tb, p - 1) + Pow2(SubBits(c, tb, p - 1))
  }

  /** The number of entries that the table needs. */
  ghost function TableSize(c: Spec, tb: nat): nat
    requires Ok(c)
  {
    if tb >= c.max then Pow2(tb) else SubStart(c, tb, Pow2(tb))
  }

  lemma {:induction false} SubStartMonotone(c: Spec, tb: nat, p: nat, q: nat)
    requires Ok(c) && tb <= c.max && p <= q
    ensures Pow2(tb) <= SubStart(c, tb, p) <= SubStart(c, tb, q)
    decreases q, p
  {
    if p == q {
      if p > Used(c.lens, tb) {
        SubStartMonotone(c, tb, p - 1, p - 1);
      }
    } else {
      SubStartMonotone(c, tb, p, q - 1);
    }
  }

  lemma SubEnd(c: Spec, tb: nat, p: nat)
    requires Ok(c) && tb <= c.max && p >= Used(c.lens, tb)
    ensures SubStart(c, tb, p + 1) == SubStart(c, tb, p) + Pow2(SubBits(c, tb, p))
  {
  }

  // ---- the size of a subtable

  lemma {:induction false} GrowSkips(lens: seq<nat>, max: nat, tb: nat, p: nat, a: nat, b: nat)
    requires a <= b && tb + b <= max
    requires forall i :: a <= i < b ==> Used(lens, tb + i) < (p + 1) * Pow2(i)
    ensures Grow(lens, max, tb, p, a) == Grow(lens, max, tb, p, b)
    decreases b - a
  {
    if a < b {
      assert Used(lens, tb + a) < (p + 1) * Pow2(a);
      GrowSkips(lens, max, tb, p, a + 1, b);
    }
  }

  lemma PrefixesFit(p: nat, tb: nat, b: nat)
    requires p < Pow2(tb)
    ensures (p + 1) * Pow2(b) <= Pow2(tb + b)
  {
    hide Pow2;
    Pow2Add(tb, b);
    MulMonotone(Pow2(b), p + 1, Pow2(tb));
  }

  lemma {:induction false} GrowFills(lens: seq<nat>, max: nat, tb: nat, p: nat, b: nat)
    requires Complete(lens, max) && tb + b <= max && p < Pow2(tb)
    ensures var r := Grow(lens, max, tb, p, b); Used(lens, tb + r) >= (p + 1) * Pow2(r)
    decreases max - b
  {
    hide Used, Pow2;
    PrefixesFit(p, tb, b);
    if tb + b == max {
    } else if Used(lens, tb + b) < (p + 1) * Pow2(b) {
      GrowFills(lens, max, tb, p, b + 1);
    }
  }

  // ---- codewords that need a subtable

  /** The first tb bits of the codeword of s, most significant first. */
  ghost function Prefix(lens: seq<nat>, tb: nat, s: nat): nat
    requires s < |lens| && lens[s] > tb
  {
    Shr(CodeValue(lens, s), lens[s] - tb)
  }

  lemma PrefixBounds(lens: seq<nat>, max: nat, tb: nat, s: nat)
    requires Complete(lens, max) && s < |lens| && lens[s] > tb
    ensures Prefix(lens, tb, s) < Pow2(tb)
    ensures Prefix(lens, tb, s) * Pow2(lens[s] - tb) <= CodeValue(lens, s)
      < (Prefix(lens, tb, s) + 1) * Pow2(lens[s] - tb)
  {
    hide CodeValue, Used;
    CodeFits(lens, s, max);
    ShrBounds(CodeValue(lens, s), tb, lens[s] - tb);
  }

  /** The used code space of a shorter length, in units of the codeword's own length. */
  lemma ShorterBelow(lens: seq<nat>, s: nat, l: nat)
    requires s < |lens| && lens[s] > l
    ensures Used(lens, l) * Pow2(lens[s] - l) <= CodeValue(lens, s)
  {
    hide Used;
    var m := lens[s] - 1;
    UsedGrows(lens, l, m);
    Twice(Used(lens, l), Pow2(m - l));
    PowStep(m - l);
  }

  lemma PrefixStart(c: Spec, tb: nat, s: nat)
    requires Ok(c) && s < |c.lens| && c.lens[s] > tb
    ensures tb < c.max && Prefix(c.lens, tb, s) >= Used(c.lens, tb)
  {
    hide Used, CodeValue, Prefix;
    PrefixBounds(c.lens, c.max, tb, s);
    ShorterBelow(c.lens, s, tb);
    Less(Used(c.lens, tb), Prefix(c.lens, tb, s) + 1, Pow2(c.lens[s] - tb), CodeValue(c.lens, s));
  }

  lemma CoveredIsBelow(u: nat, p: nat, b: nat, m: nat, v: nat)
    requires u * Pow2(m) <= v < (p + 1) * Pow2(b + m)
    ensures u < (p + 1) * Pow2(b)
  {
    hide Pow2;
    Pow2Add(b, m);
    Associate(p + 1, Pow2(b), Pow2(m));
    Less(u, (p + 1) * Pow2(b), Pow2(m), v);
  }

  /** The subtable of a prefix has enough bits for every codeword with that prefix. */
  lemma FitsSubtable(c: Spec, tb: nat, s: nat)
    requires Ok(c) && s < |c.lens| && c.lens[s] > tb
    ensures tb < c.max && c.lens[s] <= tb + SubBits(c, tb, Prefix(c.lens, tb, s))
  {
    hide Used, CodeValue, Grow, Prefix;
    var l, p := c.lens[s], Prefix(c.lens, tb, s);
    PrefixBounds(c.lens, c.max, tb, s);
    PrefixStart(c, tb, s);
    GrowFills(c.lens, c.max, tb, p, 0);
    var b := SubBits(c, tb, p);
    if l > tb + b {
      ShorterBelow(c.lens, s, tb + b);
      CoveredIsBelow(Used(c.lens, tb + b), p, b, l - (tb + b), CodeValue(c.lens, s));
    }
  }

  /** The word of s: its prefix in the low tb bits, the rest above them. */
  lemma WordParts(lens: seq<nat>, tb: nat, s: nat)
    requires s < |lens| && lens[s] > tb
    ensures Low(Word(lens, s), tb) == Reversed(Prefix(lens, tb, s), tb)
    ensures Shr(Word(lens, s), tb) < Pow2(lens[s] - tb)
  {
    ReversedParts(CodeValue(lens, s), tb, lens[s] - tb);
  }

  /** A bit buffer starts with s exactly when its low bits are the prefix and the next ones the rest. */
  lemma StartsParts(lens: seq<nat>, tb: nat, x: nat, s: nat)
    requires s < |lens| && lens[s] > tb
    ensures Starts(lens, x, s) <==>
      Low(x, tb) == Low(Word(lens, s), tb) && Low(Shr(x, tb), lens[s] - tb) == Shr(Word(lens, s), tb)
  {
    hide Low, Shr, Word;
    var m, w := lens[s] - tb, Word(lens, s);
    LowOfShr(x, tb, m);
    WordFits(lens, s);
    LowOfShr(w, tb, m);
    LowFits(w, lens[s]);
    LowOfLow(x, tb, lens[s]);
  }

  lemma WordFits(lens: seq<nat>, s: nat)
    requires s < |lens| && lens[s] > 0
    ensures Word(lens, s) < Pow2(lens[s])
  {
  }
}
