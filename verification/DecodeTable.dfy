/** The decode table: direct entries for short codewords, pointers to subtables for long ones. */
module DecodeTable {
  import opened Arith
  import opened Packed
  import opened LengthCounts
  import opened Canonical
  import opened Reverse
  import opened Words
  import opened CodeOrder

  const LITERAL: nat := 0x8000_0000
  const EXCEPTIONAL: nat := 0x8000
  const SUBTABLE_POINTER: nat := 0x4000
  const END_OF_BLOCK: nat := 0x2000

  /** What the static parts of the entries of a code look like: nothing in the bits for lengths
      that would overflow, and no subtable flag. */
  predicate Results(dr: seq<u32>) {
    forall s :: 0 <= s < |dr| ==> dr[s] % 0x1_0000 == EXCEPTIONAL + END_OF_BLOCK || dr[s] % 0x1_0000 <= 13
  }

  function MakeEntry(dr: seq<u32>, sym: nat, len: nat): (e: u32)
    requires Results(dr) && sym < |dr| && len <= 15
  {
    dr[sym] + len * 256 + len
  }

  function SubtablePointer(start: nat, bits: nat, tableBits: nat): (e: u32)
    requires start < 0x8000 && bits <= 15 && tableBits <= 15
  {
    start * 0x1_0000 + EXCEPTIONAL + SUBTABLE_POINTER + bits * 256 + tableBits
  }

  predicate IsPointer(e: u32) {
    e / SUBTABLE_POINTER % 2 == 1
  }

  lemma EntryIsNoPointer(dr: seq<u32>, sym: nat, len: nat)
    requires Results(dr) && sym < |dr| && len <= 15
    ensures !IsPointer(MakeEntry(dr, sym, len))
    ensures MakeEntry(dr, sym, len) / 0x1_0000 == dr[sym] / 0x1_0000
  {
    var e, q, r := MakeEntry(dr, sym, len), dr[sym] / 0x1_0000, dr[sym] % 0x1_0000;
    assert e == q * 0x1_0000 + (r + len * 257);
    QuotientIs(e, 0x1_0000, q, r + len * 257);
    if r <= 13 {
      QuotientIs(e, 0x4000, 4 * q, r + len * 257);
    } else {
      QuotientIs(e, 0x4000, 4 * q + 2, 0x2000 + len * 257);
    }
  }

  lemma OddQuotient(e: u32, h: nat, r: nat)
    requires e == 0x8000 * h + 0x4000 + r && r < 0x4000
    ensures IsPointer(e)
  {
    assert e / 0x4000 == 2 * h + 1;
  }

  lemma PointerFlags(start: nat, bits: nat, tableBits: nat)
    requires start < 0x8000 && bits <= 15 && tableBits <= 15
    ensures IsPointer(SubtablePointer(start, bits, tableBits))
  {
    OddQuotient(SubtablePointer(start, bits, tableBits), start * 2 + 1, bits * 256 + tableBits);
  }

  lemma PointerStart(start: nat, bits: nat, tableBits: nat)
    requires start < 0x8000 && bits <= 15 && tableBits <= 15
    ensures SubtablePointer(start, bits, tableBits) / 0x1_0000 == start
    ensures SubtablePointer(start, bits, tableBits) < LITERAL
  {
  }

  lemma PointerBits(start: nat, bits: nat, tableBits: nat)
    requires start < 0x8000 && bits <= 15 && tableBits <= 15
    ensures SubtablePointer(start, bits, tableBits) / 256 % 64 == bits
    ensures SubtablePointer(start, bits, tableBits) % 256 == tableBits
  {
    var e := SubtablePointer(start, bits, tableBits);
    QuotientIs(e, 256, start * 256 + 0xC0 + bits, tableBits);
    QuotientIs(start * 256 + 0xC0 + bits, 64, start * 4 + 3, bits);
  }

  /** A complete code with its symbols in order; what a table is built from. */
  datatype Spec = Spec(lens: seq<nat>, max: nat, sl: seq<nat>, dr: seq<u32>)

  ghost predicate Ok(c: Spec) {
    && 1 <= c.max <= 15 && Complete(c.lens, c.max) && InOrder(c.lens, c.sl, c.max)
    && Results(c.dr) && |c.dr| >= |c.lens|
  }

  ghost function Len(c: Spec, k: nat): nat
    requires Ok(c) && k < |c.sl|
  {
    c.lens[c.sl[k]]
  }

  // ---- walking through the lengths

  /** All codewords up to length l are done, more are to come, and w is where they continue. */
  ghost predicate Between(c: Spec, k: nat, l: nat, w: nat) {
    && Ok(c) && l < c.max && k == Base(c.lens, l + 1) < |c.sl|
    && Used(c.lens, l) < Pow2(l) && w == Reversed(Used(c.lens, l), l)
  }

  /** Codeword k has length l and word w. */
  ghost predicate AtCode(c: Spec, k: nat, l: nat, w: nat) {
    && Ok(c) && 1 <= l <= c.max && k < |c.sl| && Base(c.lens, l) <= k < Base(c.lens, l + 1)
    && c.lens[c.sl[k]] == l && w == Word(c.lens, c.sl[k]) == Reversed(Boundary(c.lens, k, l), l) < Pow2(l)
  }

  lemma SomeCode(lens: seq<nat>, max: nat)
    requires Complete(lens, max) && max >= 1
    ensures Base(lens, max + 1) > 0
  {
    if Base(lens, max + 1) == 0 {
      BaseMonotone(lens, 2, max + 1);
      BaseStep(lens, 1);
      UsedStep(lens, 0);
      NoneLonger(lens, 1, max);
    }
  }

  lemma StartBetween(c: Spec)
    requires Ok(c)
    ensures Between(c, 0, 0, 0)
  {
    SomeCode(c.lens, c.max);
    UsedStep(c.lens, 0);
  }

  /** One bit longer: either there is a codeword of this length or the walk goes on. */
  lemma Longer(c: Spec, k: nat, l: nat, w: nat)
    requires Between(c, k, l, w)
    ensures Count(c.lens, l + 1) == 0 ==> Between(c, k, l + 1, w)
    ensures Count(c.lens, l + 1) > 0 ==> AtCode(c, k, l + 1, w) && k == Base(c.lens, l + 1)
  {
    hide Used, Reversed, Pow2, Count, Complete, InOrder;
    ReversedDouble(Used(c.lens, l), l);
    UsedStep(c.lens, l);
    BaseStep(c.lens, l + 1);
    UsedFitsIn(c, l);
    if Count(c.lens, l + 1) > 0 {
      BoundaryIsCode(c.lens, c.sl, c.max, k, l + 1);
    } else {
      PowStep(l);
      if l + 1 == c.max {
        NotPastEnd(c);
      }
    }
  }

  lemma UsedFitsIn(c: Spec, l: nat)
    requires Ok(c) && l < c.max
    ensures Used(c.lens, l + 1) <= Pow2(l + 1)
  {
    UsedFits(c.lens, l + 1, c.max);
  }

  lemma NotPastEnd(c: Spec)
    requires Ok(c)
    ensures |c.sl| == Base(c.lens, c.max + 1)
  {
  }

  lemma CodeAt(c: Spec, k: nat, l: nat)
    requires Ok(c) && 1 <= l <= c.max && k < |c.sl| && Base(c.lens, l) <= k < Base(c.lens, l + 1)
    ensures AtCode(c, k, l, Reversed(Boundary(c.lens, k, l), l))
  {
    hide Used, Reversed, Pow2, Count, Complete, Boundary, CodeValue, Base;
    BoundaryIsCode(c.lens, c.sl, c.max, k, l);
    WordIs(c.lens, c.sl[k]);
  }

  /** After codeword k: the last one is all ones; otherwise its successor has the next word, or
      the walk continues behind the last codeword of this length. */
  lemma Next(c: Spec, k: nat, l: nat, w: nat)
    requires AtCode(c, k, l, w)
    ensures w == Pow2(l) - 1 <==> k + 1 == |c.sl|
    ensures w != Pow2(l) - 1 ==> w < Pow2(l) - 1
    ensures w != Pow2(l) - 1 && k + 1 < Base(c.lens, l + 1) ==> AtCode(c, k + 1, l, NextWord(w, l))
    ensures w != Pow2(l) - 1 && k + 1 == Base(c.lens, l + 1) ==> Between(c, k + 1, l, NextWord(w, l))
  {
    hide Used, Reversed, Count, InOrder, NextWord, Boundary, Word, CodeValue, Base, Complete;
    var v := Boundary(c.lens, k, l);
    NotPastEnd(c);
    OkValid(c);
    BoundaryBound(c.lens, c.max, k, l);
    OnesIff(v, l);
    LastIsOnes(c.lens, c.max, k, l);
    if w != Pow2(l) - 1 {
      NextWordIncrements(v, l);
      BoundaryNext(c.lens, k, l);
      if k + 1 < Base(c.lens, l + 1) {
        CodeAt(c, k + 1, l);
      } else {
        BoundaryStep(c.lens, l);
        LengthsBelow(c, k, l);
      }
    }
  }

  lemma OkValid(c: Spec)
    requires Ok(c)
    ensures Valid(c.lens, c.max)
  {
  }

  lemma WordIs(lens: seq<nat>, s: nat)
    requires s < |lens| && lens[s] > 0
    ensures Word(lens, s) == Reversed(CodeValue(lens, s), lens[s])
  {
  }

  lemma BoundaryNext(lens: seq<nat>, k: nat, l: nat)
    requires l >= 1 && Base(lens, l) <= k
    ensures Boundary(lens, k + 1, l) == Boundary(lens, k, l) + 1
  {
  }

  lemma LengthsBelow(c: Spec, k: nat, l: nat)
    requires Ok(c) && 1 <= l <= c.max && k + 1 == Base(c.lens, l + 1) < |c.sl|
    ensures l < c.max
  {
  }

  // ---- the main table

  /** The first k codewords have their entries in a table indexed with l bits. */
  ghost predicate Direct(c: Spec, t: seq<u32>, k: nat, l: nat) {
    && Ok(c) && k <= |c.sl| && Pow2(l) <= |t|
    && (forall j :: 0 <= j < k ==> Len(c, j) <= l)
    && forall j, i :: 0 <= j < k && 0 <= i < Pow2(l) && Starts(c.lens, i, c.sl[j]) ==>
         t[i] == MakeEntry(c.dr, c.sl[j], c.lens[c.sl[j]])
  }

  lemma WordStarts(c: Spec, k: nat, l: nat, w: nat)
    requires AtCode(c, k, l, w)
    ensures Starts(c.lens, w, c.sl[k])
    ensures forall i :: 0 <= i < Pow2(l) && Starts(c.lens, i, c.sl[k]) ==> i == w
  {
    LowFits(w, l);
    forall i | 0 <= i < Pow2(l) && Starts(c.lens, i, c.sl[k]) ensures i == w {
      LowFits(i, l);
    }
  }

  lemma Enter(c: Spec, t: seq<u32>, k: nat, l: nat, w: nat)
    requires AtCode(c, k, l, w) && Direct(c, t, k, l)
    ensures w < |t| && Direct(c, t[w := MakeEntry(c.dr, c.sl[k], l)], k + 1, l)
  {
    WordStarts(c, k, l, w);
    var t' := t[w := MakeEntry(c.dr, c.sl[k], l)];
    forall j, i | 0 <= j < k + 1 && 0 <= i < Pow2(l) && Starts(c.lens, i, c.sl[j])
      ensures t'[i] == MakeEntry(c.dr, c.sl[j], c.lens[c.sl[j]])
    {
      if j < k {
        DistinctInOrder(c.lens, c.sl, c.max, j, k);
        if i == w {
          StartsUnique(c.lens, w, c.sl[j], c.sl[k], c.max);
        }
      }
    }
  }

  /** Copying the first half of the table to the second half makes room for one more bit. */
  lemma Double(c: Spec, t: seq<u32>, t': seq<u32>, k: nat, l: nat)
    requires Direct(c, t, k, l) && Pow2(l + 1) <= |t'|
    requires forall i :: 0 <= i < Pow2(l) ==> t'[i] == t[i] && t'[i + Pow2(l)] == t[i]
    ensures Direct(c, t', k, l + 1)
  {
    forall j, i | 0 <= j < k && 0 <= i < Pow2(l + 1) && Starts(c.lens, i, c.sl[j])
      ensures t'[i] == MakeEntry(c.dr, c.sl[j], c.lens[c.sl[j]])
    {
      assert Len(c, j) <= l;
      if i >= Pow2(l) {
        LowAddPow(i - Pow2(l), l, Len(c, j));
        assert Starts(c.lens, i - Pow2(l), c.sl[j]);
        assert t'[i - Pow2(l) + Pow2(l)] == t[i - Pow2(l)];
      }
    }
  }
}
