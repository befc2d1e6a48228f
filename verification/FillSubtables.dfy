/** Filling the subtables of a decode table. */
module FillSubtables {
  import opened Arith
  import opened Packed
  import opened LengthCounts
  import opened Canonical
  import opened Reverse
  import opened Words
  import opened CodeOrder
  import opened DecodeTable
  import opened FillTable
  import opened Subtables

  // ---- how prefixes advance

  /** At length l the codewords continue at v: under prefix p, or at the very start of prefix p + 1. */
  ghost predicate Follows(p: int, v: nat, l: nat, tb: nat) {
    l >= tb && (Shr(v, l - tb) == p || (Shr(v, l - tb) == p + 1 && Low(v, l - tb) == 0))
  }

  lemma {:induction false} ShrLowNext(v: nat, m: nat)
    ensures Low(v, m) + 1 < Pow2(m) ==> Shr(v + 1, m) == Shr(v, m)
    ensures Low(v, m) + 1 == Pow2(m) ==> Shr(v + 1, m) == Shr(v, m) + 1 && Low(v + 1, m) == 0
  {
    hide Shr, Low;
    ShrLow(v, m);
    if Low(v, m) + 1 < Pow2(m) {
      ShrIs(v + 1, m, Shr(v, m), Low(v, m) + 1);
    } else {
      Distribute(Pow2(m), Shr(v, m), 1);
      ShrIs(v + 1, m, Shr(v, m) + 1, 0);
    }
  }

  lemma FollowsNext(v: nat, l: nat, tb: nat)
    requires l > tb
    ensures Follows(Shr(v, l - tb), v + 1, l, tb)
  {
    ShrLowNext(v, l - tb);
  }

  lemma FollowsDouble(p: int, v: nat, l: nat, tb: nat)
    requires Follows(p, v, l, tb)
    ensures Follows(p, 2 * v, l + 1, tb)
  {
    assert l + 1 - tb > 0 && 2 * v / 2 == v && 2 * v % 2 == 0;
  }

  /** The codewords after k continue under the current prefix p or the one after it. */
  ghost predicate Continues(c: Spec, k: nat, l: nat, tb: nat, p: int)
    requires Ok(c) && l >= 1 && Base(c.lens, l) <= k
  {
    Follows(p, Boundary(c.lens, k, l), l, tb)
  }

  /** The next length with a codeword; `count` says how many. */
  method NextSubLength(lenCounts: array<nat>, len0: nat, tb: nat, ghost c: Spec, ghost k: nat, codeword: nat,
                       ghost p: int)
    returns (len: nat, count: nat)
    requires CountsOf(c, lenCounts[..]) && len0 > tb
    requires Between(c, k, len0, codeword) && Follows(p, Used(c.lens, len0), len0, tb)
    ensures AtCode(c, k, len, codeword) && k == Base(c.lens, len) && count == Count(c.lens, len) > 0
    ensures len > len0 && Continues(c, k, len, tb, p)
  {
    hide Between, AtCode, Count, Base, Used, Follows, Boundary;
    len, count := len0, 0;
    while count == 0
      invariant len >= len0 && (count > 0 ==> len > len0)
      invariant count == 0 ==> Between(c, k, len, codeword) && Follows(p, Used(c.lens, len), len, tb)
      invariant count > 0 ==> AtCode(c, k, len, codeword) && k == Base(c.lens, len) && count == Count(c.lens, len)
      invariant count > 0 ==> Follows(p, 2 * Used(c.lens, len - 1), len, tb)
      decreases if count == 0 then 1 else 0, c.max - len
    {
      BetweenBound(c, k, len, codeword);
      Longer(c, k, len, codeword);
      FollowsDouble(p, Used(c.lens, len), len, tb);
      UsedStep(c.lens, len);
      len := len + 1;
      count := lenCounts[len];
      assert count == lenCounts[..][len];
    }
    AtCodeFacts(c, k, len, codeword);
    BoundaryAtBase(c.lens, len);
  }

  lemma BoundaryAtBase(lens: seq<nat>, l: nat)
    requires l >= 1
    ensures Boundary(lens, Base(lens, l), l) == 2 * Used(lens, l - 1)
  {
  }

  /** The first codeword that needs a subtable starts the first unused prefix. */
  lemma FirstSub(c: Spec, t: seq<u32>, k: nat, l: nat, w: nat, tb: nat)
    requires AtCode(c, k, l, w) && k == Base(c.lens, l) && 1 <= tb < l && Direct(c, t, k, tb)
    ensures k == Base(c.lens, tb + 1) && Continues(c, k, l, tb, Used(c.lens, tb) - 1)
  {
    hide Used, Shr, Low, Pow2;
    NoneInBetween(c, t, k, l, tb);
    NoneLonger(c.lens, tb, l - 1);
    Twice(Used(c.lens, tb), Pow2(l - 1 - tb));
    PowStep(l - 1 - tb);
    BoundaryAtBase(c.lens, l);
    ShrIs(Boundary(c.lens, k, l), l - tb, Used(c.lens, tb), 0);
  }

  lemma NoneInBetween(c: Spec, t: seq<u32>, k: nat, l: nat, tb: nat)
    requires Ok(c) && k == Base(c.lens, l) <= |c.sl| && tb < l && Direct(c, t, k, tb)
    ensures k == Base(c.lens, tb + 1)
  {
    BaseMonotone(c.lens, tb + 1, l);
    if Base(c.lens, tb + 1) < k {
      var j := Base(c.lens, tb + 1);
      assert Len(c, j) <= tb;
      PlaceBound(c.lens, c.sl[j]);
      BaseMonotone(c.lens, c.lens[c.sl[j]] + 1, tb + 1);
    }
  }

  // ---- the size of a new subtable

  lemma GrowFirst(c: Spec, k: nat, l: nat, w: nat, tb: nat, i: nat)
    requires AtCode(c, k, l, w) && tb < l && i < l - tb
    ensures Used(c.lens, tb + i) < (Prefix(c.lens, tb, c.sl[k]) + 1) * Pow2(i)
  {
    hide Used, CodeValue, Prefix, Boundary, Base, InOrder, Word, Reversed, Pow2, Results;
    AtCodeFacts(c, k, l, w);
    AtCodeLength(c, k, l, w);
    var s := c.sl[k];
    hide AtCode;
    PrefixBounds(c.lens, c.max, tb, s);
    ShorterBelow(c.lens, s, tb + i);
    CoveredIsBelow(Used(c.lens, tb + i), Prefix(c.lens, tb, s), i, l - (tb + i), CodeValue(c.lens, s));
  }

  /** Computes how many bits the subtable of the current codeword's prefix needs. */
  method SizeSubtable(lenCounts: array<nat>, len: nat, count: nat, tb: nat, ghost c: Spec, ghost k: nat, ghost w: nat,
                      ghost p: nat)
    returns (bits: nat)
    requires AtCode(c, k, len, w) && tb < len && CountsOf(c, lenCounts[..])
    requires count == Base(c.lens, len + 1) - k
    requires p == Prefix(c.lens, tb, c.sl[k]) && Low(CodeValue(c.lens, c.sl[k]), len - tb) == 0
    ensures bits == SubBits(c, tb, p)
  {
    hide Used, CodeValue, Prefix, Boundary, Base, InOrder, AtCode, Count, Grow, Low, Shr, Pow2;
    AtCodeFacts(c, k, len, w);
    CodespaceFrom(c, k, len, w, tb);
    bits := len - tb;
    var codespaceUsed := count;
    forall i | 0 <= i < bits ensures Used(c.lens, tb + i) < (p + 1) * Pow2(i) {
      GrowFirst(c, k, len, w, tb, i);
    }
    while codespaceUsed < Pow2(bits)
      invariant len - tb <= bits && tb + bits <= c.max
      invariant p * Pow2(bits) + codespaceUsed == Used(c.lens, tb + bits)
      invariant forall i :: 0 <= i < bits ==> Used(c.lens, tb + i) < (p + 1) * Pow2(i)
      decreases c.max - bits
    {
      MulSucc(p, Pow2(bits));
      PrefixRoom(c, k, len, w, tb, bits);
      UsedStep(c.lens, tb + bits);
      PowStep(bits);
      Twice(p, Pow2(bits));
      bits := bits + 1;
      codespaceUsed := 2 * codespaceUsed + lenCounts[tb + bits];
      assert lenCounts[tb + bits] == lenCounts[..][tb + bits];
    }
    MulSucc(p, Pow2(bits));
    GrowSkips(c.lens, c.max, tb, p, 0, bits);
    GrowStops(c.lens, c.max, tb, p, bits);
  }

  lemma GrowStops(lens: seq<nat>, max: nat, tb: nat, p: nat, b: nat)
    requires tb + b <= max && Used(lens, tb + b) >= (p + 1) * Pow2(b)
    ensures Grow(lens, max, tb, p, b) == b
  {
  }

  /** At the maximum length the code space is full, so the loop has stopped before. */
  lemma PrefixRoom(c: Spec, k: nat, l: nat, w: nat, tb: nat, b: nat)
    requires AtCode(c, k, l, w) && tb < l && l - tb <= b && tb + b <= c.max
    requires Used(c.lens, tb + b) < (Prefix(c.lens, tb, c.sl[k]) + 1) * Pow2(b)
    ensures tb + b < c.max
  {
    hide Used, CodeValue, Prefix, Boundary, Base, InOrder, Shr, Low, Pow2, Word, Reversed;
    AtCodeFacts(c, k, l, w);
    PrefixBounds(c.lens, c.max, tb, c.sl[k]);
    PrefixesFit(Prefix(c.lens, tb, c.sl[k]), tb, b);
  }

  lemma ShrExact(v: nat, m: nat)
    requires Low(v, m) == 0
    ensures Shr(v, m) * Pow2(m) == v
  {
    hide Shr, Low, Pow2;
    ShrLow(v, m);
  }

  lemma CodespaceFrom(c: Spec, k: nat, l: nat, w: nat, tb: nat)
    requires AtCode(c, k, l, w) && tb < l && Low(CodeValue(c.lens, c.sl[k]), l - tb) == 0
    ensures Prefix(c.lens, tb, c.sl[k]) * Pow2(l - tb) + (Base(c.lens, l + 1) - k) == Used(c.lens, l)
  {
    hide Used, Shr, Low, Pow2, Count, CodeValue, Base;
    AtCodeFacts(c, k, l, w);
    ShrExact(CodeValue(c.lens, c.sl[k]), l - tb);
    UsedStep(c.lens, l - 1);
    BaseStep(c.lens, l);
    BoundaryIsCode(c.lens, c.sl, c.max, k, l);
  }

  // ---- the contents

  /** The table is large enough for all subtables, and its indices fit into a pointer. */
  ghost predicate Enough(c: Spec, tb: nat, size: nat) {
    Ok(c) && 1 <= tb && TableSize(c, tb) <= size <= 0x8000
  }

  lemma SubRange(c: Spec, tb: nat, p: nat, size: nat)
    requires Enough(c, tb, size) && tb < c.max && Used(c.lens, tb) <= p < Pow2(tb)
    ensures Pow2(tb) <= SubStart(c, tb, p) < 0x8000
    ensures SubStart(c, tb, p) + Pow2(SubBits(c, tb, p)) <= size
  {
    hide Used, Grow, SubBits;
    SubStartMonotone(c, tb, p, p + 1);
    SubStartMonotone(c, tb, p + 1, Pow2(tb));
    SubEnd(c, tb, p);
  }

  ghost predicate Pointed(c: Spec, t: seq<u32>, tb: nat, p: nat) {
    && Enough(c, tb, |t|) && tb < c.max && Used(c.lens, tb) <= p < Pow2(tb)
    && SubStart(c, tb, p) < 0x8000 && Reversed(p, tb) < |t|
    && t[Reversed(p, tb)] == SubtablePointer(SubStart(c, tb, p), SubBits(c, tb, p), tb)
  }

  /** The subtable slots of the symbol s. */
  ghost predicate Slot(c: Spec, tb: nat, s: nat, i: nat)
    requires Ok(c) && tb < c.max && s < |c.lens| && c.lens[s] > tb
  {
    var p := Prefix(c.lens, tb, s);
    var st := SubStart(c, tb, p);
    st <= i < st + Pow2(SubBits(c, tb, p)) && Low(i - st, c.lens[s] - tb) == Shr(Word(c.lens, s), tb)
  }

  ghost predicate SubDone(c: Spec, t: seq<u32>, tb: nat, s: nat)
    requires Ok(c) && tb < c.max && s < |c.lens| && c.lens[s] > tb
  {
    && c.lens[s] - tb <= 15
    && Pointed(c, t, tb, Prefix(c.lens, tb, s))
    && forall i :: 0 <= i < |t| && Slot(c, tb, s, i) ==> t[i] == MakeEntry(c.dr, s, c.lens[s] - tb)
  }

  /** All codewords before the k-th are entered; `cur` is the last prefix with a subtable. */
  ghost predicate Partial(c: Spec, t: seq<u32>, tb: nat, k: nat, cur: int) {
    && Enough(c, tb, |t|) && tb < c.max && k <= |c.sl|
    && Direct(c, t, Base(c.lens, tb + 1), tb)
    && Used(c.lens, tb) - 1 <= cur && (Used(c.lens, tb) <= cur ==> Pointed(c, t, tb, cur))
    && forall j :: Base(c.lens, tb + 1) <= j < k ==>
         Len(c, j) > tb && Prefix(c.lens, tb, c.sl[j]) <= cur && SubDone(c, t, tb, c.sl[j])
  }

  lemma SlotRange(c: Spec, tb: nat, s: nat, i: nat, size: nat)
    requires Enough(c, tb, size) && tb < c.max && s < |c.lens| && c.lens[s] > tb && Slot(c, tb, s, i)
    ensures Pow2(tb) <= i < size
    ensures SubStart(c, tb, Prefix(c.lens, tb, s)) <= i < SubStart(c, tb, Prefix(c.lens, tb, s) + 1)
  {
    hide Used, Grow, SubBits, Prefix, SubStart, Word;
    PrefixBounds(c.lens, c.max, tb, s);
    PrefixStart(c, tb, s);
    SubRange(c, tb, Prefix(c.lens, tb, s), size);
    SubEnd(c, tb, Prefix(c.lens, tb, s));
  }

  /** Different symbols have different slots. */
  lemma SlotsDisjoint(c: Spec, tb: nat, s: nat, s': nat, i: nat, size: nat)
    requires Enough(c, tb, size) && tb < c.max && s < |c.lens| && s' < |c.lens| && s != s'
    requires c.lens[s] > tb && c.lens[s'] > tb && Slot(c, tb, s, i)
    ensures !Slot(c, tb, s', i)
  {
    hide Used, Grow, SubBits, Prefix, SubStart, Word, Complete, Starts;
    var p, p' := Prefix(c.lens, tb, s), Prefix(c.lens, tb, s');
    if Slot(c, tb, s', i) {
      SlotRange(c, tb, s, i, size);
      SlotRange(c, tb, s', i, size);
      if p < p' {
        SubStartMonotone(c, tb, p + 1, p');
      } else if p' < p {
        SubStartMonotone(c, tb, p' + 1, p);
      } else {
        SameSlot(c, tb, s, s', p, i - SubStart(c, tb, p));
      }
    }
  }

  lemma Combine(a: nat, u: nat, tb: nat)
    requires a < Pow2(tb)
    ensures Low(a + Pow2(tb) * u, tb) == a && Shr(a + Pow2(tb) * u, tb) == u
  {
    ShrIs(a + Pow2(tb) * u, tb, u, a);
  }

  lemma SameSlot(c: Spec, tb: nat, s: nat, s': nat, p: nat, u: nat)
    requires Ok(c) && s < |c.lens| && s' < |c.lens| && c.lens[s] > tb && c.lens[s'] > tb
    requires Prefix(c.lens, tb, s) == p == Prefix(c.lens, tb, s')
    requires Low(u, c.lens[s] - tb) == Shr(Word(c.lens, s), tb)
    requires Low(u, c.lens[s'] - tb) == Shr(Word(c.lens, s'), tb)
    ensures s == s'
  {
    hide Used, Word, Starts, Prefix, Shr, Low, Pow2;
    var x := Reversed(p, tb) + Pow2(tb) * u;
    Combine(Reversed(p, tb), u, tb);
    WordParts(c.lens, tb, s);
    WordParts(c.lens, tb, s');
    StartsParts(c.lens, tb, x, s);
    StartsParts(c.lens, tb, x, s');
    OkValid(c);
    StartsUnique(c.lens, x, s, s', c.max);
  }

  /** The main table's own entries end below the subtables. */
  lemma MainIndex(c: Spec, tb: nat, k: nat, l: nat, w: nat)
    requires AtCode(c, k, l, w) && tb < l
    ensures Low(w, tb) == Reversed(Prefix(c.lens, tb, c.sl[k]), tb) < Pow2(tb)
    ensures Used(c.lens, tb) <= Prefix(c.lens, tb, c.sl[k]) < Pow2(tb) && tb < c.max
  {
    hide Used, Word, Prefix, Boundary, Low, Reversed;
    AtCodeFacts(c, k, l, w);
    WordParts(c.lens, tb, c.sl[k]);
    PrefixStart(c, tb, c.sl[k]);
    PrefixBounds(c.lens, c.max, tb, c.sl[k]);
  }

  /** The pointer slot of a long codeword is no entry of a short one. */
  lemma DirectKept(c: Spec, t: seq<u32>, tb: nat, m: nat, k: nat, l: nat, w: nat, e: u32)
    requires AtCode(c, k, l, w) && tb < l && m <= k && Direct(c, t, m, tb) && Low(w, tb) < |t|
    ensures Direct(c, t[Low(w, tb) := e], m, tb)
  {
    hide Used, Word, Prefix, Boundary, Low, Reversed, Pow2, Complete;
    AtCodeFacts(c, k, l, w);
    OkValid(c);
    var i0 := Low(w, tb);
    forall j, i | 0 <= j < m && 0 <= i < Pow2(tb) && Starts(c.lens, i, c.sl[j])
      ensures t[i0 := e][i] == MakeEntry(c.dr, c.sl[j], c.lens[c.sl[j]])
    {
      assert Len(c, j) <= tb;
      DistinctInOrder(c.lens, c.sl, c.max, j, k);
      LowOfLow(w, Len(c, j), tb);
      if i == i0 {
        StartsSelf(c, k, l, w);
        StartsUnique(c.lens, w, c.sl[j], c.sl[k], c.max);
      }
    }
  }

  lemma StartsSelf(c: Spec, k: nat, l: nat, w: nat)
    requires AtCode(c, k, l, w)
    ensures Starts(c.lens, w, c.sl[k])
  {
    WordStarts(c, k, l, w);
  }

  lemma SubDoneKept(c: Spec, t: seq<u32>, t': seq<u32>, tb: nat, s: nat)
    requires Ok(c) && tb < c.max && s < |c.lens| && c.lens[s] > tb && SubDone(c, t, tb, s) && |t'| == |t|
    requires forall i :: 0 <= i < |t| && Slot(c, tb, s, i) ==> t'[i] == t[i]
    requires t'[Reversed(Prefix(c.lens, tb, s), tb)] == t[Reversed(Prefix(c.lens, tb, s), tb)]
    ensures SubDone(c, t', tb, s)
  {
  }

  /** Starting the subtable of the next prefix. */
  lemma OpenSubtable(c: Spec, t: seq<u32>, tb: nat, k: nat, l: nat, w: nat, cur: int)
    requires AtCode(c, k, l, w) && tb < l && Partial(c, t, tb, k, cur) && Base(c.lens, tb + 1) <= k
    requires Prefix(c.lens, tb, c.sl[k]) == cur + 1
    ensures SubStart(c, tb, cur + 1) < 0x8000 && Low(w, tb) < |t|
    ensures Partial(c, t[Low(w, tb) := SubtablePointer(SubStart(c, tb, cur + 1), SubBits(c, tb, cur + 1), tb)],
                    tb, k, cur + 1)
  {
    hide Used, Word, Prefix, Boundary, Low, Reversed, Pow2, Slot, SubBits, Base, Complete, Starts;
    var p := cur + 1;
    MainIndex(c, tb, k, l, w);
    SubRange(c, tb, p, |t|);
    var e := SubtablePointer(SubStart(c, tb, p), SubBits(c, tb, p), tb);
    var t' := t[Low(w, tb) := e];
    DirectKept(c, t, tb, Base(c.lens, tb + 1), k, l, w, e);
    forall j | Base(c.lens, tb + 1) <= j < k ensures SubDone(c, t', tb, c.sl[j]) {
      OpenKeeps(c, t, t', tb, c.sl[j], p, e);
    }
  }

  lemma OpenKeeps(c: Spec, t: seq<u32>, t': seq<u32>, tb: nat, s: nat, p: nat, e: u32)
    requires Ok(c) && tb < c.max && s < |c.lens| && c.lens[s] > tb && SubDone(c, t, tb, s)
    requires Prefix(c.lens, tb, s) < p < Pow2(tb) && Reversed(p, tb) < |t| && t' == t[Reversed(p, tb) := e]
    ensures SubDone(c, t', tb, s)
  {
    hide Used, Word, Prefix, Slot;
    var q := Prefix(c.lens, tb, s);
    if Reversed(q, tb) == Reversed(p, tb) {
      ReversedInjective(q, p, tb);
    }
    forall i | 0 <= i < |t| && Slot(c, tb, s, i) ensures t'[i] == t[i] {
      SlotRange(c, tb, s, i, |t|);
    }
    SubDoneKept(c, t, t', tb, s);
  }

  /** Entering the current codeword into all its slots. */
  lemma EnterSlots(c: Spec, t: seq<u32>, t': seq<u32>, tb: nat, k: nat, l: nat, w: nat, cur: nat)
    requires AtCode(c, k, l, w) && tb < l && Partial(c, t, tb, k, cur) && Base(c.lens, tb + 1) <= k
    requires Prefix(c.lens, tb, c.sl[k]) == cur && |t'| == |t| && l - tb <= 15
    requires forall i :: 0 <= i < |t| ==>
      t'[i] == if Slot(c, tb, c.sl[k], i) then MakeEntry(c.dr, c.sl[k], l - tb) else t[i]
    ensures Partial(c, t', tb, k + 1, cur)
  {
    hide Used, Word, Prefix, Boundary, Low, Reversed, Pow2, Slot, SubBits, Base, Complete, Starts, Enough, SubStart,
      Shr;
    var s := c.sl[k];
    AtCodeFacts(c, k, l, w);
    MainIndex(c, tb, k, l, w);
    forall i | 0 <= i < Pow2(tb) && i < |t| ensures t'[i] == t[i] {
      if Slot(c, tb, s, i) {
        SlotRange(c, tb, s, i, |t|);
      }
    }
    PointedKept(c, t, t', tb, cur);
    forall j | Base(c.lens, tb + 1) <= j < k + 1
      ensures Len(c, j) > tb && Prefix(c.lens, tb, c.sl[j]) <= cur && SubDone(c, t', tb, c.sl[j])
    {
      if j < k {
        EnterKeeps(c, t, t', tb, j, k);
      }
    }
  }

  lemma PointedKept(c: Spec, t: seq<u32>, t': seq<u32>, tb: nat, p: nat)
    requires Pointed(c, t, tb, p) && |t'| == |t| && forall i :: 0 <= i < Pow2(tb) && i < |t| ==> t'[i] == t[i]
    ensures Pointed(c, t', tb, p)
  {
  }

  lemma EnterKeeps(c: Spec, t: seq<u32>, t': seq<u32>, tb: nat, j: nat, k: nat)
    requires Ok(c) && j < k < |c.sl| && Len(c, j) > tb && Len(c, k) > tb && tb < c.max
    requires SubDone(c, t, tb, c.sl[j]) && |t'| == |t|
    requires forall i :: 0 <= i < |t| && !Slot(c, tb, c.sl[k], i) ==> t'[i] == t[i]
    requires forall i :: 0 <= i < Pow2(tb) && i < |t| ==> t'[i] == t[i]
    ensures SubDone(c, t', tb, c.sl[j])
  {
    hide Used, Word, Prefix, Slot, Pow2, SubStart, SubBits, Shr;
    DistinctInOrder(c.lens, c.sl, c.max, j, k);
    forall i | 0 <= i < |t| && Slot(c, tb, c.sl[j], i) ensures t'[i] == t[i] {
      SlotsDisjoint(c, tb, c.sl[j], c.sl[k], i, |t|);
    }
    SubDoneKept(c, t, t', tb, c.sl[j]);
  }

  // ---- the method

  /** i is the next slot of the current codeword that is not yet written; those below it are. */
  lemma SlotStep(c: Spec, tb: nat, s: nat, q: nat, u: nat)
    requires Ok(c) && tb < c.max && s < |c.lens| && c.lens[s] > tb
    requires Low(u, c.lens[s] - tb) == Shr(Word(c.lens, s), tb)
    requires var m := c.lens[s] - tb;
      Shr(Word(c.lens, s), tb) + q * Pow2(m) <= u < Shr(Word(c.lens, s), tb) + (q + 1) * Pow2(m)
    ensures u == Shr(Word(c.lens, s), tb) + q * Pow2(c.lens[s] - tb)
  {
    hide Word, Low, Shr, Pow2;
    var m := c.lens[s] - tb;
    ShrLow(u, m);
    MulSucc(q, Pow2(m));
    MulSucc(Shr(u, m), Pow2(m));
    Less(q, Shr(u, m) + 1, Pow2(m), u - Low(u, m));
    Less(Shr(u, m), q + 1, Pow2(m), u - Low(u, m));
  }

  lemma SlotLow(c: Spec, tb: nat, s: nat, q: nat, u: nat)
    requires Ok(c) && tb < c.max && s < |c.lens| && c.lens[s] > tb
    requires u == Shr(Word(c.lens, s), tb) + q * Pow2(c.lens[s] - tb)
    ensures Low(u, c.lens[s] - tb) == Shr(Word(c.lens, s), tb)
  {
    hide Low, Shr, Pow2, Word;
    WordParts(c.lens, tb, s);
    ShrIs(u, c.lens[s] - tb, q, Shr(Word(c.lens, s), tb));
  }

  lemma LowAtMost(x: nat, m: nat)
    ensures Low(x, m) <= x
  {
    hide Low, Shr;
    ShrLow(x, m);
    assert Pow2(m) * Shr(x, m) >= 0;
  }

  /** Writes the entry of symbol s into every slot of its subtable that starts with its last bits. */
  method FillSlots(T: array<u32>, tb: nat, sym: nat, len: nat, start: nat, end: nat, first: nat, entry: u32,
                   ghost c: Spec)
    requires Enough(c, tb, T.Length) && tb < c.max && sym < |c.lens| && c.lens[sym] == len > tb
    requires start == SubStart(c, tb, Prefix(c.lens, tb, sym))
    requires end == start + Pow2(SubBits(c, tb, Prefix(c.lens, tb, sym))) <= T.Length
    requires first == start + Shr(Word(c.lens, sym), tb) < end
    modifies T
    ensures forall i :: 0 <= i < T.Length ==>
      T[i] == if Slot(c, tb, sym, i) then entry else old(T[i])
  {
    hide Used, SubStart, SubBits, Prefix, Word, Shr, Low, Pow2, Complete, InOrder;
    ghost var tail := Shr(Word(c.lens, sym), tb);
    var i := first;
    var stride := Pow2(len - tb);
    ghost var q := 0;
    forall j | 0 <= j < T.Length && Slot(c, tb, sym, j) ensures j >= first {
      LowAtMost(j - start, len - tb);
    }
    while i < end
      invariant i == start + tail + q * stride
      invariant forall j :: 0 <= j < T.Length ==>
        T[j] == if Slot(c, tb, sym, j) && j < i then entry else old(T[j])
      decreases end - i
    {
      SlotLow(c, tb, sym, q, tail + q * stride);
      MulSucc(q, stride);
      forall j | i <= j < i + stride && Slot(c, tb, sym, j) ensures j == i {
        SlotStep(c, tb, sym, q, j - start);
      }
      T[i] := entry;
      i := i + stride;
      q := q + 1;
    }
  }

  lemma NewPrefix(c: Spec, k: nat, l: nat, w: nat, tb: nat, cur: int, idx: nat)
    requires AtCode(c, k, l, w) && tb < l && Base(c.lens, l) <= k && Continues(c, k, l, tb, cur)
    requires cur >= Used(c.lens, tb) ==> cur < Pow2(tb) && idx == Reversed(cur, tb)
    requires cur >= Used(c.lens, tb) - 1
    ensures var p := Prefix(c.lens, tb, c.sl[k]);
      if cur >= Used(c.lens, tb) && Low(w, tb) == idx then p == cur
      else p == cur + 1 && Low(CodeValue(c.lens, c.sl[k]), l - tb) == 0
  {
    hide Used, Low, Shr, Pow2, Reversed, Complete, Base;
    AtCodeFacts(c, k, l, w);
    MainIndex(c, tb, k, l, w);
    BoundaryIsCode(c.lens, c.sl, c.max, k, l);
    var p := Prefix(c.lens, tb, c.sl[k]);
    if cur >= Used(c.lens, tb) && Low(w, tb) == idx {
      ReversedInjective(p, cur, tb);
    }
  }

  lemma TailFits(c: Spec, tb: nat, k: nat, l: nat, w: nat)
    requires AtCode(c, k, l, w) && tb < l
    ensures Shr(w, tb) == Shr(Word(c.lens, c.sl[k]), tb) < Pow2(l - tb)
    ensures Pow2(l - tb) <= Pow2(SubBits(c, tb, Prefix(c.lens, tb, c.sl[k])))
  {
    hide Used, Low, Shr, Reversed, Complete, Base, Prefix, SubBits, Word;
    AtCodeFacts(c, k, l, w);
    WordParts(c.lens, tb, c.sl[k]);
    FitsSubtable(c, tb, c.sl[k]);
    Pow2Monotone(l - tb, SubBits(c, tb, Prefix(c.lens, tb, c.sl[k])));
  }

  /** The variables that describe the current subtable; `cur` is its prefix. */
  ghost predicate Current(c: Spec, tb: nat, cur: int, prefix: int, start: nat, end: nat) {
    && Ok(c) && tb < c.max && cur >= Used(c.lens, tb) - 1 && cur >= -1
    && end == SubStart(c, tb, cur + 1)
    && if cur >= Used(c.lens, tb)
       then cur < Pow2(tb) && prefix == Reversed(cur, tb) && start == SubStart(c, tb, cur)
       else prefix == -1
  }

  lemma CurrentNew(c: Spec, k: nat, l: nat, w: nat, tb: nat, cur: int, prefix: int, start: nat, end: nat)
    requires AtCode(c, k, l, w) && tb < l && Current(c, tb, cur, prefix, start, end)
    requires Continues(c, k, l, tb, cur)
    ensures var p := Prefix(c.lens, tb, c.sl[k]);
      if Low(w, tb) == prefix then p == cur >= Used(c.lens, tb)
      else p == cur + 1 && Low(CodeValue(c.lens, c.sl[k]), l - tb) == 0
    ensures Low(w, tb) == Reversed(Prefix(c.lens, tb, c.sl[k]), tb)
    ensures Used(c.lens, tb) <= Prefix(c.lens, tb, c.sl[k]) < Pow2(tb)
  {
    hide Used, Low, Shr, Pow2, Reversed, Complete, Base, Prefix, SubStart, CodeValue, Word, Boundary, Follows, InOrder;
    AtCodeFacts(c, k, l, w);
    MainIndex(c, tb, k, l, w);
    NewPrefix(c, k, l, w, tb, cur, if cur >= Used(c.lens, tb) then Reversed(cur, tb) else 0);
  }

  /** Enters one codeword of more than tb bits, starting a new subtable when its prefix is new. */
  method EnterLong(T: array<u32>, dr: seq<u32>, lenCounts: array<nat>, sym: nat, tb: nat, len: nat, count: nat,
                   codeword: nat, prefix: int, start: nat, end: nat, ghost c: Spec, ghost k: nat, ghost cur: int)
    returns (prefix': int, start': nat, end': nat, ghost cur': nat)
    requires T as object != lenCounts && CountsOf(c, lenCounts[..])
    requires AtCode(c, k, len, codeword) && tb < len && count == Base(c.lens, len + 1) - k
    requires dr == c.dr && sym == c.sl[k] && Base(c.lens, tb + 1) <= k
    requires Partial(c, T[..], tb, k, cur) && Current(c, tb, cur, prefix, start, end)
    requires Continues(c, k, len, tb, cur)
    modifies T
    ensures cur' == Prefix(c.lens, tb, sym)
    ensures Partial(c, T[..], tb, k + 1, cur') && Current(c, tb, cur', prefix', start', end')
  {
    hide Used, Low, Shr, Pow2, Reversed, Complete, Base, Prefix, SubStart, SubBits, CodeValue, Word, Boundary, InOrder,
      AtCode, Direct, Slot, Enough, Continues, Partial, CountsOf;
    AtCodeFacts(c, k, len, codeword);
    AtCodeLength(c, k, len, codeword);
    CurrentNew(c, k, len, codeword, tb, cur, prefix, start, end);
    cur' := Prefix(c.lens, tb, sym);
    PartialSize(c, T[..], tb, k, cur);
    SubRange(c, tb, cur', T.Length);
    SubEnd(c, tb, cur');
    prefix', start', end' := prefix, start, end;
    if Low(codeword, tb) != prefix {
      prefix' := Low(codeword, tb);
      start' := end;
      var bits := SizeSubtable(lenCounts, len, count, tb, c, k, codeword, cur');
      end' := start' + Pow2(bits);
      ghost var t := T[..];
      OpenSubtable(c, t, tb, k, len, codeword, cur);
      T[prefix'] := SubtablePointer(start', bits, tb);
      assert T[..] == t[prefix' := SubtablePointer(start', bits, tb)];
    }
    ghost var t := T[..];
    TailFits(c, tb, k, len, codeword);
    var entry := MakeEntry(dr, sym, len - tb);
    FillSlots(T, tb, sym, len, start', end', start' + Shr(codeword, tb), entry, c);
    EnterSlots(c, t, T[..], tb, k, len, codeword, cur');
  }

  lemma AtCodeLength(c: Spec, k: nat, l: nat, w: nat)
    requires AtCode(c, k, l, w)
    ensures c.lens[c.sl[k]] == l && w == Word(c.lens, c.sl[k])
  {
  }

  lemma PartialSize(c: Spec, t: seq<u32>, tb: nat, k: nat, cur: int)
    requires Partial(c, t, tb, k, cur)
    ensures Enough(c, tb, |t|) && Pow2(tb) <= |t|
  {
  }

  lemma ContinuesNext(c: Spec, k: nat, l: nat, w: nat, tb: nat)
    requires AtCode(c, k, l, w) && tb < l
    ensures k + 1 < Base(c.lens, l + 1) ==> Continues(c, k + 1, l, tb, Prefix(c.lens, tb, c.sl[k]))
    ensures k + 1 == Base(c.lens, l + 1) ==> Follows(Prefix(c.lens, tb, c.sl[k]), Used(c.lens, l), l, tb)
  {
    hide Used, Low, Shr, Pow2, Reversed, Complete, Base, CodeValue, Word, Boundary, Follows, InOrder;
    AtCodeFacts(c, k, l, w);
    AtCodeLength(c, k, l, w);
    BoundaryIsCode(c.lens, c.sl, c.max, k, l);
    FollowsNext(Boundary(c.lens, k, l), l, tb);
    BoundaryNext(c.lens, k, l);
    BoundaryStep(c.lens, l);
  }

  lemma StartPartial(c: Spec, t: seq<u32>, k: nat, l: nat, w: nat, tb: nat)
    requires AtCode(c, k, l, w) && k == Base(c.lens, l) && 1 <= tb < l && Direct(c, t, k, tb) && Enough(c, tb, |t|)
    ensures var cur := Used(c.lens, tb) - 1;
      && k == Base(c.lens, tb + 1) && Continues(c, k, l, tb, cur)
      && Partial(c, t, tb, k, cur) && Current(c, tb, cur, -1, 0, Pow2(tb))
  {
    hide Low, Shr, Reversed, Complete, Boundary, Follows, InOrder, Starts, Prefix, Continues;
    FirstSub(c, t, k, l, w, tb);
  }

  /** Enters all codewords of more than tb bits, given the first of them. */
  method FillLong(T: array<u32>, sortedSyms: seq<nat>, dr: seq<u32>, lenCounts: array<nat>, tb: nat, k0: nat, len0: nat,
                  count0: nat, codeword0: nat, ghost c: Spec)
    returns (ghost cur: int)
    requires T as object != lenCounts && CountsOf(c, lenCounts[..]) && sortedSyms == c.sl && dr == c.dr
    requires AtCode(c, k0, len0, codeword0) && k0 == Base(c.lens, len0) && count0 == Count(c.lens, len0)
    requires 1 <= tb < len0 && Direct(c, T[..], k0, tb) && Enough(c, tb, T.Length)
    modifies T
    ensures Partial(c, T[..], tb, |c.sl|, cur)
  {
    hide Used, Low, Shr, Pow2, Reversed, Complete, Base, Prefix, SubStart, SubBits, CodeValue, Word, Boundary, InOrder,
      AtCode, Direct, Slot, Enough, Continues, Partial, Current, Count, Between, Follows, CountsOf;
    var k, len, count, codeword := k0, len0, count0, codeword0;
    var prefix, start, end := -1, 0, Pow2(tb);
    cur := Used(c.lens, tb) - 1;
    AtCodeFacts(c, k, len, codeword);
    StartPartial(c, T[..], k, len, codeword, tb);
    while true
      invariant AtCode(c, k, len, codeword) && tb < len && count == Base(c.lens, len + 1) - k
      invariant Ok(c) && Base(c.lens, tb + 1) <= k && Base(c.lens, len) <= k
      invariant Continues(c, k, len, tb, cur)
      invariant Partial(c, T[..], tb, k, cur) && Current(c, tb, cur, prefix, start, end)
      decreases |c.sl| - k
    {
      AtCodeFacts(c, k, len, codeword);
      prefix, start, end, cur :=
        EnterLong(T, dr, lenCounts, sortedSyms[k], tb, len, count, codeword, prefix, start, end, c, k, cur);
      Next(c, k, len, codeword);
      ContinuesNext(c, k, len, codeword, tb);
      k := k + 1;
      if codeword == Pow2(len) - 1 {
        return;
      }
      codeword := NextWord(codeword, len);
      count := count - 1;
      if count == 0 {
        len, count := NextSubLength(lenCounts, len, tb, c, k, codeword, cur);
      }
      AtCodeFacts(c, k, len, codeword);
    }
  }
}
