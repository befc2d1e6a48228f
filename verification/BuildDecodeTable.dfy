/** Building a decode table from codeword lengths, and looking symbols up in it. */
module BuildDecodeTable {
  import opened Arith
  import opened Packed
  import opened LengthCounts
  import opened Canonical
  import opened GenCodewords
  import opened Reverse
  import opened Words
  import opened CodeOrder
  import opened DecodeTable
  import opened FillTable
  import opened Subtables
  import opened FillSubtables
  import opened SortByLength

  ghost predicate NoCodewords(lens: seq<nat>) {
    forall s :: 0 <= s < |lens| ==> lens[s] == 0
  }

  /** Only s has a codeword, of one bit. */
  ghost predicate OneCodeword(lens: seq<nat>, s: nat) {
    s < |lens| && forall t :: 0 <= t < |lens| ==> lens[t] == if t == s then 1 else 0
  }

  /** The bits x mean the symbol s, in n bits.  With a single codeword every bit stands for its
      symbol, and with none every bit for symbol 0. */
  ghost predicate Means(lens: seq<nat>, x: nat, s: nat, n: nat) {
    && s < |lens|
    && ((Starts(lens, x, s) && n == lens[s])
        || (n == 1 && (OneCodeword(lens, s) || (NoCodewords(lens) && s == 0))))
  }

  /** The table `t` indexed with tb bits decodes the code `lens`: for every bit buffer x and the
      symbol s that it means, the main entry is that of s, or points to a subtable whose entry is. */
  ghost predicate Decoder(t: seq<u32>, lens: seq<nat>, dr: seq<u32>, tb: nat) {
    && Results(dr) && |lens| <= |dr| && Pow2(tb) <= |t| && 1 <= tb <= 15
    && (forall s :: 0 <= s < |lens| ==> lens[s] <= 15)
    && forall x: nat, s: nat, n: nat :: Means(lens, x, s, n) ==> Found(t, dr, tb, x, s, n)
  }

  /** What the lookup for x finds: the entry of s for those of its n bits not yet consumed. */
  ghost predicate Found(t: seq<u32>, dr: seq<u32>, tb: nat, x: nat, s: nat, n: nat) {
    && Results(dr) && s < |dr| && Pow2(tb) <= |t| && 1 <= tb <= 15 && 1 <= n <= 15
    && if n <= tb then
         t[Low(x, tb)] == MakeEntry(dr, s, n)
       else
         exists start: nat, bits: nat :: PointsTo(t, tb, x, start, bits)
           && n - tb <= bits && t[start + Low(Shr(x, tb), bits)] == MakeEntry(dr, s, n - tb)
  }

  ghost predicate PointsTo(t: seq<u32>, tb: nat, x: nat, start: nat, bits: nat)
    requires Pow2(tb) <= |t| && tb <= 15
  {
    && start < 0x8000 && tb + bits <= 15 && start + Pow2(bits) <= |t|
    && t[Low(x, tb)] == SubtablePointer(start, bits, tb)
  }

  // ---- a complete table decodes

  lemma CompleteMeans(c: Spec, x: nat, s: nat, n: nat)
    requires Ok(c) && Means(c.lens, x, s, n)
    ensures Starts(c.lens, x, s) && n == c.lens[s]
  {
    hide Complete, Starts;
    var t := StartsExists(c.lens, 1, c.max);
    StartsSomething(c.lens, 1, t);
    if OneCodeword(c.lens, s) {
      OnlyZero(c.lens, s);
    }
  }

  lemma StartsSomething(lens: seq<nat>, x: nat, s: nat)
    requires Starts(lens, x, s)
    ensures s < |lens| && lens[s] > 0
  {
  }

  lemma OnlyZero(lens: seq<nat>, s: nat)
    requires OneCodeword(lens, s)
    ensures !Starts(lens, 1, s)
  {
    NoneOfLength(lens[..s], 1);
    UsedStep(lens, 0);
  }


  lemma DirectDecodes(c: Spec, t: seq<u32>, k: nat, tb: nat, x: nat, s: nat)
    requires Direct(c, t, k, tb) && Starts(c.lens, x, s) && Place(c.lens, s) < k && tb <= 15
    ensures c.lens[s] <= tb && t[Low(x, tb)] == MakeEntry(c.dr, s, c.lens[s])
  {
    var j := Place(c.lens, s);
    assert c.sl[j] == s && Len(c, j) <= tb;
    LowOfLow(x, c.lens[s], tb);
    assert Starts(c.lens, Low(x, tb), s);
  }

  lemma PlaceInRange(c: Spec, s: nat)
    requires Ok(c) && s < |c.lens| && c.lens[s] > 0
    ensures Place(c.lens, s) < |c.sl| && c.sl[Place(c.lens, s)] == s
  {
  }

  lemma DirectIsDecoder(c: Spec, t: seq<u32>, tb: nat)
    requires Direct(c, t, |c.sl|, tb) && 1 <= tb <= 15
    ensures Decoder(t, c.lens, c.dr, tb)
  {
    hide Direct, Word, Low, Place, Found;
    DirectFits(c, t, tb);
    forall x: nat, s: nat, n: nat | Means(c.lens, x, s, n) ensures Found(t, c.dr, tb, x, s, n) {
      CompleteMeans(c, x, s, n);
      PlaceInRange(c, s);
      DirectFound(c, t, tb, x, s);
    }
  }

  lemma DirectFits(c: Spec, t: seq<u32>, tb: nat)
    requires Direct(c, t, |c.sl|, tb)
    ensures Pow2(tb) <= |t| && Ok(c)
    ensures forall s :: 0 <= s < |c.lens| ==> c.lens[s] <= 15
  {
  }

  lemma DirectFound(c: Spec, t: seq<u32>, tb: nat, x: nat, s: nat)
    requires Direct(c, t, |c.sl|, tb) && 1 <= tb <= 15 && Starts(c.lens, x, s) && Place(c.lens, s) < |c.sl|
    requires Pow2(tb) <= |t| && c.lens[s] <= 15
    ensures Found(t, c.dr, tb, x, s, c.lens[s])
  {
    DirectDecodes(c, t, |c.sl|, tb, x, s);
  }

  lemma LongFound(c: Spec, t: seq<u32>, tb: nat, cur: int, x: nat, s: nat)
    requires Partial(c, t, tb, |c.sl|, cur) && Pow2(tb) <= |t| && 1 <= tb <= 15
    requires Ok(c) && Starts(c.lens, x, s) && c.lens[s] > tb && c.lens[s] <= 15
    ensures Found(t, c.dr, tb, x, s, c.lens[s])
  {
    hide Used, Word, Prefix, Reversed, Pow2, Slot, SubBits, SubStart, Base, Enough, Direct, Low, Shr, Complete;
    PartialDirect(c, t, tb, cur);
    PlaceInRange(c, s);
    PlaceAbove(c, tb, s);
    var j := Place(c.lens, s);
    assert Len(c, j) > tb && SubDone(c, t, tb, c.sl[j]);
    SubFound(c, t, tb, x, s);
  }

  lemma SubFound(c: Spec, t: seq<u32>, tb: nat, x: nat, s: nat)
    requires Enough(c, tb, |t|) && Ok(c) && tb < c.max && Pow2(tb) <= |t| && 1 <= tb <= 15
    requires Starts(c.lens, x, s) && c.lens[s] > tb && c.lens[s] <= 15 && SubDone(c, t, tb, s)
    ensures Found(t, c.dr, tb, x, s, c.lens[s])
  {
    hide Used, Word, Prefix, Reversed, Pow2, Slot, SubBits, SubStart, Base, Enough, Direct, Low, Shr, Complete, InOrder;
    var p := Prefix(c.lens, tb, s);
    var start, bits := SubStart(c, tb, p), SubBits(c, tb, p);
    StartsParts(c.lens, tb, x, s);
    WordParts(c.lens, tb, s);
    SubRange(c, tb, p, |t|);
    FitsSubtable(c, tb, s);
    var u := Low(Shr(x, tb), bits);
    LowOfLow(Shr(x, tb), c.lens[s] - tb, bits);
    SlotAt(c, tb, s, u);
    assert PointsTo(t, tb, x, start, bits);
  }

  lemma SlotAt(c: Spec, tb: nat, s: nat, u: nat)
    requires Ok(c) && tb < c.max && s < |c.lens| && c.lens[s] > tb
    requires u < Pow2(SubBits(c, tb, Prefix(c.lens, tb, s))) && Low(u, c.lens[s] - tb) == Shr(Word(c.lens, s), tb)
    ensures Slot(c, tb, s, SubStart(c, tb, Prefix(c.lens, tb, s)) + u)
  {
  }

  lemma PlaceAbove(c: Spec, tb: nat, s: nat)
    requires Ok(c) && s < |c.lens| && c.lens[s] > tb
    ensures Base(c.lens, tb + 1) <= Place(c.lens, s)
  {
    BaseMonotone(c.lens, tb + 1, c.lens[s]);
  }

  lemma PlaceBelow(c: Spec, tb: nat, s: nat)
    requires Ok(c) && s < |c.lens| && 0 < c.lens[s] <= tb
    ensures Place(c.lens, s) < Base(c.lens, tb + 1)
  {
    PlaceBound(c.lens, s);
    BaseMonotone(c.lens, c.lens[s] + 1, tb + 1);
  }

  lemma PartialIsDecoder(c: Spec, t: seq<u32>, tb: nat, cur: int)
    requires Partial(c, t, tb, |c.sl|, cur) && 1 <= tb <= 15
    ensures Decoder(t, c.lens, c.dr, tb)
  {
    hide Direct, Word, Low, Place, Found, Partial, SubDone, Base, Pointed, Enough;
    PartialDirect(c, t, tb, cur);
    PartialSize(c, t, tb, |c.sl|, cur);
    forall x: nat, s: nat, n: nat | Means(c.lens, x, s, n) ensures Found(t, c.dr, tb, x, s, n) {
      CompleteMeans(c, x, s, n);
      if c.lens[s] <= tb {
        ShortFound(c, t, tb, x, s);
      } else {
        LongFound(c, t, tb, cur, x, s);
      }
    }
  }

  lemma PartialDirect(c: Spec, t: seq<u32>, tb: nat, cur: int)
    requires Partial(c, t, tb, |c.sl|, cur)
    ensures Ok(c) && tb < c.max && Enough(c, tb, |t|) && Direct(c, t, Base(c.lens, tb + 1), tb)
    ensures forall s :: 0 <= s < |c.lens| ==> c.lens[s] <= 15
  {
  }

  lemma ShortFound(c: Spec, t: seq<u32>, tb: nat, x: nat, s: nat)
    requires Direct(c, t, Base(c.lens, tb + 1), tb) && 1 <= tb <= 15 && Starts(c.lens, x, s) && c.lens[s] <= tb
    requires Pow2(tb) <= |t|
    ensures Found(t, c.dr, tb, x, s, c.lens[s])
  {
    PlaceBelow(c, tb, s);
    DirectDecodes(c, t, Base(c.lens, tb + 1), tb, x, s);
  }

  // ---- the codes that are accepted

  ghost predicate Accepted(lens: seq<nat>, max: nat) {
    Complete(lens, max) || NoCodewords(lens) || exists s: nat :: OneCodeword(lens, s)
  }

  /** The number of bits the main table is indexed with. */
  ghost function MainBits(lens: seq<nat>, max: nat, tableBits: nat, dynamic: bool): nat {
    if dynamic && Longest(lens, max) < tableBits then Longest(lens, max) else tableBits
  }

  /** The table has room for the main table and, with a complete code, for all subtables. */
  ghost predicate Room(lens: seq<nat>, max: nat, dr: seq<u32>, tb: nat, size: nat) {
    && Pow2(tb) <= size <= 0x8000
    && forall sl :: Ok(Spec(lens, Longest(lens, max), sl, dr)) ==>
         TableSize(Spec(lens, Longest(lens, max), sl, dr), tb) <= size
  }

  /** With an accepted code all bits mean exactly one symbol. */
  lemma MeaningExists(lens: seq<nat>, max: nat, x: nat) returns (s: nat, n: nat)
    requires Accepted(lens, max) && max >= 1 && |lens| > 0
    ensures Means(lens, x, s, n)
  {
    if Complete(lens, max) {
      s := StartsExists(lens, x, max);
      n := lens[s];
    } else if NoCodewords(lens) {
      s, n := 0, 1;
    } else {
      s :| OneCodeword(lens, s);
      n := 1;
    }
  }

  lemma MeaningUnique(lens: seq<nat>, max: nat, x: nat, s: nat, m: nat, t: nat, n: nat)
    requires Accepted(lens, max) && max >= 1 && Means(lens, x, s, m) && Means(lens, x, t, n)
    ensures s == t && m == n
  {
    if NoCodewords(lens) {
      NoMeaning(lens, x, s, m);
      NoMeaning(lens, x, t, n);
    } else if u: nat :| OneCodeword(lens, u) {
      OnlyMeaning(lens, u, x, s, m);
      OnlyMeaning(lens, u, x, t, n);
    } else {
      StartsUnique(lens, x, s, t, max);
    }
  }

  lemma NoneOfLength(lens: seq<nat>, l: nat)
    requires forall s :: 0 <= s < |lens| ==> lens[s] != l
    ensures Count(lens, l) == 0
  {
    if Count(lens, l) > 0 {
      assert lens[..|lens|] == lens;
      var s := RankExists(lens, l, 0, |lens|);
    }
  }

  lemma {:induction false} UsedByNone(lens: seq<nat>, l: nat)
    requires NoCodewords(lens)
    ensures Used(lens, l) == 0
  {
    hide Used;
    UsedStep(lens, if l == 0 then 0 else l - 1);
    if l > 0 {
      UsedByNone(lens, l - 1);
      NoneOfLength(lens, l);
    }
  }

  lemma UsedBySome(lens: seq<nat>, max: nat, s: nat)
    requires AtMost(lens, max) && s < |lens| && lens[s] > 0
    ensures Used(lens, max) > 0
  {
    hide Used, Count, Pow2;
    CountPositive(lens, s);
    UsedStep(lens, lens[s] - 1);
    UsedGrows(lens, lens[s], max);
    MulMonotone(Pow2(max - lens[s]), 1, Used(lens, lens[s]));
  }

  /** The code space is empty exactly when no symbol has a codeword. */
  lemma EmptyIff(lens: seq<nat>, max: nat)
    requires AtMost(lens, max)
    ensures Used(lens, max) == 0 <==> NoCodewords(lens)
  {
    hide Used;
    if NoCodewords(lens) {
      UsedByNone(lens, max);
    } else {
      var s :| 0 <= s < |lens| && lens[s] != 0;
      UsedBySome(lens, max, s);
    }
  }

  lemma {:induction false} TwoRanks(lens: seq<nat>, l: nat, s: nat, t: nat)
    requires s < t < |lens| && lens[s] == l == lens[t]
    ensures Count(lens, l) >= 2
  {
    RankStrict(lens, s, t);
    RankBound(lens, t);
  }

  /** The test for a single codeword of one bit; max is the longest length in use. */
  lemma SingleIff(lens: seq<nat>, max: nat)
    requires AtMost(lens, max) && max >= 1 && (max > 1 ==> Count(lens, max) > 0)
    ensures Used(lens, max) == Pow2(max - 1) && Count(lens, 1) == 1 <==> exists s: nat :: OneCodeword(lens, s)
  {
    if s: nat :| OneCodeword(lens, s) {
      SingleUsed(lens, max, s);
    }
    if Used(lens, max) == Pow2(max - 1) && Count(lens, 1) == 1 {
      SingleExists(lens, max);
    }
  }

  lemma SingleUsed(lens: seq<nat>, max: nat, s: nat)
    requires AtMost(lens, max) && max >= 1 && (max > 1 ==> Count(lens, max) > 0) && OneCodeword(lens, s)
    ensures max == 1 && Used(lens, 1) == 1 == Count(lens, 1)
  {
    hide Used, Count;
    if max > 1 {
      NoneOfLength(lens, max);
    }
    UsedStep(lens, 0);
    CountOfOne(lens, s);
  }

  lemma CountOfOne(lens: seq<nat>, s: nat)
    requires OneCodeword(lens, s)
    ensures Count(lens, 1) == 1
  {
    assert lens == lens[..s] + [1] + lens[s + 1..];
    CountSplit(lens[..s] + [1], lens[s + 1..], 1);
    CountSplit(lens[..s], [1], 1);
    CountOne(1, 1);
    NoneOfLength(lens[..s], 1);
    NoneOfLength(lens[s + 1..], 1);
  }

  lemma SingleExists(lens: seq<nat>, max: nat)
    requires AtMost(lens, max) && max >= 1 && (max > 1 ==> Count(lens, max) > 0)
    requires Used(lens, max) == Pow2(max - 1) && Count(lens, 1) == 1
    ensures max == 1 && exists s: nat :: OneCodeword(lens, s)
  {
    hide Used, Count;
    UsedStep(lens, 0);
    if max > 1 {
      UsedStep(lens, max - 1);
      PowStep(max - 2);
      UsedGrows(lens, 1, max - 1);
    }
    assert lens[..|lens|] == lens;
    var s := RankExists(lens, 1, 0, |lens|);
    forall t | 0 <= t < |lens| ensures lens[t] == if t == s then 1 else 0 {
      if t != s && lens[t] == 1 {
        TwoRanks(lens, 1, if s < t then s else t, if s < t then t else s);
      }
    }
    assert OneCodeword(lens, s);
  }

  // ---- an incomplete code

  ghost predicate Filled(t: seq<u32>, tb: nat, e: u32) {
    Pow2(tb) <= |t| && forall i :: 0 <= i < Pow2(tb) ==> t[i] == e
  }

  lemma OnlyMeaning(lens: seq<nat>, s: nat, x: nat, t: nat, n: nat)
    requires OneCodeword(lens, s) && Means(lens, x, t, n)
    ensures t == s && n == 1
  {
    hide Word;
    assert lens[s] == 1;
    assert lens[t] == if t == s then 1 else 0;
  }

  lemma SingleIsDecoder(lens: seq<nat>, s: nat, t: seq<u32>, dr: seq<u32>, tb: nat)
    requires OneCodeword(lens, s) && Results(dr) && |lens| <= |dr| && 1 <= tb <= 15
    requires Filled(t, tb, MakeEntry(dr, s, 1))
    ensures Decoder(t, lens, dr, tb)
  {
    hide Pow2, Low, Means;
    forall x: nat, u: nat, n: nat | Means(lens, x, u, n) ensures Found(t, dr, tb, x, u, n) {
      OnlyMeaning(lens, s, x, u, n);
    }
  }

  lemma NoMeaning(lens: seq<nat>, x: nat, t: nat, n: nat)
    requires NoCodewords(lens) && Means(lens, x, t, n)
    ensures t == 0 && n == 1
  {
    hide Word;
    assert lens[t] == 0;
  }

  lemma EmptyIsDecoder(lens: seq<nat>, t: seq<u32>, dr: seq<u32>, tb: nat)
    requires NoCodewords(lens) && Results(dr) && 0 < |lens| <= |dr| && 1 <= tb <= 15
    requires Filled(t, tb, MakeEntry(dr, 0, 1))
    ensures Decoder(t, lens, dr, tb)
  {
    hide Pow2, Low, Means;
    forall x: nat, u: nat, n: nat | Means(lens, x, u, n) ensures Found(t, dr, tb, x, u, n) {
      NoMeaning(lens, x, u, n);
    }
  }

  lemma IncompleteIsDecoder(lens: seq<nat>, t: seq<u32>, dr: seq<u32>, tb: nat)
    requires Results(dr) && 0 < |lens| <= |dr| && 1 <= tb <= 15 && Pow2(tb) <= |t|
    requires NoCodewords(lens) ==> Filled(t, tb, MakeEntry(dr, 0, 1))
    requires forall s: nat :: OneCodeword(lens, s) ==> Filled(t, tb, MakeEntry(dr, s, 1))
    ensures NoCodewords(lens) || (exists s: nat :: OneCodeword(lens, s)) ==> Decoder(t, lens, dr, tb)
  {
    hide Decoder, Filled, MakeEntry, NoCodewords;
    if NoCodewords(lens) {
      EmptyIsDecoder(lens, t, dr, tb);
    }
    if s: nat :| OneCodeword(lens, s) {
      SingleIsDecoder(lens, s, t, dr, tb);
    }
  }

  // ---- the method

  /** Builds a decode table from the `num` codeword lengths behind `from`.  If the table shares its memory with the
      lengths, these are lost when it is filled; nothing of them is needed from then on. */
  method BuildDecodeTable(T: array<u32>, lens: array<nat>, from: nat, num: nat, dr: seq<u32>, tableBits: nat,
                          maxCodewordLen: nat, sortedSyms: array<nat>, dynamic: bool, shared: bool)
    returns (ok: bool, tb: nat)
    requires from + num <= lens.Length && AtMost(lens[from..from + num], maxCodewordLen)
    requires 1 <= maxCodewordLen <= 15 && 1 <= tableBits <= 15
    requires Results(dr) && 0 < num <= |dr| && num <= sortedSyms.Length
    requires T as object != sortedSyms && T as object != lens && lens != sortedSyms
    requires Room(lens[from..from + num], maxCodewordLen, dr,
                  MainBits(lens[from..from + num], maxCodewordLen, tableBits, dynamic), T.Length)
    modifies T, sortedSyms, lens
    ensures 1 <= tb == MainBits(old(lens[from..from + num]), maxCodewordLen, tableBits, dynamic) <= tableBits
    ensures ok <==> Accepted(old(lens[from..from + num]), maxCodewordLen)
    ensures ok ==> Decoder(T[..], old(lens[from..from + num]), dr, tb)
    ensures NoCodewords(old(lens[from..from + num])) ==> Filled(T[..], tb, MakeEntry(dr, 0, 1))
    ensures forall s: nat :: OneCodeword(old(lens[from..from + num]), s) ==> Filled(T[..], tb, MakeEntry(dr, s, 1))
    ensures !shared ==> lens[..] == old(lens[..])
  {
    hide Used, Pow2, Count, Offset, Spot, Longest, Decoder, MakeEntry, InOrder, OneCodeword, NoCodewords, Filled;
    ghost var l, all := lens[from..from + num], lens[..];
    var lenCounts := new nat[16];
    CountLengths(lens[from..from + num], maxCodewordLen, lenCounts);
    var max := ReduceMax(l, maxCodewordLen, lenCounts);
    tb := tableBits;
    if dynamic {
      tb := if tableBits < max then tableBits else max;
    }
    var codespaceUsed, sl := SortCodes(lens[from..from + num], max, lenCounts, sortedSyms);
    assert lens[..] == all;
    if shared {
      modify lens;
    }
    CompleteAtLongest(l, maxCodewordLen);
    ok := FillAny(T, dr, max, tb, codespaceUsed, lenCounts, sl, l);
  }

  /** Fills the table, from the symbols with codewords in their order. */
  method FillAny(T: array<u32>, dr: seq<u32>, max: nat, tb: nat, codespaceUsed: nat, lenCounts: array<nat>,
                   sl: seq<nat>, ghost lens: seq<nat>)
    returns (ok: bool)
    requires AtMost(lens, max) && 1 <= max <= 15 && 1 <= tb <= 15 && 0 < |lens| <= |dr| && Results(dr)
    requires codespaceUsed == Used(lens, max) && InOrder(lens, sl, max) && (max > 1 ==> Count(lens, max) > 0)
    requires max < lenCounts.Length && forall l :: 0 <= l <= max ==> lenCounts[l] == Count(lens, l)
    requires T as object != lenCounts && Pow2(tb) <= T.Length
    requires Complete(lens, max) ==> Enough(Spec(lens, max, sl, dr), tb, T.Length)
    modifies T
    ensures ok <==> Complete(lens, max) || NoCodewords(lens) || exists s: nat :: OneCodeword(lens, s)
    ensures ok ==> Decoder(T[..], lens, dr, tb)
    ensures NoCodewords(lens) ==> Filled(T[..], tb, MakeEntry(dr, 0, 1))
    ensures forall s: nat :: OneCodeword(lens, s) ==> Filled(T[..], tb, MakeEntry(dr, s, 1))
  {
    hide Used, Pow2, Count, Offset, Spot, Longest, Decoder, MakeEntry, InOrder, OneCodeword, NoCodewords, Filled;
    EmptyIff(lens, max);
    SingleIff(lens, max);
    PowStep(max - 1);
    if codespaceUsed > Pow2(max) {
      ok := false;
    } else if codespaceUsed < Pow2(max) {
      ok := FillIncomplete(T, lens, dr, max, tb, codespaceUsed, lenCounts[1], sl);
      IncompleteIsDecoder(lens, T[..], dr, tb);
    } else {
      FillComplete(T, sl, dr, lenCounts, tb, Spec(lens, max, sl, dr));
      ok := true;
    }
  }

  method ReduceMax(ghost lens: seq<nat>, max0: nat, lenCounts: array<nat>) returns (max: nat)
    requires AtMost(lens, max0) && 1 <= max0 < lenCounts.Length
    requires forall l :: 0 <= l <= max0 ==> lenCounts[l] == Count(lens, l)
    ensures max == Longest(lens, max0) <= max0 && AtMost(lens, max) && max >= 1
    ensures max > 1 ==> Count(lens, max) > 0
  {
    hide Count;
    max := max0;
    while max > 1 && lenCounts[max] == 0
      invariant 1 <= max <= max0
      invariant AtMost(lens, max) && Longest(lens, max) == Longest(lens, max0)
    {
      ShorterMax(lens, max);
      max := max - 1;
    }
  }

  /** Sorts the symbols and adds up the code space; sl are the symbols with codewords. */
  method SortCodes(lens: seq<nat>, max: nat, lenCounts: array<nat>, sortedSyms: array<nat>)
    returns (codespaceUsed: nat, sl: seq<nat>)
    requires AtMost(lens, max) && 1 <= max < lenCounts.Length && |lens| <= sortedSyms.Length
    requires lenCounts != sortedSyms
    requires forall l :: 0 <= l <= max ==> lenCounts[l] == Count(lens, l)
    modifies sortedSyms
    ensures codespaceUsed == Used(lens, max) && InOrder(lens, sl, max)
  {
    hide Used, Count, Offset, Spot, Place, InOrder;
    var offsets := new nat[max + 1];
    codespaceUsed := MakeOffsets(lens, max, lenCounts, offsets);
    ListSymbols(lens, max, offsets, sortedSyms);
    OffsetEnd(lens, max);
    OffsetOfUsed(lens, max);
    sl := sortedSyms[offsets[0]..|lens|];
    forall s | 0 <= s < |lens| && lens[s] > 0 ensures Place(lens, s) < |sl| && sl[Place(lens, s)] == s {
      SpotIsPlace(lens, s);
    }
    ListedInOrder(lens, max, sl);
  }

  lemma OffsetOfUsed(lens: seq<nat>, max: nat)
    requires AtMost(lens, max)
    ensures Count(lens, 0) <= |lens|
  {
    OffsetEnd(lens, max);
    OffsetMonotone(lens, 1, max + 1);
  }

  /** The empty code and a single codeword fill the whole table with one entry. */
  method FillIncomplete(T: array<u32>, ghost lens: seq<nat>, dr: seq<u32>, max: nat, tb: nat, codespaceUsed: nat,
                        ones: nat, sl: seq<nat>)
    returns (ok: bool)
    requires AtMost(lens, max) && InOrder(lens, sl, max) && max >= 1 && Results(dr) && 0 < |lens| <= |dr|
    requires Pow2(tb) <= T.Length && codespaceUsed == Used(lens, max) && ones == Count(lens, 1)
    requires codespaceUsed == 0 <==> NoCodewords(lens)
    requires codespaceUsed == Pow2(max - 1) && ones == 1 <==> exists s: nat :: OneCodeword(lens, s)
    modifies T
    ensures ok <==> NoCodewords(lens) || exists s: nat :: OneCodeword(lens, s)
    ensures NoCodewords(lens) ==> Filled(T[..], tb, MakeEntry(dr, 0, 1))
    ensures forall s: nat :: OneCodeword(lens, s) ==> Filled(T[..], tb, MakeEntry(dr, s, 1))
  {
    hide Used, Pow2, Count, MakeEntry, InOrder, OneCodeword, NoCodewords;
    var entry;
    if codespaceUsed == 0 {
      entry := MakeEntry(dr, 0, 1);
      NotBoth(lens);
    } else {
      if codespaceUsed != Pow2(max - 1) || ones != 1 {
        return false;
      }
      FirstIsSingle(lens, max, sl);
      entry := MakeEntry(dr, sl[0], 1);
    }
    forall i | 0 <= i < Pow2(tb) {
      T[i] := entry;
    }
    ok := true;
  }

  lemma NotBoth(lens: seq<nat>)
    requires NoCodewords(lens)
    ensures forall s: nat :: !OneCodeword(lens, s)
  {
    forall s: nat | s < |lens| ensures !OneCodeword(lens, s) {
      assert lens[s] == 0;
    }
  }

  lemma FirstIsSingle(lens: seq<nat>, max: nat, sl: seq<nat>)
    requires InOrder(lens, sl, max) && exists s: nat :: OneCodeword(lens, s)
    ensures |sl| > 0 && sl[0] < |lens| && OneCodeword(lens, sl[0])
    ensures forall s: nat :: OneCodeword(lens, s) ==> s == sl[0]
  {
    hide Place, Base;
    var s: nat :| OneCodeword(lens, s);
    assert lens[s] > 0;
    assert sl[Place(lens, s)] == s;
    assert lens[sl[0]] > 0;
  }

  method FillComplete(T: array<u32>, sl: seq<nat>, dr: seq<u32>, lenCounts: array<nat>, tb: nat, ghost c: Spec)
    requires Ok(c) && CountsOf(c, lenCounts[..]) && sl == c.sl && dr == c.dr && T as object != lenCounts
    requires 1 <= tb <= 15 && Pow2(tb) <= T.Length && Enough(c, tb, T.Length)
    modifies T
    ensures Decoder(T[..], c.lens, dr, tb)
  {
    hide Ok, CountsOf, Decoder, Enough, Direct, AtCode, Partial, Base, Count;
    var done, k, len, count, codeword := FillMain(T, sl, dr, lenCounts, tb, c);
    if done {
      DirectIsDecoder(c, T[..], tb);
    } else {
      ghost var cur := FillLong(T, sl, dr, lenCounts, tb, k, len, count, codeword, c);
      PartialIsDecoder(c, T[..], tb, cur);
    }
  }
}
