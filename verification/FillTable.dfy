/** Filling the decode table of a complete code. */
module FillTable {
  import opened Arith
  import opened Packed
  import opened LengthCounts
  import opened Canonical
  import opened Words
  import opened CodeOrder
  import opened DecodeTable

  /** Copies the first `end` entries behind themselves. */
  method DoubleTable(T: array<u32>, end: nat)
    requires 2 * end <= T.Length
    modifies T
    ensures forall i :: 0 <= i < end ==> T[i] == old(T[i]) && T[i + end] == old(T[i])
    ensures forall i :: 2 * end <= i < T.Length ==> T[i] == old(T[i])
  {
    forall i | end <= i < 2 * end {
      T[i] := T[i - end];
    }
  }

  ghost predicate CountsOf(c: Spec, lenCounts: seq<nat>) {
    |lenCounts| > c.max && forall l :: 1 <= l <= c.max ==> lenCounts[l] == Count(c.lens, l)
  }

  lemma DoubleStep(c: Spec, t: seq<u32>, t': seq<u32>, k: nat, l: nat, tb: nat)
    requires Direct(c, t, k, l) && l < tb && |t'| == |t| && 2 * Pow2(l) <= Pow2(tb) <= |t|
    requires forall i :: 0 <= i < Pow2(l) ==> t'[i] == t[i] && t'[i + Pow2(l)] == t[i]
    ensures Direct(c, t', k, l + 1)
  {
    Pow2Monotone(l + 1, tb);
    Double(c, t, t', k, l);
  }

  lemma RoomToDouble(l: nat, tb: nat)
    requires l < tb
    ensures 2 * Pow2(l) == Pow2(l + 1) <= Pow2(tb)
  {
    Pow2Monotone(l + 1, tb);
  }

  /** After the last codeword: the table grows to its full size. */
  method FinishMain(T: array<u32>, len0: nat, tb: nat, ghost c: Spec, ghost k: nat)
    requires len0 <= tb && Pow2(tb) <= T.Length && Direct(c, T[..], k, len0)
    modifies T
    ensures Direct(c, T[..], k, tb)
  {
    hide Direct, Pow2;
    var len, curTableEnd := len0, Pow2(len0);
    while len < tb
      invariant len <= tb && curTableEnd == Pow2(len)
      invariant Direct(c, T[..], k, len)
    {
      ghost var t := T[..];
      RoomToDouble(len, tb);
      DoubleTable(T, curTableEnd);
      DoubleStep(c, t, T[..], k, len, tb);
      curTableEnd := 2 * curTableEnd;
      len := len + 1;
    }
  }

  /** Goes on to the next length that has codewords, doubling the table while it is in range. */
  method NextLength(T: array<u32>, lenCounts: array<nat>, len0: nat, tb: nat, ghost c: Spec, ghost k: nat,
                    codeword: nat)
    returns (len: nat, count: nat)
    requires T as object != lenCounts && CountsOf(c, lenCounts[..])
    requires len0 <= tb && Pow2(tb) <= T.Length
    requires Between(c, k, len0, codeword) && Direct(c, T[..], k, len0)
    modifies T
    ensures AtCode(c, k, len, codeword) && k == Base(c.lens, len) && count == Count(c.lens, len) > 0
    ensures len > len0
    ensures Direct(c, T[..], k, if len <= tb then len else tb)
  {
    hide Direct, Pow2, Between, AtCode, Count, Base;
    len, count := len0, 0;
    while count == 0
      invariant len >= len0 && (count > 0 ==> len > len0)
      invariant count == 0 ==> Between(c, k, len, codeword)
      invariant count > 0 ==> AtCode(c, k, len, codeword) && k == Base(c.lens, len) && count == Count(c.lens, len)
      invariant Direct(c, T[..], k, if len <= tb then len else tb)
      decreases if count == 0 then 1 else 0, c.max - len
    {
      ghost var t := T[..];
      BetweenBound(c, k, len, codeword);
      len := len + 1;
      if len <= tb {
        RoomToDouble(len - 1, tb);
        DoubleTable(T, Pow2(len - 1));
        DoubleStep(c, t, T[..], k, len - 1, tb);
      }
      Longer(c, k, len - 1, codeword);
      count := lenCounts[len];
      assert count == lenCounts[..][len];
    }
  }

  lemma BetweenBound(c: Spec, k: nat, l: nat, w: nat)
    requires Between(c, k, l, w)
    ensures l < c.max
  {
  }

  /** The first length that has codewords. */
  method FirstLength(lenCounts: array<nat>, ghost c: Spec) returns (len: nat, count: nat)
    requires Ok(c) && CountsOf(c, lenCounts[..])
    ensures AtCode(c, 0, len, 0) && 0 == Base(c.lens, len) && count == Count(c.lens, len) > 0
  {
    hide Between, AtCode, Count, Base, Ok;
    StartBetween(c);
    len, count := 0, 0;
    while count == 0
      invariant count == 0 ==> Between(c, 0, len, 0)
      invariant count > 0 ==> AtCode(c, 0, len, 0) && 0 == Base(c.lens, len) && count == Count(c.lens, len)
      decreases if count == 0 then 1 else 0, c.max - len
    {
      BetweenBound(c, 0, len, 0);
      Longer(c, 0, len, 0);
      len := len + 1;
      count := lenCounts[len];
      assert count == lenCounts[..][len];
    }
  }

  lemma AtCodeFacts(c: Spec, k: nat, l: nat, w: nat)
    requires AtCode(c, k, l, w)
    ensures Ok(c) && 1 <= l <= c.max <= 15 && k < |c.sl| && w < Pow2(l)
    ensures c.sl[k] < |c.lens| <= |c.dr| && Results(c.dr)
    ensures Base(c.lens, l) <= k < Base(c.lens, l + 1) == Base(c.lens, l) + Count(c.lens, l)
  {
  }

  /** Enters the remaining codewords of one length.  `count` says how many there are. */
  method EnterLength(T: array<u32>, sortedSyms: seq<nat>, dr: seq<u32>, len: nat, count0: nat, k0: nat, codeword0: nat,
                     ghost c: Spec)
    returns (done: bool, k: nat, codeword: nat)
    requires AtCode(c, k0, len, codeword0) && Direct(c, T[..], k0, len)
    requires count0 == Base(c.lens, len + 1) - k0 && sortedSyms == c.sl && dr == c.dr && Pow2(len) <= T.Length
    modifies T
    ensures Direct(c, T[..], k, len)
    ensures done ==> k == |c.sl|
    ensures !done ==> Between(c, k, len, codeword)
  {
    hide Direct, Between, AtCode, Base, Ok, Results, Count, MakeEntry;
    done, k, codeword := false, k0, codeword0;
    var count := count0;
    AtCodeFacts(c, k, len, codeword);
    while count > 0
      invariant 0 <= count && (count > 0 ==> AtCode(c, k, len, codeword) && count == Base(c.lens, len + 1) - k)
      invariant count == 0 ==> Between(c, k, len, codeword)
      invariant Direct(c, T[..], k, len)
    {
      ghost var t := T[..];
      AtCodeFacts(c, k, len, codeword);
      Enter(c, t, k, len, codeword);
      Next(c, k, len, codeword);
      T[codeword] := MakeEntry(dr, sortedSyms[k], len);
      assert T[..] == t[codeword := MakeEntry(c.dr, c.sl[k], len)];
      k := k + 1;
      if codeword == Pow2(len) - 1 {
        done := true;
        return;
      }
      codeword := NextWord(codeword, len);
      count := count - 1;
    }
  }

  /** Enters all codewords of at most tb bits; `done` when there are no longer ones. */
  method FillMain(T: array<u32>, sortedSyms: seq<nat>, dr: seq<u32>, lenCounts: array<nat>, tb: nat, ghost c: Spec)
    returns (done: bool, k: nat, len: nat, count: nat, codeword: nat)
    requires Ok(c) && CountsOf(c, lenCounts[..]) && sortedSyms == c.sl && dr == c.dr
    requires T as object != lenCounts && Pow2(tb) <= T.Length
    modifies T
    ensures done ==> Direct(c, T[..], |c.sl|, tb)
    ensures !done ==> AtCode(c, k, len, codeword) && k == Base(c.lens, len) && count == Count(c.lens, len)
    ensures !done ==> tb < len && Direct(c, T[..], k, tb)
  {
    hide Direct, Between, AtCode, Base, Ok, Results, Count, MakeEntry, Pow2;
    done, k, codeword := false, 0, 0;
    len, count := FirstLength(lenCounts, c);
    EmptyTable(c, T[..], if len <= tb then len else tb, tb);
    while len <= tb
      invariant AtCode(c, k, len, codeword) && k == Base(c.lens, len) && count == Count(c.lens, len)
      invariant Direct(c, T[..], k, if len <= tb then len else tb)
      invariant !done
      decreases c.max - len
    {
      AtCodeFacts(c, k, len, codeword);
      Pow2Monotone(len, tb);
      done, k, codeword := EnterLength(T, sortedSyms, dr, len, count, k, codeword, c);
      if done {
        FinishMain(T, len, tb, c, k);
        return;
      }
      BetweenBound(c, k, len, codeword);
      len, count := NextLength(T, lenCounts, len, tb, c, k, codeword);
      AtCodeFacts(c, k, len, codeword);
    }
  }

  lemma EmptyTable(c: Spec, t: seq<u32>, l: nat, tb: nat)
    requires Ok(c) && l <= tb && Pow2(tb) <= |t|
    ensures Direct(c, t, 0, l)
  {
    Pow2Monotone(l, tb);
  }
}
