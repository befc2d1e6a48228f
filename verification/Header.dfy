/** The header of a dynamic block: the codeword lengths, in a code of their own
    (section 3.2.7 of RFC 1951). */
module Header {
  import opened Arith
  import opened Bits
  import opened Canonical
  import opened Words
  import opened BitBuffer
  import opened BuildDecodeTable
  import opened Precode
  import opened DecodeLens

  /** The order in which the lengths of the precode are stored. */
  const PERMUTATION: seq<nat> := [16, 17, 18, 0, 8, 7, 9, 6, 10, 5, 11, 4, 12, 3, 13, 2, 14, 1, 15]

  /** Where each symbol is in that order. */
  const POSITIONS: seq<nat> := [3, 17, 15, 13, 11, 9, 7, 5, 4, 6, 8, 10, 12, 14, 16, 18, 0, 1, 2]

  /** First the three repeat symbols and 0, then the lengths from the middle outwards: 8, 7, 9, 6 and so on. */
  lemma MiddleOutwards(i: nat)
    requires i < PRECODE_SYMS
    ensures |PERMUTATION| == PRECODE_SYMS
    ensures PERMUTATION[i] ==
      if i < 3 then REPEAT + i else if i == 3 then 0 else if i % 2 == 0 then 8 + (i - 4) / 2 else 8 - (i - 3) / 2
  {
  }

  lemma PermutationInverse()
    ensures forall s :: 0 <= s < PRECODE_SYMS ==> POSITIONS[s] < PRECODE_SYMS && PERMUTATION[POSITIONS[s]] == s
    ensures forall i :: 0 <= i < PRECODE_SYMS ==> PERMUTATION[i] < PRECODE_SYMS && POSITIONS[PERMUTATION[i]] == i
  {
    forall s | 0 <= s < PRECODE_SYMS ensures POSITIONS[s] < PRECODE_SYMS && PERMUTATION[POSITIONS[s]] == s {
      PositionOf(s);
    }
    forall i | 0 <= i < PRECODE_SYMS ensures PERMUTATION[i] < PRECODE_SYMS && POSITIONS[PERMUTATION[i]] == i {
      SymbolAt(i);
    }
  }

  lemma PositionOf(s: nat)
    requires s < PRECODE_SYMS
    ensures POSITIONS[s] < PRECODE_SYMS && PERMUTATION[POSITIONS[s]] == s
  {
  }

  lemma SymbolAt(i: nat)
    requires i < PRECODE_SYMS
    ensures PERMUTATION[i] < PRECODE_SYMS && POSITIONS[PERMUTATION[i]] == i
  {
  }

  ghost predicate PrecodeLens(pl: seq<nat>) {
    |pl| == PRECODE_SYMS && forall s :: 0 <= s < PRECODE_SYMS ==> pl[s] < 8
  }

  /** The first m stored lengths of the precode. */
  ghost function PreLenBits(pl: seq<nat>, m: nat): (b: Bits)
    requires PrecodeLens(pl) && m <= PRECODE_SYMS
    ensures |b| == 3 * m
  {
    if m == 0 then [] else PreLenBits(pl, m - 1) + Front(pl[PERMUTATION[m - 1]], 3)
  }

  /** The bits give m lengths of the precode, the others are zero. */
  ghost predicate PreLensMean(x: nat, m: nat, pl: seq<nat>) {
    && m <= PRECODE_SYMS && |pl| == PRECODE_SYMS
    && forall i :: 0 <= i < PRECODE_SYMS ==> pl[PERMUTATION[i]] == if i < m then Low(Shr(x, 3 * i), 3) else 0
  }

  lemma PreLensUnique(x: nat, m: nat, a: seq<nat>, b: seq<nat>)
    requires PreLensMean(x, m, a) && PreLensMean(x, m, b)
    ensures a == b
  {
    hide Low, Shr;
    PermutationInverse();
    forall s | 0 <= s < PRECODE_SYMS ensures a[s] == b[s] {
      assert PERMUTATION[POSITIONS[s]] == s;
    }
  }

  lemma {:induction false} PreLenBitsGive(x: nat, pl: seq<nat>, m: nat)
    requires PrecodeLens(pl) && m <= PRECODE_SYMS && Begins(x, PreLenBits(pl, m))
    ensures forall i :: 0 <= i < m ==> pl[PERMUTATION[i]] == Low(Shr(x, 3 * i), 3)
  {
    hide Low, Shr, Begins, Front;
    if m > 0 {
      var v := pl[PERMUTATION[m - 1]];
      BeginsAppend(x, PreLenBits(pl, m - 1), Front(v, 3));
      PreLenBitsGive(x, pl, m - 1);
      assert Pow2(3) == 8;
      LeFront(v, 3);
      LowFits(v, 3);
      BeginsIs(Shr(x, 3 * (m - 1)), Front(v, 3));
    }
  }

  lemma BeginsIs(x: nat, b: Bits)
    requires Begins(x, b)
    ensures Low(x, |b|) == Le(b)
  {
  }

  /** The bits x are a header of n bits for nl literal/length and no offset symbols. */
  ghost predicate HeaderFrom(x: nat, n: nat, nl: nat, no: nat, lens: seq<nat>, m: nat, pl: seq<nat>,
                             items: seq<PreItem>, k: nat) {
    && nl == 257 + Low(x, 5) && no == 1 + Low(Shr(x, 5), 5) && m == 4 + Low(Shr(x, 10), 4)
    && PreLensMean(Shr(x, 14), m, pl) && Accepted(pl, MAX_PRE_LEN)
    && LensRead(pl, Shr(x, 14 + 3 * m), items, k, lens) && |lens| == nl + no
    && n == 14 + 3 * m + k
  }

  ghost predicate HeaderMeans(x: nat, n: nat, nl: nat, no: nat, lens: seq<nat>) {
    exists m: nat, pl: seq<nat>, items: seq<PreItem>, k: nat :: HeaderFrom(x, n, nl, no, lens, m, pl, items, k)
  }

  ghost predicate NoHeader(x: nat, avail: int) {
    forall n: nat, nl: nat, no: nat, lens: seq<nat> :: HeaderMeans(x, n, nl, no, lens) ==> n > avail
  }

  // ---- encoding

  ghost predicate HeaderParts(nl: nat, no: nat, m: nat, pl: seq<nat>, items: seq<PreItem>) {
    && 257 <= nl <= 288 && 1 <= no <= 32 && 4 <= m <= PRECODE_SYMS && PrecodeLens(pl) && PreEncodable(pl, items)
  }

  ghost function HeaderBits(nl: nat, no: nat, m: nat, pl: seq<nat>, items: seq<PreItem>): Bits
    requires HeaderParts(nl, no, m, pl, items)
  {
    Front(nl - 257, 5) + Front(no - 1, 5) + Front(m - 4, 4) + PreLenBits(pl, m) + PreItemsBits(pl, items)
  }

  /** Only the first m stored lengths can be other than zero. */
  ghost predicate NoneStoredFrom(pl: seq<nat>, m: nat)
    requires |pl| == PRECODE_SYMS
  {
    forall i :: m <= i < PRECODE_SYMS ==> pl[PERMUTATION[i]] == 0
  }

  /** The last of them is other than zero, unless it has to be stored in any case. */
  ghost predicate NoneLessStored(pl: seq<nat>, m: nat)
    requires |pl| == PRECODE_SYMS && m <= PRECODE_SYMS
  {
    m > 4 ==> (SymbolAt(m - 1); pl[PERMUTATION[m - 1]] != 0)
  }

  lemma FieldIs(x: nat, v: nat, n: nat)
    requires Begins(x, Front(v, n)) && v < Pow2(n)
    ensures Low(x, n) == v
  {
    LeFront(v, n);
    LowFits(v, n);
  }

  /** The bits of a header mean what it was made from. */
  lemma HeaderBitsMean(x: nat, nl: nat, no: nat, m: nat, pl: seq<nat>, items: seq<PreItem>, lens: seq<nat>)
    requires HeaderParts(nl, no, m, pl, items) && Begins(x, HeaderBits(nl, no, m, pl, items))
    requires Accepted(pl, MAX_PRE_LEN) && ExpandsTo(items, lens) && |lens| == nl + no
    requires NoneStoredFrom(pl, m)
    ensures HeaderMeans(x, |HeaderBits(nl, no, m, pl, items)|, nl, no, lens)
  {
    hide Low, Shr, Begins, Front, PreLenBits, PreItemsBits, Accepted, PreEncodable, ExpandsTo, PreItemsMean;
    var a, b, c, d, e := Front(nl - 257, 5), Front(no - 1, 5), Front(m - 4, 4), PreLenBits(pl, m),
      PreItemsBits(pl, items);
    BeginsAppend(x, a + b + c + d, e);
    BeginsAppend(x, a + b + c, d);
    BeginsAppend(x, a + b, c);
    BeginsAppend(x, a, b);
    assert Pow2(5) == 32 && Pow2(4) == 16;
    FieldIs(x, nl - 257, 5);
    FieldIs(Shr(x, 5), no - 1, 5);
    FieldIs(Shr(x, 10), m - 4, 4);
    PreLenBitsGive(Shr(x, 14), pl, m);
    PreItemsBitsMean(pl, Shr(x, 14 + 3 * m), items);
    assert HeaderFrom(x, |HeaderBits(nl, no, m, pl, items)|, nl, no, lens, m, pl, items, |e|);
  }
}
