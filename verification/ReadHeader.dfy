/** Reading the header of a dynamic block. */
module ReadHeader {
  import opened Arith
  import opened Packed
  import opened Bits
  import opened LengthCounts
  import opened Canonical
  import opened Words
  import opened CodeOrder
  import opened BitBuffer
  import opened BitReader
  import opened DecodeTable
  import opened Subtables
  import opened SortByLength
  import opened BuildDecodeTable
  import opened Precode
  import opened DecodeLens
  import opened Header

  // ---- the lengths of the precode

  /** The first i stored lengths are in place. */
  ghost predicate PreLensRead(x: nat, i: nat, pl: seq<nat>) {
    && i <= PRECODE_SYMS && |pl| == PRECODE_SYMS
    && forall j :: 0 <= j < i ==> pl[PERMUTATION[j]] == Low(Shr(x, 3 * j), 3)
  }

  lemma PreLenStored(x: nat, i: nat, pl: seq<nat>, v: nat)
    requires PreLensRead(x, i, pl) && i < PRECODE_SYMS && v == Low(Shr(x, 3 * i), 3)
    ensures PERMUTATION[i] < PRECODE_SYMS && PreLensRead(x, i + 1, pl[PERMUTATION[i] := v])
  {
    hide Low, Shr;
    PermutationInverse();
    var pl' := pl[PERMUTATION[i] := v];
    forall j | 0 <= j < i + 1 ensures pl'[PERMUTATION[j]] == Low(Shr(x, 3 * j), 3) {
      if PERMUTATION[j] == PERMUTATION[i] {
        assert POSITIONS[PERMUTATION[j]] == j && POSITIONS[PERMUTATION[i]] == i;
      }
    }
  }

  lemma PreLensDone(x: nat, m: nat, pl: seq<nat>, pl': seq<nat>)
    requires PreLensRead(x, m, pl) && |pl'| == PRECODE_SYMS
    requires forall s :: 0 <= s < PRECODE_SYMS ==> pl'[s] == if POSITIONS[s] < m then pl[s] else 0
    ensures PreLensMean(x, m, pl') && PrecodeLens(pl')
  {
    hide Low, Shr;
    PermutationInverse();
    forall s | 0 <= s < PRECODE_SYMS ensures pl'[s] < 8 {
      ThreeBits(Shr(x, 3 * POSITIONS[s]));
      assert PERMUTATION[POSITIONS[s]] == s;
    }
  }

  lemma ThreeBits(x: nat)
    ensures Low(x, 3) < 8
  {
    assert Pow2(3) == 8;
  }

  /** Reads one length of the precode. */
  method ReadPreLen(r: BitReader, i: nat, pl: array<nat>, ghost x: nat)
    requires r.Valid() && r.Left() >= 3 && i < PRECODE_SYMS == pl.Length
    requires r.Rest() == Shr(x, 3 * i) && PreLensRead(x, i, pl[..])
    modifies r, pl
    ensures r.Valid() && r.Position() == old(r.Position()) + 3 && r.Left() == old(r.Left()) - 3
    ensures r.Rest() == Shr(x, 3 * (i + 1)) && PreLensRead(x, i + 1, pl[..])
  {
    hide Low, Shr, PreLensRead;
    var v := r.Peek(3);
    ghost var before := pl[..];
    PreLenStored(x, i, before, v);
    pl[PERMUTATION[i]] := v;
    assert pl[..] == before[PERMUTATION[i] := v];
    ShrShr(x, 3 * i, 3);
    r.Consume(3);
  }

  /** Reads m lengths of the precode.  A large buffer holds all but the first of them. */
  method ReadPreLens(r: BitReader, m: nat, pl: array<nat>)
    returns (ok: bool)
    requires r.Valid() && r.Left() >= 3 && 4 <= m <= PRECODE_SYMS == pl.Length
    modifies r, pl
    ensures ok ==> r.Valid() && r.Position() == old(r.Position()) + 3 * m
    ensures ok ==> PreLensMean(old(r.Rest()), m, pl[..]) && PrecodeLens(pl[..])
    ensures !ok ==> old(r.Position()) + 3 * m > 8 * |r.data|
  {
    hide Low, Shr, PreLensRead, PreLensMean, PrecodeLens;
    ghost var x, p := r.Rest(), r.Position();
    var i := 0;
    ok := true;
    var wide := r.Consumable() >= 3 * (PRECODE_SYMS - 1);
    ShrNothing(x);
    NothingStored(x, pl[..]);
    if wide {
      ReadPreLen(r, 0, pl, x);
      ok := r.Refill();
      if !ok {
        return;
      }
      i := 1;
    }
    while i < m
      invariant 0 <= i <= m && r.Valid() && r.Position() == p + 3 * i && r.Rest() == Shr(x, 3 * i)
      invariant wide ==> r.Left() >= 3 * (PRECODE_SYMS - i)
      invariant PreLensRead(x, i, pl[..])
    {
      if !wide && r.Left() < 3 {
        ok := r.Refill();
        if !ok {
          return;
        }
      }
      ReadPreLen(r, i, pl, x);
      i := i + 1;
    }
    ghost var before := pl[..];
    PermutationInverse();
    while i < PRECODE_SYMS
      invariant m <= i <= PRECODE_SYMS && r.Valid() && r.Position() == p + 3 * m
      invariant forall s :: 0 <= s < PRECODE_SYMS ==> pl[s] == if m <= POSITIONS[s] < i then 0 else before[s]
    {
      pl[PERMUTATION[i]] := 0;
      i := i + 1;
    }
    PreLensDone(x, m, before, pl[..]);
  }

  lemma NothingStored(x: nat, pl: seq<nat>)
    requires |pl| == PRECODE_SYMS
    ensures PreLensRead(x, 0, pl)
  {
  }

  // ---- the precode's table

  lemma PreResultsHold()
    ensures Results(PrecodeResults())
  {
    forall s | 0 <= s < PRECODE_SYMS ensures PrecodeResults()[s] % 0x1_0000 == 0 {
      QuotientIs(PrecodeResults()[s], 0x1_0000, s, 0);
    }
  }

  /** The table of the precode needs no subtables. */
  lemma PreRoom(pl: seq<nat>, size: nat)
    requires 128 <= size <= 0x8000
    ensures Room(pl, MAX_PRE_LEN, PrecodeResults(), MainBits(pl, MAX_PRE_LEN, MAX_PRE_LEN, false), size)
  {
    assert Pow2(7) == 128;
  }

  /** Builds the table of the precode, which lies elsewhere than its lengths. */
  method BuildPrecodeTable(preT: array<u32>, pl: array<nat>, sortedSyms: array<nat>) returns (ok: bool)
    requires pl.Length == PRECODE_SYMS && AtMost(pl[..], MAX_PRE_LEN)
    requires 128 <= preT.Length <= 0x8000 && sortedSyms.Length >= PRECODE_SYMS
    requires preT as object != sortedSyms && preT as object != pl && pl != sortedSyms
    modifies preT, sortedSyms, pl
    ensures ok <==> Accepted(old(pl[..]), MAX_PRE_LEN)
    ensures ok ==> Decoder(preT[..], old(pl[..]), PrecodeResults(), MAX_PRE_LEN)
  {
    hide Accepted, Decoder, Room, NoCodewords, OneCodeword, Filled, MakeEntry;
    assert pl[0..0 + PRECODE_SYMS] == pl[..];
    PreRoom(pl[..], preT.Length);
    PreResultsHold();
    var tb;
    ok, tb := BuildDecodeTable.BuildDecodeTable(preT, pl, 0, PRECODE_SYMS, PrecodeResults(), MAX_PRE_LEN, MAX_PRE_LEN,
                                                sortedSyms, false, false);
  }

  /** Reads the numbers of symbols. */
  method ReadFields(r: BitReader) returns (nl: nat, no: nat, m: nat)
    requires r.Valid() && r.Left() >= 14
    modifies r
    ensures r.Valid() && r.Position() == old(r.Position()) + 14 && r.Left() == old(r.Left()) - 14
    ensures r.Rest() == Shr(old(r.Rest()), 14)
    ensures nl == 257 + Low(old(r.Rest()), 5) <= 288 && no == 1 + Low(Shr(old(r.Rest()), 5), 5) <= 32
    ensures m == 4 + Low(Shr(old(r.Rest()), 10), 4) <= PRECODE_SYMS
  {
    hide Low, Shr;
    var fields := r.Peek(14);
    Fields(r.Rest(), fields);
    nl := 257 + Low(fields, 5);
    no := 1 + Low(Shr(fields, 5), 5);
    m := 4 + Low(Shr(fields, 10), 4);
    r.Consume(14);
  }

  /** Reads the header of a dynamic block: the codeword lengths of nl literal/length and no offset
      symbols. */
  method ReadHeader(r: BitReader, preT: array<u32>, sortedSyms: array<nat>, lens: array<nat>)
    returns (ok: bool, nl: nat, no: nat, ghost n: nat)
    requires r.Valid() && r.Left() >= 17
    requires 128 <= preT.Length <= 0x8000 && sortedSyms.Length >= PRECODE_SYMS
    requires lens.Length >= 288 + 32 + MAX_OVERRUN
    requires preT as object != lens && preT as object != sortedSyms && lens != sortedSyms
    modifies r, preT, sortedSyms, lens
    ensures ok ==> r.Valid() && r.Position() == old(r.Position()) + n && 257 <= nl <= 288 && 1 <= no <= 32
    ensures ok ==> HeaderMeans(old(r.Rest()), n, nl, no, lens[..nl + no])
    ensures !ok ==> NoHeader(old(r.Rest()), 8 * |r.data| - old(r.Position()))
  {
    hide Low, Shr, PreLensMean, PrecodeLens, Accepted, Decoder, LensRead, NoLens, HeaderMeans, NoHeader, Room,
      HeaderFrom;
    ghost var x, p := r.Rest(), r.Position();
    var pl := new nat[PRECODE_SYMS];
    n := 0;
    var m;
    nl, no, m := ReadFields(r);
    ok := ReadPreLens(r, m, pl);
    if !ok {
      TooFewPreLens(x, 8 * |r.data| - p, m);
      return;
    }
    ShrShr(Value(r.data), p, 14 + 3 * m);
    ghost var items, k;
    ghost var preLens := pl[..];
    ok, items, k := ReadCodeLens(r, preT, sortedSyms, lens, nl + no, pl);
    if ok {
      n := 14 + 3 * m + k;
      HeaderRead(x, n, nl, no, lens[..nl + no], m, preLens, items, k);
    } else {
      LensRefused(x, 8 * |r.data| - p, m, preLens, nl + no);
    }
  }

  /** Reads the codeword lengths, given those of the precode, which are lost when the first is written. */
  method ReadCodeLens(r: BitReader, preT: array<u32>, sortedSyms: array<nat>, lens: array<nat>, num: nat,
                      pl: array<nat>)
    returns (ok: bool, ghost items: seq<PreItem>, ghost k: nat)
    requires r.Valid() && PrecodeLens(pl[..]) && 1 <= num && num + MAX_OVERRUN <= lens.Length
    requires 128 <= preT.Length <= 0x8000 && sortedSyms.Length >= PRECODE_SYMS
    requires preT as object != lens && preT as object != sortedSyms && lens != sortedSyms
    requires preT as object != pl && pl != sortedSyms && pl != lens
    modifies r, preT, sortedSyms, lens, pl
    ensures ok ==>
      Accepted(old(pl[..]), MAX_PRE_LEN) && LensRead(old(pl[..]), old(r.Rest()), items, k, lens[..num])
    ensures ok ==> r.Valid() && r.Position() == old(r.Position()) + k
    ensures !ok ==>
      !Accepted(old(pl[..]), MAX_PRE_LEN)
      || NoLens(old(pl[..]), old(r.Rest()), 8 * |r.data| - old(r.Position()), num)
  {
    hide Low, Shr, Accepted, Decoder, LensRead, NoLens, PrecodeLens;
    items, k := [], 0;
    ghost var preLens := pl[..];
    LensInRange(preLens);
    ok := BuildPrecodeTable(preT, pl, sortedSyms);
    if ok {
      ghost var table := preT[..];
      modify pl;
      assert preT[..] == table;
      ok, items, k := DecodeLengths(r, preT, num, lens, preLens);
    }
  }

  lemma Fields(x: nat, fields: nat)
    requires fields == Low(x, 14)
    ensures Low(fields, 5) == Low(x, 5) < 32 && Low(Shr(fields, 5), 5) == Low(Shr(x, 5), 5) < 32
    ensures Low(Shr(fields, 10), 4) == Low(Shr(x, 10), 4) < 16
  {
    hide Low, Shr;
    assert Pow2(5) == 32 && Pow2(4) == 16;
    LowOfLow(x, 5, 14);
    LowOfShr(x, 5, 5);
    LowOfShr(fields, 5, 5);
    LowOfLow(x, 10, 14);
    LowOfShr(x, 10, 4);
    LowOfShr(fields, 10, 4);
    LowOfLow(x, 14, 14);
  }

  lemma LensInRange(pl: seq<nat>)
    requires PrecodeLens(pl)
    ensures AtMost(pl, MAX_PRE_LEN) && |pl| == PRECODE_SYMS
  {
  }

  lemma HeaderRead(x: nat, n: nat, nl: nat, no: nat, lens: seq<nat>, m: nat, pl: seq<nat>, items: seq<PreItem>, k: nat)
    requires nl == 257 + Low(x, 5) && no == 1 + Low(Shr(x, 5), 5) && m == 4 + Low(Shr(x, 10), 4)
    requires PreLensMean(Shr(x, 14), m, pl) && Accepted(pl, MAX_PRE_LEN)
    requires LensRead(pl, Shr(x, 14 + 3 * m), items, k, lens) && |lens| == nl + no && n == 14 + 3 * m + k
    ensures HeaderMeans(x, n, nl, no, lens)
  {
    hide Low, Shr, PreLensMean, Accepted, LensRead;
    assert HeaderFrom(x, n, nl, no, lens, m, pl, items, k);
  }

  lemma TooFewPreLens(x: nat, avail: int, m: nat)
    requires m == 4 + Low(Shr(x, 10), 4) && 14 + 3 * m > avail
    ensures NoHeader(x, avail)
  {
    hide Low, Shr, PreLensMean, Accepted, LensRead;
  }

  lemma LensRefused(x: nat, avail: int, m: nat, pl: seq<nat>, num: nat)
    requires m == 4 + Low(Shr(x, 10), 4) && PreLensMean(Shr(x, 14), m, pl)
    requires num == 257 + Low(x, 5) + 1 + Low(Shr(x, 5), 5)
    requires !Accepted(pl, MAX_PRE_LEN) || NoLens(pl, Shr(x, 14 + 3 * m), avail - (14 + 3 * m), num)
    ensures NoHeader(x, avail)
  {
    hide Low, Shr, PreLensMean, Accepted, ExpandsTo, PreItemsMean;
    forall n: nat, nl: nat, no: nat, lens: seq<nat> | HeaderMeans(x, n, nl, no, lens) ensures n > avail {
      var m': nat, pl': seq<nat>, items: seq<PreItem>, k: nat :| HeaderFrom(x, n, nl, no, lens, m', pl', items, k);
      PreLensUnique(Shr(x, 14), m, pl, pl');
      assert Accepted(pl, MAX_PRE_LEN) ==> !LensParse(pl, Shr(x, 14 + 3 * m), avail - (14 + 3 * m), num, items, k,
                                                      lens);
    }
  }
}
