/** Match lengths and offsets as a symbol and extra bits (section 3.2.5 of RFC 1951). */
module Slots {
  import opened Arith
  import opened Packed
  import opened DecodeTable

  const MIN_MATCH: nat := 3
  const MAX_MATCH: nat := 258
  const MAX_OFFSET: nat := 32768
  const FIRST_LENGTH_SYM: nat := 257
  const END_SYM: nat := 256

  /** Base and number of extra bits of the length slots; the last two are never written but can be read. */
  const LENGTH_BASE: seq<nat> := [
    3, 4, 5, 6, 7, 8, 9, 10, 11, 13, 15, 17, 19, 23, 27, 31, 35, 43, 51, 59, 67, 83, 99, 115, 131, 163, 195, 227,
    258, 258, 258]
  const LENGTH_EXTRA: seq<nat> := [
    0, 0, 0, 0, 0, 0, 0, 0, 1, 1, 1, 1, 2, 2, 2, 2, 3, 3, 3, 3, 4, 4, 4, 4, 5, 5, 5, 5, 0, 0, 0]

  const OFFSET_BASE: seq<nat> := [
    1, 2, 3, 4, 5, 7, 9, 13, 17, 25, 33, 49, 65, 97, 129, 193, 257, 385, 513, 769, 1025, 1537, 2049, 3073, 4097, 6145,
    8193, 12289, 16385, 24577, 24577, 24577]
  const OFFSET_EXTRA: seq<nat> := [
    0, 0, 0, 0, 1, 1, 2, 2, 3, 3, 4, 4, 5, 5, 6, 6, 7, 7, 8, 8, 9, 9, 10, 10, 11, 11, 12, 12, 13, 13, 13, 13]

  const LENGTH_SLOTS: nat := 29
  const OFFSET_SLOTS: nat := 30

  /** The last slot up to k whose base is at most x. */
  function SlotUpTo(base: seq<nat>, x: nat, k: nat): (r: nat)
    requires k < |base|
    ensures r <= k && (base[r] <= x || r == 0) && forall j :: r < j <= k ==> x < base[j]
  {
    if base[k] <= x || k == 0 then k else SlotUpTo(base, x, k - 1)
  }

  function LengthSlot(length: nat): (r: nat)
    ensures r < LENGTH_SLOTS
  {
    SlotUpTo(LENGTH_BASE, length, LENGTH_SLOTS - 1)
  }

  function OffsetSlot(offset: nat): (r: nat)
    ensures r < OFFSET_SLOTS
  {
    SlotUpTo(OFFSET_BASE, offset, OFFSET_SLOTS - 1)
  }

  lemma SmallPowers()
    ensures Pow2(0) == 1 && Pow2(1) == 2 && Pow2(2) == 4 && Pow2(3) == 8 && Pow2(4) == 16 && Pow2(5) == 32
    ensures Pow2(6) == 64 && Pow2(7) == 128 && Pow2(8) == 256 && Pow2(9) == 512 && Pow2(10) == 1024
    ensures Pow2(11) == 2048 && Pow2(12) == 4096 && Pow2(13) == 8192
  {
  }

  /** Behind the first eight lengths there are four slots for each number of extra bits; 258 has one of its own. */
  lemma LengthSlotIs(k: nat)
    requires k < |LENGTH_BASE|
    ensures |LENGTH_BASE| == |LENGTH_EXTRA| == 31
    ensures k < 8 ==> LENGTH_BASE[k] == 3 + k && LENGTH_EXTRA[k] == 0
    ensures 8 <= k < 28 ==> LENGTH_EXTRA[k] == k / 4 - 1 && LENGTH_BASE[k] == 3 + (4 + k % 4) * Pow2(k / 4 - 1)
    ensures k >= 28 ==> LENGTH_BASE[k] == 258 && LENGTH_EXTRA[k] == 0
  {
    SmallPowers();
    hide Pow2;
  }

  ghost predicate OffsetSlotAs(k: nat)
    requires k < 30
  {
    if k < 2 then OFFSET_BASE[k] == 1 + k && OFFSET_EXTRA[k] == 0
    else OFFSET_EXTRA[k] == k / 2 - 1 && OFFSET_BASE[k] == 1 + (2 + k % 2) * Pow2(k / 2 - 1)
  }

  /** Behind the first two offsets there are two slots for each number of extra bits. */
  lemma OffsetSlotIs(k: nat)
    requires k < |OFFSET_BASE|
    ensures |OFFSET_BASE| == |OFFSET_EXTRA| == 32
    ensures if k < 30 then OffsetSlotAs(k) else OFFSET_BASE[k] == OFFSET_BASE[29] && OFFSET_EXTRA[k] == 13
  {
    hide OffsetSlotAs;
    if k < 14 {
      NearOffsetSlot(k);
    } else if k < 30 {
      FarOffsetSlot(k);
    }
  }

  lemma NearOffsetSlot(k: nat)
    requires k < 14
    ensures OffsetSlotAs(k)
  {
    SmallPowers();
  }

  lemma FarOffsetSlot(k: nat)
    requires 14 <= k < 30
    ensures OffsetSlotAs(k)
  {
    SmallPowers();
  }

  /** The slots follow on each other without gaps. */
  lemma LengthSlotsTile(k: nat)
    requires k < LENGTH_SLOTS
    ensures LENGTH_BASE[k] + Pow2(LENGTH_EXTRA[k]) == if k < 27 then LENGTH_BASE[k + 1] else 259
  {
    SmallPowers();
  }

  lemma OffsetSlotsTile(k: nat)
    requires k < OFFSET_SLOTS
    ensures OFFSET_BASE[k] + Pow2(OFFSET_EXTRA[k]) == if k < 29 then OFFSET_BASE[k + 1] else 32769
  {
    SmallPowers();
  }

  lemma LengthExtraFits(length: nat)
    requires MIN_MATCH <= length <= MAX_MATCH
    ensures LENGTH_BASE[LengthSlot(length)] <= length
    ensures length - LENGTH_BASE[LengthSlot(length)] < Pow2(LENGTH_EXTRA[LengthSlot(length)])
  {
    LengthSlotsTile(LengthSlot(length));
  }

  lemma OffsetExtraFits(offset: nat)
    requires 1 <= offset <= MAX_OFFSET
    ensures OFFSET_BASE[OffsetSlot(offset)] <= offset
    ensures offset - OFFSET_BASE[OffsetSlot(offset)] < Pow2(OFFSET_EXTRA[OffsetSlot(offset)])
  {
    OffsetSlotsTile(OffsetSlot(offset));
  }

  // ---- the static parts of the decode table entries

  function LitlenResult(s: nat): (e: u32)
    requires s < 288
  {
    if s < END_SYM then LITERAL + s * 0x1_0000
    else if s == END_SYM then EXCEPTIONAL + END_OF_BLOCK
    else LENGTH_BASE[s - FIRST_LENGTH_SYM] * 0x1_0000 + LENGTH_EXTRA[s - FIRST_LENGTH_SYM]
  }

  function LitlenResults(): (dr: seq<u32>)
    ensures |dr| == 288 && forall s :: 0 <= s < 288 ==> dr[s] == LitlenResult(s)
  {
    seq(288, s requires 0 <= s < 288 => LitlenResult(s))
  }

  function OffsetResult(s: nat): (e: u32)
    requires s < 32
  {
    OFFSET_BASE[s] * 0x1_0000 + OFFSET_EXTRA[s]
  }

  function OffsetResults(): (dr: seq<u32>)
    ensures |dr| == 32 && forall s :: 0 <= s < 32 ==> dr[s] == OffsetResult(s)
  {
    seq(32, s requires 0 <= s < 32 => OffsetResult(s))
  }

  /** The low half of an entry: the flags of the end of a block, or the number of extra bits. */
  lemma LitlenResultLow(s: nat)
    requires s < 288
    ensures LitlenResult(s) % 0x1_0000 == EXCEPTIONAL + END_OF_BLOCK || LitlenResult(s) % 0x1_0000 <= 13
  {
    if s < END_SYM {
      QuotientIs(LitlenResult(s), 0x1_0000, 0x8000 + s, 0);
    } else if s > END_SYM {
      ExtraSmall(LENGTH_EXTRA, s - FIRST_LENGTH_SYM);
      QuotientIs(LitlenResult(s), 0x1_0000, LENGTH_BASE[s - FIRST_LENGTH_SYM], LENGTH_EXTRA[s - FIRST_LENGTH_SYM]);
    }
  }

  lemma OffsetResultLow(s: nat)
    requires s < 32
    ensures OffsetResult(s) % 0x1_0000 <= 13
  {
    ExtraSmall(OFFSET_EXTRA, s);
    QuotientIs(OffsetResult(s), 0x1_0000, OFFSET_BASE[s], OFFSET_EXTRA[s]);
  }

  lemma ExtraSmall(extra: seq<nat>, k: nat)
    requires (extra == LENGTH_EXTRA || extra == OFFSET_EXTRA) && k < |extra|
    ensures extra[k] <= 13
  {
  }

  lemma ResultsHold()
    ensures Results(LitlenResults()) && Results(OffsetResults())
  {
    hide LitlenResult, OffsetResult;
    forall s | 0 <= s < 288
      ensures LitlenResults()[s] % 0x1_0000 == EXCEPTIONAL + END_OF_BLOCK || LitlenResults()[s] % 0x1_0000 <= 13
    {
      LitlenResultLow(s);
    }
    forall s | 0 <= s < 32 ensures OffsetResults()[s] % 0x1_0000 <= 13 {
      OffsetResultLow(s);
    }
  }
}
