/** The decompressor: block headers, decode tables and their reuse, stored blocks, end of stream. */
module Decompress {
  import opened Arith
  import opened Packed
  import opened Bits
  import opened Words
  import opened BitBuffer
  import opened BitReader
  import opened DecodeTable
  import opened SortByLength
  import opened BuildDecodeTable
  import opened Slots
  import opened Items
  import opened TableLookup
  import opened GenericItem
  import DecodeBlock
  import opened Precode
  import opened DecodeLens
  import opened Header
  import opened ReadHeader
  import opened StaticCodes
  import opened Inflate
  import opened TableRoom
  import opened Subtables

  /** Sizes that are enough for every code; the least ones are smaller. */
  const LITLEN_TABLE_SIZE: nat := 2048 + 288 * 16
  const OFFSET_TABLE_SIZE: nat := 256 + 32 * 128

  datatype Result = Success | BadDataFound | ShortOutput | InsufficientSpace

  // ---- lengths from a header fit

  lemma {:induction false} LensSmall(pl: seq<nat>, x: nat, items: seq<PreItem>, n: nat, lens: seq<nat>)
    requires PreItemsMean(pl, x, items, n) && ExpandsTo(items, lens)
    ensures AtMost(lens, MAX_LEN)
    decreases |items|
  {
    hide Means, Shr, Low;
    if items != [] {
      var last := items[|items| - 1];
      var k: nat :| k <= n && PreItemsMean(pl, x, AllButLast(items), k) && PreItemMeans(pl, Shr(x, k), last, n - k);
      var before :| ExpandsTo(AllButLast(items), before) && CanExpand(before, last) && lens == ExpandOne(before, last);
      LensSmall(pl, x, AllButLast(items), k, before);
    }
  }

  lemma HeaderLens(x: nat, n: nat, nl: nat, no: nat, lens: seq<nat>)
    requires HeaderMeans(x, n, nl, no, lens)
    ensures AtMost(lens, MAX_LEN) && |lens| == nl + no
    ensures AtMost(lens[..nl], MAX_LEN) && AtMost(lens[nl..], MAX_LEN)
  {
    hide Low, Shr, PreLensMean, Accepted, PreItemsMean, ExpandsTo;
    var m: nat, pl: seq<nat>, items: seq<PreItem>, k: nat :| HeaderFrom(x, n, nl, no, lens, m, pl, items, k);
    LensSmall(pl, Shr(x, 14 + 3 * m), items, k, lens);
  }

  // ---- refusals

  /** A stored block whose length is more than there is room for. */
  ghost predicate StoredOverruns(data: seq<u8>, pos: nat, before: seq<u8>, outEnd: nat) {
    var i := (pos + 3 + 7) / 8;
    i + 4 <= |data| && Le16(data, i) + Le16(data, i + 2) == 0xFFFF && |before| + Le16(data, i) > outEnd
  }

  ghost predicate DynamicOverrunsFrom(data: seq<u8>, pos: nat, before: seq<u8>, outEnd: nat, n: nat, nl: nat, no: nat,
                                      lens: seq<nat>) {
    && HeaderMeans(Shr(Value(data), pos + 3), n, nl, no, lens) && nl <= |lens|
    && Accepted(lens[..nl], MAX_LEN) && Accepted(lens[nl..], MAX_LEN)
    && Overruns(lens[..nl], lens[nl..], Shr(Value(data), pos + 3 + n), before, outEnd)
  }

  ghost predicate DynamicOverruns(data: seq<u8>, pos: nat, before: seq<u8>, outEnd: nat) {
    exists n: nat, nl: nat, no: nat, lens: seq<nat> :: DynamicOverrunsFrom(data, pos, before, outEnd, n, nl, no, lens)
  }

  /** The block can be read up to where it no longer fits the output. */
  ghost predicate StepOverruns(data: seq<u8>, pos: nat, before: seq<u8>, outEnd: nat) {
    if Type(data, pos) == 0 then StoredOverruns(data, pos, before, outEnd)
    else if Type(data, pos) == 1 then
      Overruns(StaticLitlen(), StaticOffset(), Shr(Value(data), pos + 3), before, outEnd)
    else Type(data, pos) == 2 && DynamicOverruns(data, pos, before, outEnd)
  }

  /** The block does not decode: for lack of space it is too large, and can be read up to where it becomes so;
      otherwise it goes beyond the input. */
  ghost predicate NoStep(status: Status, data: seq<u8>, pos: nat, before: seq<u8>, outEnd: nat) {
    && (forall pos': nat, after: seq<u8> :: BlockStep(data, pos, before, pos', after) ==>
          Exceeds(status, pos', 8 * |data|, |after|, outEnd))
    && (status == NoSpace ==> StepOverruns(data, pos, before, outEnd))
  }

  lemma HuffmanRefused(status: Status, data: seq<u8>, pos: nat, before: seq<u8>, ll: seq<nat>, ol: seq<nat>,
                       outEnd: nat)
    requires Undecodable(status, ll, ol, Shr(Value(data), pos), 8 * |data| - pos, before, outEnd)
    ensures forall pos': nat, after: seq<u8> :: Huffman(data, pos, before, ll, ol, pos', after) ==>
      Exceeds(status, pos', 8 * |data|, |after|, outEnd)
  {
    hide BlockMeans, Reachable, Expand, Shr, Overruns;
    forall pos': nat, after: seq<u8> | Huffman(data, pos, before, ll, ol, pos', after)
      ensures Exceeds(status, pos', 8 * |data|, |after|, outEnd)
    {
      var items: seq<Item>, n: nat :| BlockMeans(ll, ol, Shr(Value(data), pos), items, n) && Reachable(before, items)
        && after == Expand(before, items) && pos' == pos + n;
      assert !Parse(status, ll, ol, Shr(Value(data), pos), 8 * |data| - pos, before, outEnd, items, n);
    }
  }

  lemma HeaderRefused(data: seq<u8>, pos: nat, before: seq<u8>, outEnd: nat)
    requires Type(data, pos) == 2 && NoHeader(Shr(Value(data), pos + 3), 8 * |data| - (pos + 3))
    ensures NoStep(BadData, data, pos, before, outEnd)
  {
    hide BlockMeans, HeaderMeans, Accepted, Reachable, Expand, Shr;
  }

  /** With its header read, a dynamic block decodes only if its codes are accepted and its items do. */
  lemma DynamicRefused(status: Status, data: seq<u8>, pos: nat, before: seq<u8>, outEnd: nat, n: nat, nl: nat, no: nat,
                       lens: seq<nat>)
    requires Type(data, pos) == 2 && HeaderMeans(Shr(Value(data), pos + 3), n, nl, no, lens) && nl <= |lens|
    requires if Accepted(lens[..nl], MAX_LEN) && Accepted(lens[nl..], MAX_LEN) then
        Undecodable(status, lens[..nl], lens[nl..], Shr(Value(data), pos + 3 + n), 8 * |data| - (pos + 3 + n), before,
                    outEnd)
      else status == BadData
    ensures NoStep(status, data, pos, before, outEnd)
  {
    hide Accepted, Huffman, HeaderMeans, Shr, Undecodable, Overruns;
    if status == NoSpace {
      OverrunsFrom(status, lens[..nl], lens[nl..], Shr(Value(data), pos + 3 + n), 8 * |data| - (pos + 3 + n), before,
                   outEnd);
      assert DynamicOverrunsFrom(data, pos, before, outEnd, n, nl, no, lens);
    }
    forall pos': nat, after: seq<u8> | BlockStep(data, pos, before, pos', after)
      ensures Exceeds(status, pos', 8 * |data|, |after|, outEnd)
    {
      var n': nat, nl': nat, no': nat, lens': seq<nat> :|
        DynamicFrom(data, pos, before, pos', after, n', nl', no', lens');
      HeaderUnique(Shr(Value(data), pos + 3), n, nl, no, lens, n', nl', no', lens');
      HuffmanRefused(status, data, pos + 3 + n, before, lens[..nl], lens[nl..], outEnd);
    }
  }

  lemma OverrunsFrom(status: Status, ll: seq<nat>, ol: seq<nat>, x: nat, avail: int, before: seq<u8>, outEnd: nat)
    requires Undecodable(status, ll, ol, x, avail, before, outEnd)
    ensures status == NoSpace ==> Overruns(ll, ol, x, before, outEnd)
  {
    hide Overruns;
  }

  /** A stored block is refused if its header or its bytes are not there, or if there is no room for them. */
  lemma StoredRefused(status: Status, data: seq<u8>, pos: nat, before: seq<u8>, outEnd: nat)
    requires Type(data, pos) == 0
    requires status == BadData || (status == NoSpace && StoredOverruns(data, pos, before, outEnd))
    requires status == BadData ==> var i := (pos + 3 + 7) / 8;
      i + 4 > |data| || Le16(data, i) + Le16(data, i + 2) != 0xFFFF || i + 4 + Le16(data, i) > |data|
    ensures NoStep(status, data, pos, before, outEnd)
  {
    hide Type, Dynamic, Static;
  }

  lemma StoredDone(data: seq<u8>, pos: nat, before: seq<u8>, len: nat)
    requires Type(data, pos) == 0
    requires var i := (pos + 3 + 7) / 8;
      i + 4 + len <= |data| && len == Le16(data, i) == 0xFFFF - Le16(data, i + 2)
    ensures var i := (pos + 3 + 7) / 8;
      BlockStep(data, pos, before, 8 * (i + 4 + len), before + data[i + 4..i + 4 + len])
  {
    hide Type, Dynamic, Static;
  }

  lemma StaticRefused(status: Status, data: seq<u8>, pos: nat, before: seq<u8>, outEnd: nat)
    requires Type(data, pos) == 1
    requires Undecodable(status, StaticLitlen(), StaticOffset(), Shr(Value(data), pos + 3), 8 * |data| - (pos + 3),
                         before, outEnd)
    ensures NoStep(status, data, pos, before, outEnd)
  {
    hide Huffman, Shr, Undecodable, Overruns;
    OverrunsFrom(status, StaticLitlen(), StaticOffset(), Shr(Value(data), pos + 3), 8 * |data| - (pos + 3), before,
                 outEnd);
    HuffmanRefused(status, data, pos + 3, before, StaticLitlen(), StaticOffset(), outEnd);
  }

  lemma HuffmanDone(data: seq<u8>, pos: nat, before: seq<u8>, ll: seq<nat>, ol: seq<nat>, items: seq<Item>, n: nat)
    requires BlockMeans(ll, ol, Shr(Value(data), pos), items, n) && Reachable(before, items)
    ensures Huffman(data, pos, before, ll, ol, pos + n, Expand(before, items))
  {
  }

  lemma DynamicDone(data: seq<u8>, pos: nat, before: seq<u8>, pos': nat, after: seq<u8>, n: nat, nl: nat, no: nat,
                    lens: seq<nat>)
    requires Type(data, pos) == 2 && HeaderMeans(Shr(Value(data), pos + 3), n, nl, no, lens) && nl <= |lens|
    requires Accepted(lens[..nl], MAX_LEN) && Accepted(lens[nl..], MAX_LEN)
    requires Huffman(data, pos + 3 + n, before, lens[..nl], lens[nl..], pos', after)
    ensures BlockStep(data, pos, before, pos', after)
  {
    hide Accepted, Huffman, HeaderMeans, Shr;
    assert DynamicFrom(data, pos, before, pos', after, n, nl, no, lens);
  }

  ghost predicate RoomOf(lens: seq<nat>, dr: seq<u32>, tableBits: nat, dynamic: bool, size: nat) {
    Room(lens, MAX_LEN, dr, MainBits(lens, MAX_LEN, tableBits, dynamic), size)
  }

  /** A table of this size is large enough for every code of at most `syms` symbols. */
  ghost predicate RoomForAll(syms: nat, dr: seq<u32>, tableBits: nat, dynamic: bool, size: nat) {
    forall lens: seq<nat> :: 0 < |lens| <= syms && AtMost(lens, MAX_LEN) ==>
      RoomOf(lens, dr, tableBits, dynamic, size)
  }

  ghost predicate TablesRoomy(litlenSize: nat, offsetSize: nat) {
    && RoomForAll(288, LitlenResults(), LITLEN_TABLE_BITS, true, litlenSize)
    && RoomForAll(32, OffsetResults(), OFFSET_TABLE_BITS, false, offsetSize)
  }

  lemma TablesHave(litlenSize: nat, offsetSize: nat, ll: seq<nat>)
    requires TablesRoomy(litlenSize, offsetSize) && 0 < |ll| <= 288 && AtMost(ll, MAX_LEN)
    ensures Room(ll, MAX_LEN, LitlenResults(), MainBits(ll, MAX_LEN, LITLEN_TABLE_BITS, true), litlenSize)
    ensures |LitlenResults()| >= 288
  {
    hide Room, MainBits;
    assert RoomOf(ll, LitlenResults(), LITLEN_TABLE_BITS, true, litlenSize);
  }

  lemma RoomBound(lens: seq<nat>, dr: seq<u32>, syms: nat, tableBits: nat, dynamic: bool, size: nat)
    requires |lens| <= syms && tableBits <= MAX_LEN
    requires Pow2(tableBits) + syms * Pow2(MAX_LEN - tableBits) <= size <= 0x8000
    ensures RoomOf(lens, dr, tableBits, dynamic, size)
  {
    hide Pow2, Longest, TableSize, Ok;
    var tb, m := MainBits(lens, MAX_LEN, tableBits, dynamic), Longest(lens, MAX_LEN);
    Pow2Monotone(tb, tableBits);
    forall sl | Ok(Spec(lens, m, sl, dr)) ensures TableSize(Spec(lens, m, sl, dr), tb) <= size {
      TableBound(Spec(lens, m, sl, dr), tb);
      if tb < m {
        Pow2Monotone(m - tb, MAX_LEN - tableBits);
        MulMonotone(|lens|, Pow2(m - tb), Pow2(MAX_LEN - tableBits));
        MulMonotone(Pow2(MAX_LEN - tableBits), |lens|, syms);
      }
    }
  }

  /** Tables with a full subtable for each symbol are large enough. */
  lemma TablesAmple()
    ensures TablesRoomy(LITLEN_TABLE_SIZE, OFFSET_TABLE_SIZE)
  {
    hide RoomOf, Pow2, LitlenResults, OffsetResults;
    PowersHere();
    forall lens: seq<nat> | 0 < |lens| <= 288 && AtMost(lens, MAX_LEN)
      ensures RoomOf(lens, LitlenResults(), LITLEN_TABLE_BITS, true, LITLEN_TABLE_SIZE)
    {
      RoomBound(lens, LitlenResults(), 288, LITLEN_TABLE_BITS, true, LITLEN_TABLE_SIZE);
    }
    forall lens: seq<nat> | 0 < |lens| <= 32 && AtMost(lens, MAX_LEN)
      ensures RoomOf(lens, OffsetResults(), OFFSET_TABLE_BITS, false, OFFSET_TABLE_SIZE)
    {
      RoomBound(lens, OffsetResults(), 32, OFFSET_TABLE_BITS, false, OFFSET_TABLE_SIZE);
    }
  }

  lemma PowersHere()
    ensures Pow2(11) == 2048 && Pow2(4) == 16 && Pow2(8) == 256 && Pow2(7) == 128
  {
  }

  // ---- the decompressor

  class Decompressor {
    const wordBytes: nat
    const fast: bool
    const precodeTable: array<u32>
    const litlenTable: array<u32>
    const offsetTable: array<u32>
    const sortedSyms: array<nat>
    const lens: array<nat>
    var staticCodesLoaded: bool
    var litlenTableBits: nat

    /** The tables are large enough for all codes. */
    ghost predicate Roomy() {
      && TablesRoomy(litlenTable.Length, offsetTable.Length)
      && 128 <= precodeTable.Length <= 0x8000 && sortedSyms.Length >= 288
      && lens.Length >= 288 + 32 + MAX_OVERRUN && (wordBytes == 4 || wordBytes == 8)
    }

    ghost predicate Separate() {
      && precodeTable != litlenTable && precodeTable != offsetTable && litlenTable != offsetTable
      && sortedSyms != lens
      && precodeTable as object != sortedSyms && litlenTable as object != sortedSyms
      && offsetTable as object != sortedSyms && precodeTable as object != lens
      && litlenTable as object != lens && offsetTable as object != lens
    }

    /** When the static codes are marked as loaded, the tables are theirs. */
    ghost predicate Valid()
      reads this, litlenTable, offsetTable
    {
      && Roomy() && Separate()
      && (staticCodesLoaded ==> TablesFor(StaticLitlen(), StaticOffset()))
    }

    ghost predicate TablesFor(ll: seq<nat>, ol: seq<nat>)
      reads this, litlenTable, offsetTable
    {
      && Decoder(litlenTable[..], ll, LitlenResults(), litlenTableBits) && litlenTableBits <= LITLEN_TABLE_BITS
      && Decoder(offsetTable[..], ol, OffsetResults(), OFFSET_TABLE_BITS)
    }

    constructor (wordBytes: nat, fast: bool)
      requires wordBytes == 4 || wordBytes == 8
      ensures Valid() && fresh(precodeTable) && fresh(litlenTable) && fresh(offsetTable) && fresh(sortedSyms)
      ensures fresh(lens)
    {
      hide TablesRoomy, Decoder;
      TablesAmple();
      this.wordBytes, this.fast := wordBytes, fast;
      precodeTable, litlenTable, offsetTable := new u32[128], new u32[LITLEN_TABLE_SIZE], new u32[OFFSET_TABLE_SIZE];
      sortedSyms, lens := new nat[288], new nat[288 + 32 + MAX_OVERRUN];
      staticCodesLoaded, litlenTableBits := false, 0;
    }

    /** Builds the tables of both codes, the offset code first: the other table takes the place of the lengths and
        of the table of the precode. */
    method BuildTables(nl: nat, no: nat, ghost ll: seq<nat>, ghost ol: seq<nat>) returns (ok: bool)
      requires Roomy() && Separate() && 0 < nl <= 288 && 0 < no <= 32
      requires ll == lens[..nl] && ol == lens[nl..nl + no] && AtMost(ll, MAX_LEN) && AtMost(ol, MAX_LEN)
      modifies this`litlenTableBits, precodeTable, litlenTable, offsetTable, sortedSyms, lens
      ensures ok <==> Accepted(ll, MAX_LEN) && Accepted(ol, MAX_LEN)
      ensures ok ==> TablesFor(ll, ol)
    {
      hide Accepted, Decoder, Room, Filled, MakeEntry, NoCodewords, OneCodeword, MainBits;
      ResultsHold();
      assert lens[0..0 + nl] == ll;
      var tb;
      ok, tb := BuildDecodeTable.BuildDecodeTable(offsetTable, lens, nl, no, OffsetResults(), OFFSET_TABLE_BITS,
                                                  MAX_LEN, sortedSyms, false, false);
      MainBitsFixed(ol);
      if ok {
        ok := BuildLitlenTable(nl, ll, ol);
      }
    }

    method BuildLitlenTable(nl: nat, ghost ll: seq<nat>, ghost ol: seq<nat>) returns (ok: bool)
      requires Roomy() && Separate() && 0 < nl <= 288 && ll == lens[..nl] && AtMost(ll, MAX_LEN)
      requires Decoder(offsetTable[..], ol, OffsetResults(), OFFSET_TABLE_BITS)
      modifies this`litlenTableBits, precodeTable, litlenTable, sortedSyms, lens
      ensures ok <==> Accepted(ll, MAX_LEN)
      ensures ok ==> TablesFor(ll, ol)
    {
      hide Accepted, Decoder, Room, Filled, MakeEntry, NoCodewords, OneCodeword, MainBits, TablesRoomy, AtMost,
        LitlenResults, Results;
      ghost var t := offsetTable[..];
      ResultsHold();
      TablesHave(litlenTable.Length, offsetTable.Length, ll);
      modify precodeTable;
      assert lens[0..0 + nl] == ll;
      var tb;
      ok, tb := BuildDecodeTable.BuildDecodeTable(litlenTable, lens, 0, nl, LitlenResults(), LITLEN_TABLE_BITS, MAX_LEN,
                                                  sortedSyms, true, true);
      assert offsetTable[..] == t;
      litlenTableBits := tb;
    }

    /** Decodes the items of a block with the tables of its codes. */
    method DecodeItems(r: BitReader, out: array<u8>, outNext: nat, outEnd: nat, ghost ll: seq<nat>, ghost ol: seq<nat>)
      returns (status: Status, outNext': nat)
      requires r.Valid() && TablesFor(ll, ol) && Accepted(ll, MAX_LEN) && Accepted(ol, MAX_LEN) && |ll| > 0 && |ol| > 0
      requires outNext <= outEnd <= out.Length && out as object != litlenTable && out as object != offsetTable
      modifies r, out
      ensures status != Going && outNext <= outNext' <= outEnd
      ensures forall i :: outEnd <= i < out.Length ==> out[i] == old(out[i])
      ensures status == Done ==>
        && r.Valid()
        && Huffman(r.data, old(r.Position()), old(out[..outNext]), ll, ol, r.Position(), out[..outNext'])
      ensures status != Done ==>
        Undecodable(status, ll, ol, old(r.Rest()), 8 * |r.data| - old(r.Position()), old(out[..outNext]), outEnd)
    {
      hide Accepted, Decoder, Huffman, Undecodable, BlockMeans, Reachable, Expand;
      ghost var items, n;
      ghost var pos := r.Position();
      status, outNext', items, n :=
        DecodeBlock.DecodeBlock(r, litlenTable, litlenTableBits, offsetTable, out, outNext, outEnd, ll, ol, MAX_LEN);
      if status == Done {
        HuffmanDone(r.data, pos, old(out[..outNext]), ll, ol, items, n);
      }
    }

    /** A dynamic block, behind the three bits of its type. */
    method DynamicBlock(r: BitReader, out: array<u8>, outNext: nat, outEnd: nat, ghost pos: nat)
      returns (status: Status, outNext': nat)
      requires Valid() && r.Valid() && r.Left() >= 17 && r.Position() == pos + 3 && Type(r.data, pos) == 2
      requires outNext <= outEnd <= out.Length && Apart(out)
      modifies this, r, out, precodeTable, litlenTable, offsetTable, sortedSyms, lens
      ensures Valid() && status != Going && outNext <= outNext' <= outEnd
      ensures forall i :: outEnd <= i < out.Length ==> out[i] == old(out[i])
      ensures status == Done ==>
        && r.Valid() && r.Position() >= 0
        && BlockStep(r.data, pos, old(out[..outNext]), r.Position(), out[..outNext'])
      ensures status != Done ==>
        (status == BadData || status == NoSpace) && NoStep(status, r.data, pos, old(out[..outNext]), outEnd)
    {
      hide Accepted, Huffman, HeaderMeans, NoHeader, Undecodable, BlockStep, NoStep, Type, Decoder, TablesRoomy;
      ghost var before := out[..outNext];
      staticCodesLoaded := false;
      outNext' := outNext;
      var ok, nl, no;
      ghost var n;
      modify litlenTable;
      ok, nl, no, n := ReadHeader.ReadHeader(r, precodeTable, sortedSyms, lens);
      if !ok {
        HeaderRefused(r.data, pos, before, outEnd);
        return BadData, outNext';
      }
      ghost var all := lens[..nl + no];
      ghost var ll, ol := all[..nl], all[nl..];
      HeaderLens(Shr(Value(r.data), pos + 3), n, nl, no, all);
      assert lens[..nl] == ll && lens[nl..nl + no] == ol;
      ok := BuildTables(nl, no, ll, ol);
      assert out[..outNext] == before;
      if !ok {
        DynamicRefused(BadData, r.data, pos, before, outEnd, n, nl, no, all);
        return BadData, outNext';
      }
      status, outNext' := DecodeItems(r, out, outNext, outEnd, ll, ol);
      if status == Done {
        DynamicDone(r.data, pos, before, r.Position(), out[..outNext'], n, nl, no, all);
      } else {
        DynamicRefused(status, r.data, pos, before, outEnd, n, nl, no, all);
      }
    }

    ghost predicate Apart(out: array<u8>) {
      && out as object != precodeTable && out as object != litlenTable && out as object != offsetTable
      && out as object != sortedSyms && out as object != lens
    }

    /** A static block, behind the three bits of its type; its tables are built only if they are not
        there from an earlier static block. */
    method StaticBlock(r: BitReader, out: array<u8>, outNext: nat, outEnd: nat, ghost pos: nat)
      returns (status: Status, outNext': nat)
      requires Valid() && r.Valid() && r.Position() == pos + 3 && Type(r.data, pos) == 1
      requires outNext <= outEnd <= out.Length && Apart(out)
      modifies this, r, out, precodeTable, litlenTable, offsetTable, sortedSyms, lens
      ensures Valid() && status != Going && outNext <= outNext' <= outEnd
      ensures forall i :: outEnd <= i < out.Length ==> out[i] == old(out[i])
      ensures status == Done ==>
        && r.Valid() && r.Position() >= 0
        && BlockStep(r.data, pos, old(out[..outNext]), r.Position(), out[..outNext'])
      ensures status != Done ==>
        (status == BadData || status == NoSpace) && NoStep(status, r.data, pos, old(out[..outNext]), outEnd)
    {
      hide Accepted, Huffman, Undecodable, NoStep, Type, Decoder, TablesRoomy, Dynamic, Stored, Repeat;
      ghost var before := out[..outNext];
      StaticAccepts();
      if !staticCodesLoaded {
        staticCodesLoaded := true;
        modify litlenTable;
        FillStaticLens();
        StaticSmall();
        var ok := BuildTables(288, 32, StaticLitlen(), StaticOffset());
      }
      assert out[..outNext] == before;
      status, outNext' := DecodeItems(r, out, outNext, outEnd, StaticLitlen(), StaticOffset());
      if status != Done {
        StaticRefused(status, r.data, pos, before, outEnd);
      }
    }

    method FillStaticLens()
      requires Roomy()
      modifies lens
      ensures lens[..288] == StaticLitlen() && lens[288..320] == StaticOffset()
    {
      hide StaticLitlen, StaticOffset, TablesRoomy;
      forall i | 0 <= i < 320 {
        lens[i] := if i < 144 then 8 else if i < 256 then 9 else if i < 280 then 7 else if i < 288 then 8 else 5;
      }
      StaticLengths();
    }

    /** A stored block, behind the three bits of its type. */
    method StoredBlock(r: BitReader, out: array<u8>, outNext: nat, outEnd: nat, ghost pos: nat)
      returns (status: Status, outNext': nat)
      requires r.Valid() && r.Position() == pos + 3 && Type(r.data, pos) == 0
      requires outNext <= outEnd <= out.Length
      modifies r, out
      ensures status != Going && outNext <= outNext' <= outEnd
      ensures forall i :: outEnd <= i < out.Length ==> out[i] == old(out[i])
      ensures status == Done ==>
        && r.Valid() && r.Position() >= 0
        && BlockStep(r.data, pos, old(out[..outNext]), r.Position(), out[..outNext'])
      ensures status != Done ==>
        (status == BadData || status == NoSpace) && NoStep(status, r.data, pos, old(out[..outNext]), outEnd)
    {
      hide Huffman, Type, Dynamic, Static, Low, Shr, Value, BlockStep, NoStep, Le16;
      ghost var before := out[..outNext];
      status, outNext' := BadData, outNext;
      var ok := r.Align();
      if !ok || |r.data| - r.inNext < 4 {
        StoredRefused(BadData, r.data, pos, before, outEnd);
        return;
      }
      assert r.inNext == (pos + 3 + 7) / 8;
      var len, nlen := Le16(r.data, r.inNext), Le16(r.data, r.inNext + 2);
      if len != 0xFFFF - nlen {
        StoredRefused(BadData, r.data, pos, before, outEnd);
        return;
      }
      if len > outEnd - outNext {
        StoredRefused(NoSpace, r.data, pos, before, outEnd);
        return NoSpace, outNext';
      }
      if len > |r.data| - (r.inNext + 4) {
        StoredRefused(BadData, r.data, pos, before, outEnd);
        return;
      }
      StoredDone(r.data, pos, before, len);
      forall i | outNext <= i < outNext + len {
        out[i] := r.data[r.inNext + 4 + (i - outNext)];
      }
      outNext' := outNext + len;
      assert out[..outNext'] == before + r.data[r.inNext + 4..r.inNext + 4 + len];
      r.Skip(4 + len);
      status := Done;
    }

    /** One block; `isFinal` says whether it is the last one. */
    method OneBlock(r: BitReader, out: array<u8>, outNext: nat, outEnd: nat)
      returns (status: Status, isFinal: bool, outNext': nat)
      requires Valid() && r.Valid() && outNext <= outEnd <= out.Length && Apart(out)
      modifies this, r, out, precodeTable, litlenTable, offsetTable, sortedSyms, lens
      ensures Valid() && status != Going && outNext <= outNext' <= outEnd
      ensures forall i :: outEnd <= i < out.Length ==> out[i] == old(out[i])
      ensures status == Done ==>
        && r.Valid() && r.Position() >= 0
        && BlockStep(r.data, old(r.Position()), old(out[..outNext]), r.Position(), out[..outNext'])
        && (isFinal <==> IsFinal(r.data, old(r.Position())))
      ensures status != Done ==> status == BadData || status == NoSpace
      ensures status != Done ==> NoStep(status, r.data, old(r.Position()), old(out[..outNext]), outEnd)
    {
      hide BlockStep, NoStep, TablesRoomy, Decoder, Low, Shr, Value, StaticLitlen, StaticOffset;
      ghost var pos := r.Position();
      outNext', isFinal := outNext, false;
      var ok := r.Refill();
      if !ok {
        PastTheInput(r.data, pos, out[..outNext], outEnd);
        return BadData, isFinal, outNext';
      }
      var bits := r.Peek(3);
      TypeBits(r.data, pos, bits);
      isFinal := Low(bits, 1) == 1;
      var blockType := Low(Shr(bits, 1), 2);
      r.Consume(3);
      if blockType == 2 {
        status, outNext' := DynamicBlock(r, out, outNext, outEnd, pos);
      } else if blockType == 0 {
        status, outNext' := StoredBlock(r, out, outNext, outEnd, pos);
      } else if blockType != 1 {
        NoSuchType(r.data, pos, out[..outNext], outEnd);
        return BadData, isFinal, outNext';
      } else {
        status, outNext' := StaticBlock(r, out, outNext, outEnd, pos);
      }
    }

    /** Decompresses a stream.  `sized` says whether the caller asks for the number of bytes written;
        otherwise the output must be filled. */
    method Decompress(data: seq<u8>, out: array<u8>, outAvail: nat, sized: bool)
      returns (result: Result, inBytes: nat, outBytes: nat)
      requires Valid() && outAvail <= out.Length && Apart(out)
      modifies this, out, precodeTable, litlenTable, offsetTable, sortedSyms, lens
      ensures Valid() && outBytes <= outAvail && forall i :: outAvail <= i < out.Length ==> out[i] == old(out[i])
      ensures result == Success || result == ShortOutput ==>
        exists end: nat :: Inflates(data, 0, [], end, out[..outBytes])
          && 8 * inBytes - 8 < end <= 8 * inBytes <= 8 * |data|
      ensures result == Success ==> sized || outBytes == outAvail
      ensures result == ShortOutput ==> !sized && outBytes != outAvail
      ensures result == BadDataFound ==> NoStream(BadData, data, outAvail)
      ensures result == InsufficientSpace ==> NoStream(NoSpace, data, outAvail)
    {
      hide BlockStep, NoStep, TablesRoomy, Decoder, Inflates, NoStream, IsFinal, ReadTo;
      var r := new BitReader(data, wordBytes, fast);
      var status, isFinal, outNext := Done, false, 0;
      ghost var k: nat := 0;
      inBytes, outBytes := 0, 0;
      assert out[..0] == [];
      NothingReadYet(data);
      while !isFinal
        invariant Valid() && fresh(r) && r.data == data && outNext <= outAvail
        invariant forall i :: outAvail <= i < out.Length ==> out[i] == old(out[i])
        invariant r.Valid()
        invariant !isFinal ==> Continues(data, r.Position(), out[..outNext])
        invariant !isFinal ==> r.Position() >= 0 && ReadTo(data, r.Position(), out[..outNext], k)
        invariant isFinal ==> Inflates(data, 0, [], r.Position(), out[..outNext])
        decreases 8 * (|data| + r.wordBytes) - r.Position()
      {
        ghost var pos, before := r.Position(), out[..outNext];
        status, isFinal, outNext := OneBlock(r, out, outNext, outAvail);
        if status != Done {
          Stuck(status, data, pos, before, outAvail, k);
          result := if status == NoSpace then InsufficientSpace else BadDataFound;
          return;
        }
        Stepped(data, pos, before, r.Position(), out[..outNext]);
        if !isFinal {
          ReadOn(data, pos, before, k, r.Position(), out[..outNext]);
        }
        StepGrows(data, pos, before, r.Position(), out[..outNext]);
        k := k + 1;
      }
      ghost var end: nat := r.Position();
      var ok := r.Align();
      if !ok {
        TooFar(data, end, out[..outNext], outAvail);
        result := BadDataFound;
        return;
      }
      inBytes, outBytes := r.inNext, outNext;
      assert Inflates(data, 0, [], end, out[..outBytes]);
      result := if !sized && outNext != outAvail then ShortOutput else Success;
    }
  }

  /** The stream has been read up to here: whatever it means from here on it means as a whole. */
  ghost predicate Continues(data: seq<u8>, pos: nat, before: seq<u8>) {
    forall end: nat, all: seq<u8> :: Inflates(data, pos, before, end, all) <==> Inflates(data, 0, [], end, all)
  }

  /** The first k blocks, none of them the final one, end here. */
  ghost predicate ReadTo(data: seq<u8>, pos: nat, before: seq<u8>, k: nat)
    decreases k
  {
    if k == 0 then pos == 0 && before == []
    else exists pos0: nat, before0: seq<u8> ::
      ReadTo(data, pos0, before0, k - 1) && !IsFinal(data, pos0) && BlockStep(data, pos0, before0, pos, before)
  }

  /** Some blocks can be read, and the next one up to where it no longer fits the output. */
  ghost predicate StreamOverruns(data: seq<u8>, outAvail: nat) {
    exists pos: nat, before: seq<u8>, k: nat ::
      ReadTo(data, pos, before, k) && StepOverruns(data, pos, before, outAvail)
  }

  /** The data are no stream: for lack of space every reading of them is too large, and they can be read up to where
      they become so; otherwise no reading ends within the input. */
  ghost predicate NoStream(status: Status, data: seq<u8>, outAvail: nat) {
    && (forall end: nat, all: seq<u8> :: Inflates(data, 0, [], end, all) ==>
          Exceeds(status, end, 8 * |data|, |all|, outAvail))
    && (status == NoSpace ==> StreamOverruns(data, outAvail))
  }

  lemma Stepped(data: seq<u8>, pos: nat, before: seq<u8>, pos': nat, after: seq<u8>)
    requires Continues(data, pos, before) && BlockStep(data, pos, before, pos', after)
    ensures !IsFinal(data, pos) ==> Continues(data, pos', after)
    ensures IsFinal(data, pos) ==> Inflates(data, 0, [], pos', after)
  {
    hide BlockStep, Inflates, IsFinal;
    if IsFinal(data, pos) {
      InflatesFinal(data, pos, before, pos', after, pos', after);
    } else {
      forall end: nat, all: seq<u8> ensures Inflates(data, pos', after, end, all) <==> Inflates(data, 0, [], end, all) {
        InflatesOn(data, pos, before, pos', after, end, all);
      }
    }
  }

  lemma NothingReadYet(data: seq<u8>)
    ensures ReadTo(data, 0, [], 0)
  {
  }

  lemma ReadOn(data: seq<u8>, pos: nat, before: seq<u8>, k: nat, pos': nat, after: seq<u8>)
    requires ReadTo(data, pos, before, k) && !IsFinal(data, pos) && BlockStep(data, pos, before, pos', after)
    ensures ReadTo(data, pos', after, k + 1)
  {
    hide BlockStep, IsFinal;
  }

  lemma Stuck(status: Status, data: seq<u8>, pos: nat, before: seq<u8>, outAvail: nat, k: nat)
    requires Continues(data, pos, before) && NoStep(status, data, pos, before, outAvail) && ReadTo(data, pos, before, k)
    ensures NoStream(status, data, outAvail)
  {
    hide BlockStep, Inflates, StepOverruns, ReadTo;
    forall end: nat, all: seq<u8> | Inflates(data, 0, [], end, all)
      ensures Exceeds(status, end, 8 * |data|, |all|, outAvail)
    {
      assert Inflates(data, pos, before, end, all);
      var pos', after := InflatesStarts(data, pos, before, end, all);
    }
  }

  lemma TooFar(data: seq<u8>, end: nat, all: seq<u8>, outAvail: nat)
    requires Inflates(data, 0, [], end, all) && end > 8 * |data|
    ensures NoStream(BadData, data, outAvail)
  {
    hide Inflates;
    forall end': nat, all': seq<u8> | Inflates(data, 0, [], end', all') ensures end' > 8 * |data| {
      InflatesUnique(data, 0, [], end, all, end', all');
    }
  }

  lemma PastTheInput(data: seq<u8>, pos: nat, before: seq<u8>, outEnd: nat)
    requires pos > 8 * |data|
    ensures NoStep(BadData, data, pos, before, outEnd)
  {
    hide BlockStep;
    forall pos': nat, after: seq<u8> | BlockStep(data, pos, before, pos', after) ensures pos' > 8 * |data| {
      StepGrows(data, pos, before, pos', after);
    }
  }

  lemma NoSuchType(data: seq<u8>, pos: nat, before: seq<u8>, outEnd: nat)
    requires Type(data, pos) > 2
    ensures NoStep(BadData, data, pos, before, outEnd)
  {
  }

  lemma TypeBits(data: seq<u8>, pos: nat, bits: nat)
    requires bits == Low(Shr(Value(data), pos), 3)
    ensures Low(bits, 1) == 1 <==> IsFinal(data, pos)
    ensures Low(Shr(bits, 1), 2) == Type(data, pos) < 4
  {
    hide Low, Shr, Value;
    var x := Shr(Value(data), pos);
    LowOfLow(x, 1, 3);
    LowOfShr(x, 1, 2);
    LowOfShr(bits, 1, 2);
    LowOfLow(x, 3, 3);
    ShrShr(Value(data), pos, 1);
    assert Pow2(2) == 4;
  }


  lemma StaticLengths()
    ensures |StaticLitlen()| == 288 && |StaticOffset()| == 32
    ensures forall i :: 0 <= i < 288 ==>
      StaticLitlen()[i] == if i < 144 then 8 else if i < 256 then 9 else if i < 280 then 7 else 8
    ensures forall i :: 0 <= i < 32 ==> StaticOffset()[i] == 5
  {
  }

  lemma StaticSmall()
    ensures AtMost(StaticLitlen(), MAX_LEN) && AtMost(StaticOffset(), MAX_LEN)
  {
  }

  lemma MainBitsFixed(lens: seq<nat>)
    ensures MainBits(lens, MAX_LEN, OFFSET_TABLE_BITS, false) == OFFSET_TABLE_BITS
  {
  }
}
