/** One round of the decompressor's generic loop over the literals and matches of a block. */
module GenericItem {
  import opened Arith
  import opened Packed
  import opened Bits
  import opened Words
  import opened BitBuffer
  import opened BitReader
  import opened DecodeTable
  import opened BuildDecodeTable
  import opened Slots
  import opened Items
  import opened Parsing
  import opened TableLookup

  // ---- copying a match

  lemma {:induction false} CopyStep(out: seq<u8>, k: nat, offset: nat)
    requires 1 <= offset <= |out|
    ensures CopyMatch(out, k + 1, offset) ==
      CopyMatch(out, k, offset) + [CopyMatch(out, k, offset)[|out| + k - offset]]
    decreases k
  {
    if k > 0 {
      var one := out + [out[|out| - offset]];
      CopyStep(one, k - 1, offset);
    }
  }

  /** Copies at least two bytes, then on until the end of the match. */
  method CopyBytes(out: array<u8>, next: nat, length: nat, offset: nat)
    requires 3 <= length && 1 <= offset <= next && next + length <= out.Length
    modifies out
    ensures out[..next + length] == CopyMatch(old(out[..next]), length, offset)
    ensures forall i :: next + length <= i < out.Length ==> out[i] == old(out[i])
  {
    ghost var before := out[..next];
    var src, dst := next - offset, next;
    CopyByte(out, src, dst, before, 0, offset);
    CopyByte(out, src + 1, dst + 1, before, 1, offset);
    src, dst := src + 2, dst + 2;
    CopyByte(out, src, dst, before, 2, offset);
    src, dst := src + 1, dst + 1;
    while dst < next + length
      invariant next + 3 <= dst <= next + length && src == dst - offset
      invariant out[..dst] == CopyMatch(before, dst - next, offset)
      invariant forall i :: next + length <= i < out.Length ==> out[i] == old(out[i])
    {
      CopyByte(out, src, dst, before, dst - next, offset);
      src, dst := src + 1, dst + 1;
    }
  }

  method CopyByte(out: array<u8>, src: nat, dst: nat, ghost before: seq<u8>, ghost k: nat, ghost offset: nat)
    requires dst < out.Length && 1 <= offset <= |before| && dst == |before| + k && src == dst - offset
    requires out[..dst] == CopyMatch(before, k, offset)
    modifies out
    ensures out[..dst + 1] == CopyMatch(before, k + 1, offset)
    ensures forall i :: dst < i < out.Length ==> out[i] == old(out[i])
  {
    CopyStep(before, k, offset);
    ghost var was := out[..dst];
    assert was[src] == out[src];
    out[dst] := out[src];
    assert out[..dst + 1] == was + [was[src]];
  }

  // ---- one item

  datatype Status = Going | Done | BadData | NoSpace

  predicate Applicable(out: seq<u8>, it: Item) {
    it.Match? ==> 1 <= it.offset <= |out|
  }

  function Apply(out: seq<u8>, it: Item): seq<u8>
    requires Applicable(out, it)
  {
    match it
    case Literal(b) => out + [b]
    case Match(length, offset) => CopyMatch(out, length, offset)
  }

  function Size(it: Item): nat {
    match it
    case Literal(_) => 1
    case Match(length, _) => length
  }

  /** The bits x start with a literal or a length that needs more than `room` bytes. */
  ghost predicate TooLarge(ll: seq<nat>, x: nat, room: int) {
    || (exists b: nat, k: nat :: b < 256 && Means(ll, x, b, k) && room < 1)
    || (exists length: nat, k: nat :: LengthMeans(ll, x, length, k) && room < length)
  }

  /** What one round of the loop makes of the bits x, of which `avail` come from the input. */
  ghost predicate Round(ll: seq<nat>, ol: seq<nat>, x: nat, avail: int, before: seq<u8>, after: seq<u8>, outEnd: nat,
                        status: Status, it: Item, k: nat) {
    match status
    case Going => ItemMeans(ll, ol, x, it, k) && k > 0 && Applicable(before, it) && after == Apply(before, it)
    case Done => Means(ll, x, END_SYM, k) && after == before
    case NoSpace =>
      && TooLarge(ll, x, outEnd - |before|)
      && (forall i: nat :: !Means(ll, x, END_SYM, i))
      && forall it', k': nat :: ItemMeans(ll, ol, x, it', k') ==> |before| + Size(it') > outEnd
    case BadData =>
      && (forall i: nat :: Means(ll, x, END_SYM, i) ==> i > avail)
      && forall it', k': nat :: ItemMeans(ll, ol, x, it', k') ==> k' > avail || !Applicable(before, it')
  }

  lemma LengthOnly(ll: seq<nat>, ol: seq<nat>, max: nat, x: nat, length: nat, k: nat)
    requires Accepted(ll, max) && max >= 1 && LengthMeans(ll, x, length, k)
    ensures forall i: nat :: !Means(ll, x, END_SYM, i)
    ensures forall it, k': nat :: ItemMeans(ll, ol, x, it, k') ==>
      it.Match? && it.length == length && k' >= k && OffsetMeans(ol, Shr(x, k), it.offset, k' - k)
  {
    hide Means, Accepted, LengthMeans, OffsetMeans, Shr;
    var s, i := LengthSymbol(ll, x, length, k);
    forall j: nat | Means(ll, x, END_SYM, j) ensures false {
      MeaningUnique(ll, max, x, s, i, END_SYM, j);
    }
    forall it, k': nat | ItemMeans(ll, ol, x, it, k')
      ensures it.Match? && it.length == length && k' >= k && OffsetMeans(ol, Shr(x, k), it.offset, k' - k)
    {
      match it
      case Literal(b) =>
        MeaningUnique(ll, max, x, s, i, b, k');
      case Match(length', offset) =>
        var m: nat :| m <= k' && LengthMeans(ll, x, length', m) && OffsetMeans(ol, Shr(x, m), offset, k' - m);
        LengthUnique(ll, max, x, length, k, length', m);
    }
  }

  lemma LiteralOnly(ll: seq<nat>, ol: seq<nat>, max: nat, x: nat, b: u8, k: nat)
    requires Accepted(ll, max) && max >= 1 && Means(ll, x, b, k)
    ensures forall i: nat :: !Means(ll, x, END_SYM, i)
    ensures forall it, k': nat :: ItemMeans(ll, ol, x, it, k') ==> it.Literal?
  {
    hide Means, Accepted, LengthMeans, OffsetMeans, Shr;
    forall j: nat | Means(ll, x, END_SYM, j) ensures false {
      MeaningUnique(ll, max, x, b, k, END_SYM, j);
    }
    forall it, k': nat | ItemMeans(ll, ol, x, it, k') ensures it.Literal? {
      if it.Match? {
        LiteralOrLength(ll, ol, max, x, Literal(b), k, it, k');
      }
    }
  }

  /** The length of a length entry. */
  lemma LengthEntry(ll: seq<nat>, x: nat, s: nat, n: nat, m: nat, saved: nat, e: u32)
    requires Entry(ll, LitlenResults(), x, s, n, m, e) && s > END_SYM
    requires Low(saved, e % 256) == Low(Shr(x, n - m), e % 256)
    ensures LengthFrom(ll, x, e / 0x1_0000 + Shr(Low(saved, e % 256), e / 256 % 256), n - m + e % 256, s, n)
    ensures e / 0x1_0000 >= 3
  {
    hide Low, Shr, Pow2, IsExceptional, IsPointer, IsEnd, Means, Results, MakeEntry, LitlenResults;
    var base, extra := LENGTH_BASE[s - 257], LENGTH_EXTRA[s - 257];
    LengthResult(s);
    EntryParts(LitlenResults(), s, m, base, extra);
    ExtraAfterCode(x, n, m, extra, saved);
  }

  lemma LengthResult(s: nat)
    requires END_SYM < s < 288
    ensures |LitlenResults()| == 288 && LENGTH_BASE[s - 257] >= 3 && LENGTH_EXTRA[s - 257] <= 5
    ensures LitlenResults()[s] == LENGTH_BASE[s - 257] * 0x1_0000 + LENGTH_EXTRA[s - 257]
  {
  }

  /** The kind of an entry tells the kind of its symbol. */
  lemma EntryKind(ll: seq<nat>, x: nat, s: nat, n: nat, m: nat, e: u32)
    requires Entry(ll, LitlenResults(), x, s, n, m, e)
    ensures IsLiteral(e) <==> s < END_SYM
    ensures s < END_SYM ==> e / 0x1_0000 % 256 == s && e % 256 == m
    ensures s == END_SYM ==> IsEnd(e) && e % 256 == m
    ensures s > END_SYM ==> !IsEnd(e)
    ensures e % 256 >= 1
  {
    hide Means, Results, IsEnd, IsExceptional, IsPointer;
    if s < END_SYM {
      EntryParts(LitlenResults(), s, m, 0x8000 + s, 0);
    } else if s == END_SYM {
      EndParts(LitlenResults(), s, m);
    } else {
      EntryParts(LitlenResults(), s, m, LENGTH_BASE[s - 257], LENGTH_EXTRA[s - 257]);
    }
  }

  /** The second half of a match: its offset, and the copy. */
  method FinishMatch(r: BitReader, offT: array<u32>, out: array<u8>, outNext: nat, outEnd: nat, length: nat,
                     ghost ll: seq<nat>, ghost ol: seq<nat>, ghost max: nat, ghost x: nat, ghost k0: nat)
    returns (status: Status, outNext': nat, ghost it: Item, ghost k: nat)
    requires r.Valid() && r.Left() >= r.Consumable() - LENGTH_MAX_BITS && r.Position() >= k0
    requires Accepted(ll, max) && Accepted(ol, max) && max >= 1 && |ol| > 0
    requires Decoder(offT[..], ol, OffsetResults(), OFFSET_TABLE_BITS)
    requires outNext + length <= outEnd <= out.Length && length >= 3
    requires x == Shr(Value(r.data), r.Position() - k0) && LengthMeans(ll, x, length, k0)
    modifies r, out
    ensures outNext <= outNext' <= outEnd
    ensures Round(ll, ol, x, 8 * |r.data| - (old(r.Position()) - k0), old(out[..outNext]), out[..outNext'], outEnd,
                  status, it, k)
    ensures status == Going ==> r.Valid() && r.Position() == old(r.Position()) - k0 + k
    ensures status == Going || status == BadData
    ensures forall i :: outEnd <= i < out.Length ==> out[i] == old(out[i])
  {
    hide Low, Shr, Pow2, Means, Decoder, Accepted, LengthMeans, OffsetMeans, Value;
    ghost var p := r.Position();
    ghost var before := out[..outNext];
    LengthOnly(ll, ol, max, x, length, k0);
    ShrShr(Value(r.data), p - k0, k0);
    it, k, outNext' := Literal(0), 0, outNext;
    var ok := true;
    if r.Consumable() < LENGTH_MAX_BITS + OFFSET_MAX_BITS {
      ok := r.Refill();
    }
    if !ok {
      return BadData, outNext', it, k;
    }
    assert r.Position() == p && r.Rest() == Shr(x, k0);
    var offset;
    ghost var n;
    ok, offset, n := NextOffset(r, offT, ol, max);
    if !ok {
      return BadData, outNext', it, k;
    }
    OffsetPositive(ol, Shr(x, k0), offset, n);
    if offset > outNext {
      OffsetOnly(ol, max, Shr(x, k0), offset, n);
      return BadData, outNext', it, k;
    }
    CopyBytes(out, outNext, length, offset);
    outNext' := outNext + length;
    it := Match(length, offset);
    k := k0 + n;
    LengthPositive(ll, x, length, k0);
    return Going, outNext', it, k;
  }

  lemma OffsetOnly(ol: seq<nat>, max: nat, x: nat, offset: nat, n: nat)
    requires Accepted(ol, max) && max >= 1 && OffsetMeans(ol, x, offset, n)
    ensures forall o: nat, k: nat :: OffsetMeans(ol, x, o, k) ==> o == offset
  {
    hide Accepted, OffsetMeans;
    forall o: nat, k: nat | OffsetMeans(ol, x, o, k) ensures o == offset {
      OffsetUnique(ol, max, x, offset, n, o, k);
    }
  }

  lemma OffsetPositive(ol: seq<nat>, x: nat, offset: nat, n: nat)
    requires OffsetMeans(ol, x, offset, n)
    ensures offset >= 1
  {
    hide Low, Shr, Means;
  }

  lemma LengthPositive(ll: seq<nat>, x: nat, length: nat, n: nat)
    requires LengthMeans(ll, x, length, n)
    ensures n > 0
  {
    hide Low, Shr, Word;
  }

  /** One round of the loop. */
  method DecodeItem(r: BitReader, litT: array<u32>, litTb: nat, offT: array<u32>, out: array<u8>, outNext: nat,
                    outEnd: nat, ghost ll: seq<nat>, ghost ol: seq<nat>, ghost max: nat)
    returns (status: Status, outNext': nat, ghost it: Item, ghost k: nat)
    requires r.Valid() && Accepted(ll, max) && Accepted(ol, max) && max >= 1 && |ll| > 0 && |ol| > 0
    requires Decoder(litT[..], ll, LitlenResults(), litTb) && Decoder(offT[..], ol, OffsetResults(), OFFSET_TABLE_BITS)
    requires outNext <= outEnd <= out.Length && out as object != litT && out as object != offT
    modifies r, out
    ensures outNext <= outNext' <= outEnd
    ensures Round(ll, ol, old(r.Rest()), 8 * |r.data| - old(r.Position()), old(out[..outNext]), out[..outNext'], outEnd,
                  status, it, k)
    ensures status == Going || status == Done ==> r.Valid() && r.Position() == old(r.Position()) + k
    ensures forall i :: outEnd <= i < out.Length ==> out[i] == old(out[i])
  {
    hide Low, Shr, Pow2, Means, Decoder, Accepted, LengthMeans, OffsetMeans, Value, IsEnd, IsLiteral, Entry, LengthFrom;
    ghost var x, p := r.Rest(), r.Position();
    it, k, outNext' := Literal(0), 0, outNext;
    var ok := r.Refill();
    if !ok {
      return BadData, outNext', it, k;
    }
    var entry, saved;
    ghost var s, n, m;
    entry, saved, s, n, m := NextLitlen(r, litT, litTb, ll, max);
    EntryMeans(ll, LitlenResults(), x, s, n, m, entry);
    EntryKind(ll, x, s, n, m, entry);
    k := n - m + entry % 256;
    if IsLiteral(entry) {
      if outNext == outEnd {
        LiteralOnly(ll, ol, max, x, s, k);
        return NoSpace, outNext', it, k;
      }
      ghost var before := out[..outNext];
      it := Literal(s);
      out[outNext] := entry / 0x1_0000 % 256;
      outNext' := outNext + 1;
      assert out[..outNext'] == before + [s];
      return Going, outNext', it, k;
    }
    if IsEnd(entry) {
      return Done, outNext', it, k;
    }
    var length := entry / 0x1_0000 + Shr(Low(saved, entry % 256), entry / 256 % 256);
    LengthEntry(ll, x, s, n, m, saved, entry);
    LengthIs(ll, x, length, k, s, n);
    if length > outEnd - outNext {
      LengthOnly(ll, ol, max, x, length, k);
      return NoSpace, outNext', it, k;
    }
    status, outNext', it, k := FinishMatch(r, offT, out, outNext, outEnd, length, ll, ol, max, x, k);
  }

  lemma EntryMeans(lens: seq<nat>, dr: seq<u32>, x: nat, s: nat, n: nat, m: nat, e: u32)
    requires Entry(lens, dr, x, s, n, m, e)
    ensures Means(lens, x, s, n) && 1 <= m <= n
  {
  }

  lemma LengthIs(ll: seq<nat>, x: nat, length: nat, n: nat, s: nat, k: nat)
    requires LengthFrom(ll, x, length, n, s, k)
    ensures LengthMeans(ll, x, length, n)
  {
  }

  // ---- the whole block

  lemma {:induction false} ExpandAppend(out: seq<u8>, items: seq<Item>, it: Item)
    requires Reachable(out, items)
    ensures Reachable(out, items + [it]) <==> Applicable(Expand(out, items), it)
    ensures Applicable(Expand(out, items), it) ==> Expand(out, items + [it]) == Apply(Expand(out, items), it)
    decreases |items|
  {
    var all := items + [it];
    if items == [] {
      assert all[1..] == [] && all[0] == it;
    } else {
      assert all[1..] == items[1..] + [it] && all[0] == items[0];
      match items[0]
      case Literal(b) => ExpandAppend(out + [b], items[1..], it);
      case Match(length, offset) => ExpandAppend(CopyMatch(out, length, offset), items[1..], it);
    }
  }

  /** What is left of reachable items after the first i. */
  lemma {:induction false} ExpandPrefix(out: seq<u8>, items: seq<Item>, i: nat)
    requires Reachable(out, items) && i <= |items|
    ensures Reachable(out, items[..i]) && |Expand(out, items[..i])| <= |Expand(out, items)|
    ensures i < |items| ==>
      && Applicable(Expand(out, items[..i]), items[i])
      && |Expand(out, items[..i])| + Size(items[i]) <= |Expand(out, items)|
    decreases |items|
  {
    if i > 0 {
      assert items[..i][1..] == items[1..][..i - 1];
      match items[0]
      case Literal(b) => ExpandPrefix(out + [b], items[1..], i - 1);
      case Match(length, offset) => ExpandPrefix(CopyMatch(out, length, offset), items[1..], i - 1);
    }
  }

  /** What a refusal says: the output is too small for `size` bytes, or the input has less than n bits. */
  predicate Exceeds(status: Status, n: int, avail: int, size: nat, outEnd: nat) {
    if status == NoSpace then size > outEnd else n > avail
  }

  /** Items in n bits that the refusal does not speak against. */
  ghost predicate Parse(status: Status, ll: seq<nat>, ol: seq<nat>, x: nat, avail: int, before: seq<u8>, outEnd: nat,
                        items: seq<Item>, n: nat) {
    BlockMeans(ll, ol, x, items, n) && Reachable(before, items)
    && !Exceeds(status, n, avail, |Expand(before, items)|, outEnd)
  }

  /** Items can be read that fit, and behind them a literal or a length that does not. */
  ghost predicate Overruns(ll: seq<nat>, ol: seq<nat>, x: nat, before: seq<u8>, outEnd: nat) {
    exists items: seq<Item>, n: nat, out: seq<u8> ::
      Progress(ll, ol, x, before, items, n, out) && TooLarge(ll, Shr(x, n), outEnd - |out|)
  }

  /** The block does not decode: for lack of space every reading of it is too large, and there is one that becomes so;
      otherwise every reading goes beyond the input. */
  ghost predicate Undecodable(status: Status, ll: seq<nat>, ol: seq<nat>, x: nat, avail: int, before: seq<u8>,
                              outEnd: nat) {
    && (forall items: seq<Item>, n: nat :: !Parse(status, ll, ol, x, avail, before, outEnd, items, n))
    && (status == NoSpace ==> Overruns(ll, ol, x, before, outEnd))
  }

  /** The loop has read the items in n bits and written their bytes. */
  ghost predicate Progress(ll: seq<nat>, ol: seq<nat>, x: nat, before: seq<u8>, items: seq<Item>, n: nat,
                           out: seq<u8>) {
    ItemsMean(ll, ol, x, items, n) && Reachable(before, items) && Expand(before, items) == out
  }

  lemma ProgressStep(ll: seq<nat>, ol: seq<nat>, x: nat, before: seq<u8>, items: seq<Item>, n: nat, out: seq<u8>,
                     it: Item, k: nat)
    requires Progress(ll, ol, x, before, items, n, out) && ItemMeans(ll, ol, Shr(x, n), it, k) && Applicable(out, it)
    ensures Progress(ll, ol, x, before, items + [it], n + k, Apply(out, it))
  {
    hide ItemMeans, Shr, Applicable, Apply, Expand, Reachable;
    ExpandAppend(before, items, it);
    assert (items + [it])[..|items|] == items;
  }

  /** Items that have been read begin every parse of the block. */
  lemma {:induction false} ReadBeginParse(ll: seq<nat>, ol: seq<nat>, max: nat, x: nat, items: seq<Item>, n: nat,
                                          want: seq<Item>, wn: nat)
    requires Accepted(ll, max) && Accepted(ol, max) && max >= 1
    requires ItemsMean(ll, ol, x, items, n) && BlockMeans(ll, ol, x, want, wn)
    ensures |items| <= |want| && want[..|items|] == items
    decreases |items|
  {
    hide ItemMeans, Accepted, Shr, BlockMeans, Means;
    if items != [] {
      var last := |items| - 1;
      var p: nat :| p <= n && ItemsMean(ll, ol, x, items[..last], p)
        && ItemMeans(ll, ol, Shr(x, p), items[last], n - p);
      ReadBeginParse(ll, ol, max, x, items[..last], p, want, wn);
      if last < |want| {
        var k := NextItem(ll, ol, max, x, want, wn, last, p);
        ItemUnique(ll, ol, max, Shr(x, p), items[last], n - p, want[last], k);
        assert items == items[..last] + [items[last]];
      } else {
        assert want[..last] == want;
        NextEnd(ll, ol, max, x, want, wn, p);
        ItemOrEnd(ll, ol, max, Shr(x, p), items[last], n - p, wn - p);
      }
    }
  }

  /** When a round fails, the block does not decode. */
  lemma Refuted(ll: seq<nat>, ol: seq<nat>, max: nat, x: nat, avail: int, before: seq<u8>, items: seq<Item>, n: nat,
                out: seq<u8>, after: seq<u8>, outEnd: nat, status: Status, it: Item, k: nat)
    requires Accepted(ll, max) && Accepted(ol, max) && max >= 1 && Progress(ll, ol, x, before, items, n, out)
    requires Round(ll, ol, Shr(x, n), avail - n, out, after, outEnd, status, it, k)
    requires (status == NoSpace || status == BadData)
    ensures Undecodable(status, ll, ol, x, avail, before, outEnd)
  {
    hide Accepted, Parse, Progress, Round, Shr, TooLarge;
    forall want: seq<Item>, wn: nat | Parse(status, ll, ol, x, avail, before, outEnd, want, wn) ensures false {
      RefutedOne(ll, ol, max, x, avail, before, items, n, out, after, outEnd, status, it, k, want, wn);
    }
    TooLargeHere(ll, ol, Shr(x, n), avail - n, out, after, outEnd, status, it, k);
  }

  lemma TooLargeHere(ll: seq<nat>, ol: seq<nat>, x: nat, avail: int, before: seq<u8>, after: seq<u8>, outEnd: nat,
                     status: Status, it: Item, k: nat)
    requires Round(ll, ol, x, avail, before, after, outEnd, status, it, k)
    ensures status == NoSpace ==> TooLarge(ll, x, outEnd - |before|)
  {
  }

  lemma RefutedOne(ll: seq<nat>, ol: seq<nat>, max: nat, x: nat, avail: int, before: seq<u8>, items: seq<Item>, n: nat,
                   out: seq<u8>, after: seq<u8>, outEnd: nat, status: Status, it: Item, k: nat, want: seq<Item>,
                   wn: nat)
    requires Accepted(ll, max) && Accepted(ol, max) && max >= 1 && Progress(ll, ol, x, before, items, n, out)
    requires Round(ll, ol, Shr(x, n), avail - n, out, after, outEnd, status, it, k)
    requires (status == NoSpace || status == BadData)
    ensures !Parse(status, ll, ol, x, avail, before, outEnd, want, wn)
  {
    hide ItemMeans, Accepted, Shr, BlockMeans, Means, ItemsMean, Reachable, Expand, Applicable, TooLarge;
    if Parse(status, ll, ol, x, avail, before, outEnd, want, wn) {
      ReadBeginParse(ll, ol, max, x, items, n, want, wn);
      var i := |items|;
      ExpandPrefix(before, want, i);
      if i < |want| {
        var k' := NextItem(ll, ol, max, x, want, wn, i, n);
      } else {
        assert want[..i] == want;
        NextEnd(ll, ol, max, x, want, wn, n);
      }
    }
  }

  lemma Finished(ll: seq<nat>, ol: seq<nat>, x: nat, before: seq<u8>, items: seq<Item>, n: nat, out: seq<u8>, k: nat)
    requires Progress(ll, ol, x, before, items, n, out) && Means(ll, Shr(x, n), END_SYM, k)
    ensures BlockMeans(ll, ol, x, items, n + k) && Reachable(before, items) && Expand(before, items) == out
  {
    hide Shr, Means, ItemsMean;
  }

  lemma NothingRead(ll: seq<nat>, ol: seq<nat>, x: nat, before: seq<u8>)
    ensures Progress(ll, ol, x, before, [], 0, before)
  {
  }

  lemma RoundParts(ll: seq<nat>, ol: seq<nat>, x: nat, avail: int, before: seq<u8>, after: seq<u8>, outEnd: nat,
                   status: Status, it: Item, k: nat)
    requires Round(ll, ol, x, avail, before, after, outEnd, status, it, k)
    ensures status == Going ==>
      ItemMeans(ll, ol, x, it, k) && k > 0 && Applicable(before, it) && after == Apply(before, it)
    ensures status == Done ==> Means(ll, x, END_SYM, k) && after == before
  {
  }
}
