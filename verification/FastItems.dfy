/** Decoding in the decompressor's fast loop: the next entry, a literal, and a match whose copy goes word by word
    while the entry behind it is looked up. */
module FastItems {
  import opened Arith
  import opened Packed
  import opened Bits
  import opened Words
  import opened BitBuffer
  import opened BitReader
  import opened DecodeTable
  import opened BuildDecodeTable
  import opened Slots
  import opened Items
  import opened TableLookup
  import opened GenericItem
  import opened MatchCopy
  import opened FastBits

  /** Far enough from the end of the input, with bits beyond the consumable ones if whole words are loaded. */
  ghost predicate Running(r: BitReader)
    reads r
  {
    r.Valid() && r.overread == 0 && (r.fast ==> r.filled > r.Left())
  }

  /** Finds the entry of an offset, consuming what it does not count.  Behind it there are bits for the next lookup. */
  method FetchOffset(r: BitReader, T: array<u32>, ghost ol: seq<nat>, ghost max: nat)
    returns (entry: u32, ghost s: nat, ghost n: nat, ghost m: nat)
    requires Running(r) && r.filled >= OFFSET_TABLE_BITS && Ample(r, r.Position() + OFFSET_MAX_BITS)
    requires Accepted(ol, max) && max >= 1 && |ol| > 0 && Decoder(T[..], ol, OffsetResults(), OFFSET_TABLE_BITS)
    modifies r
    ensures Running(r) && Entry(ol, OffsetResults(), old(r.Rest()), s, n, m, entry)
    ensures r.Position() == old(r.Position()) + (n - m) && n - m + entry % 256 <= OFFSET_MAX_BITS
    ensures entry % 256 <= r.Left()
    ensures CanConsumeAndPreload(r, OFFSET_MAX_FAST_BITS, LITLEN_TABLE_BITS) ==>
      r.filled >= LITLEN_TABLE_BITS + entry % 256
  {
    hide Low, Shr, Pow2, IsPointer, IsExceptional, IsEnd, IsLiteral, Means, Results, MakeEntry, Decoder, Accepted,
      Value, Preloaded, OffsetResults;
    ghost var x, tb := r.Rest(), OFFSET_TABLE_BITS;
    Enough(T[..], ol, OffsetResults(), tb);
    entry := Preload(r, T, OFFSET_TABLE_BITS);
    s, n := Looked(ol, max, OffsetResults(), T[..], tb, x, entry);
    m := if n > tb then n - tb else n;
    OffsetEntryBits(s, m);
    if CanConsumeAndPreload(r, OFFSET_MAX_BITS, LITLEN_TABLE_BITS) {
      if IsExceptional(entry) {
        if r.Left() < OFFSET_MAX_BITS + LITLEN_TABLE_BITS - PreloadSlack(r) {
          RefillFast(r);
        }
        r.Consume(OFFSET_TABLE_BITS);
        entry := LoadSub(r, T, OFFSET_TABLE_BITS, entry, ol, OffsetResults(), x, s, n);
      } else if r.Left() < OFFSET_MAX_FAST_BITS + LITLEN_TABLE_BITS - PreloadSlack(r) {
        RefillFast(r);
      }
    } else {
      RefillFast(r);
      if IsExceptional(entry) {
        r.Consume(OFFSET_TABLE_BITS);
        entry := LoadSub(r, T, OFFSET_TABLE_BITS, entry, ol, OffsetResults(), x, s, n);
        RefillFast(r);
      }
    }
  }

  /** Decodes a match offset. */
  method FastOffset(r: BitReader, T: array<u32>, ghost ol: seq<nat>, ghost max: nat)
    returns (offset: nat, ghost n: nat)
    requires Running(r) && r.filled >= OFFSET_TABLE_BITS && Ample(r, r.Position() + OFFSET_MAX_BITS)
    requires Accepted(ol, max) && max >= 1 && |ol| > 0 && Decoder(T[..], ol, OffsetResults(), OFFSET_TABLE_BITS)
    modifies r
    ensures Running(r) && r.Position() == old(r.Position()) + n && n <= OFFSET_MAX_BITS
    ensures OffsetMeans(ol, old(r.Rest()), offset, n)
    ensures CanConsumeAndPreload(r, OFFSET_MAX_FAST_BITS, LITLEN_TABLE_BITS) ==> r.filled >= LITLEN_TABLE_BITS
  {
    hide Low, Shr, Pow2, Means, Results, MakeEntry, Decoder, Accepted, OffsetFrom, Value;
    ghost var x, p := r.Rest(), r.Position();
    var entry;
    ghost var s, k, m;
    entry, s, k, m := FetchOffset(r, T, ol, max);
    ShrShr(Value(r.data), p, k - m);
    LowOfLow(r.Rest(), entry % 256, r.filled);
    var saved := r.bitbuf;
    r.Consume(entry);
    OffsetEntry(x, s, k, m, saved, ol, entry);
    offset := entry / 0x1_0000 + Shr(Low(saved, entry % 256), entry / 256 % 256);
    n := k - m + entry % 256;
  }

  // ---- a match

  lemma LengthAtMost(ll: seq<nat>, x: nat, length: nat, n: nat)
    requires LengthMeans(ll, x, length, n)
    ensures MIN_MATCH <= length <= MAX_MATCH
  {
    hide Means, Shr;
    var s: nat, k: nat :| LengthFrom(ll, x, length, n, s, k);
    ExtraRange(s - FIRST_LENGTH_SYM, Low(Shr(x, k), LENGTH_EXTRA[s - FIRST_LENGTH_SYM]));
  }

  /** No slot reaches beyond the longest match. */
  lemma ExtraRange(slot: nat, v: nat)
    requires slot < |LENGTH_BASE| && v < Pow2(LENGTH_EXTRA[slot])
    ensures MIN_MATCH <= LENGTH_BASE[slot] + v <= MAX_MATCH
  {
    SmallPowersOfTwo();
    hide Pow2;
  }

  lemma SmallPowersOfTwo()
    ensures Pow2(0) == 1 && Pow2(1) == 2 && Pow2(2) == 4 && Pow2(3) == 8 && Pow2(4) == 16 && Pow2(5) == 32
  {
  }

  /** What a round needs to know about the codes and tables. */
  ghost predicate Tables(litT: seq<u32>, litTb: nat, offT: seq<u32>, ll: seq<nat>, ol: seq<nat>, max: nat) {
    && Accepted(ll, max) && Accepted(ol, max) && max >= 1 && |ll| > 0 && |ol| > 0 && litTb <= LITLEN_TABLE_BITS
    && Decoder(litT, ll, LitlenResults(), litTb) && Decoder(offT, ol, OffsetResults(), OFFSET_TABLE_BITS)
  }

  /** The buffer is full again and the next entry is at hand. */
  ghost predicate AtItem(r: BitReader, litT: seq<u32>, litTb: nat, entry: u32)
    reads r
  {
    Budget(r, 0) && Preloaded(litT, litTb, r.Rest(), entry)
  }

  /** The only match that the bits mean reaches before the output. */
  lemma TooFarBack(ll: seq<nat>, ol: seq<nat>, max: nat, x: nat, avail: int, before: seq<u8>, outEnd: nat, length: nat,
                   k0: nat, offset: nat, n: nat)
    requires Accepted(ll, max) && Accepted(ol, max) && max >= 1 && offset > |before|
    requires LengthMeans(ll, x, length, k0) && OffsetMeans(ol, Shr(x, k0), offset, n)
    ensures Round(ll, ol, x, avail, before, before, outEnd, BadData, Literal(0), 0)
  {
    hide Shr, Means, Accepted, LengthMeans, OffsetMeans, ItemMeans;
    LengthOnly(ll, ol, max, x, length, k0);
    OffsetOnly(ol, max, Shr(x, k0), offset, n);
  }

  lemma MatchGoing(ll: seq<nat>, ol: seq<nat>, x: nat, avail: int, before: seq<u8>, outEnd: nat, length: nat, k0: nat,
                   offset: nat, n: nat)
    requires 1 <= offset <= |before| && LengthMeans(ll, x, length, k0) && OffsetMeans(ol, Shr(x, k0), offset, n)
    ensures Round(ll, ol, x, avail, before, CopyMatch(before, length, offset), outEnd, Going, Match(length, offset),
                  k0 + n)
  {
    hide Shr, Means, LengthMeans, OffsetMeans, CopyMatch;
    LengthPositive(ll, x, length, k0);
    assert OffsetMeans(ol, Shr(x, k0), offset, k0 + n - k0);
  }

  /** Looks up the next entry, for which there are bits after a refill or without one, and refills the buffer. */
  method EntryBehind(r: BitReader, T: array<u32>, tb: nat) returns (entry: u32)
    requires Running(r) && Ample(r, r.Position()) && tb <= LITLEN_TABLE_BITS && Pow2(tb) <= T.Length
    requires CanConsumeAndPreload(r, OFFSET_MAX_FAST_BITS, LITLEN_TABLE_BITS) ==> r.filled >= LITLEN_TABLE_BITS
    modifies r
    ensures Budget(r, 0) && Preloaded(T[..], tb, r.Rest(), entry) && r.Position() == old(r.Position())
  {
    hide Low, Shr, Pow2, Value, Preloaded;
    if !CanConsumeAndPreload(r, OFFSET_MAX_FAST_BITS, LITLEN_TABLE_BITS)
      && r.Left() < LITLEN_TABLE_BITS - PreloadSlack(r) {
      RefillFast(r);
    }
    entry := Preload(r, T, tb);
    RefillFast(r);
  }

  /** The second half of a match: its offset and, with the next entry already looked up, the copy. */
  method FastMatch(r: BitReader, litT: array<u32>, litTb: nat, offT: array<u32>, out: array<u8>, outNext: nat,
                   outEnd: nat, length: nat, ghost ll: seq<nat>, ghost ol: seq<nat>, ghost max: nat, ghost x: nat,
                   ghost k0: nat)
    returns (status: Status, outNext': nat, entry: u32, ghost it: Item, ghost k: nat)
    requires Running(r) && r.filled >= OFFSET_TABLE_BITS && Ample(r, r.Position() + OFFSET_MAX_BITS)
    requires r.Position() >= k0
    requires Tables(litT[..], litTb, offT[..], ll, ol, max) && out as object != litT && out as object != offT
    requires Overrun(outNext, length, r.wordBytes) <= outEnd <= out.Length
    requires x == Shr(Value(r.data), r.Position() - k0) && LengthMeans(ll, x, length, k0)
    modifies r, out
    ensures outNext <= outNext' <= outNext + length
    ensures Round(ll, ol, x, 8 * |r.data| - (old(r.Position()) - k0), old(out[..outNext]), out[..outNext'], outEnd,
                  status, it, k)
    ensures status == Going ==> AtItem(r, litT[..], litTb, entry) && r.Position() == old(r.Position()) - k0 + k
    ensures status == Going || status == BadData
    ensures forall i :: outEnd <= i < out.Length ==> out[i] == old(out[i])
  {
    hide Low, Shr, Pow2, Means, Decoder, Accepted, LengthMeans, OffsetMeans, Value, Preloaded, Round, CopyMatch,
      OffsetResults, LitlenResults, CanConsumeAndPreload;
    ghost var p, before := r.Position(), out[..outNext];
    LengthAtMost(ll, x, length, k0);
    Enough(litT[..], ll, LitlenResults(), litTb);
    ShrShr(Value(r.data), p - k0, k0);
    it, k, outNext', entry := Literal(0), 0, outNext, 0;
    var offset;
    ghost var n;
    offset, n := FastOffset(r, offT, ol, max);
    OffsetPositive(ol, Shr(x, k0), offset, n);
    if offset > outNext {
      TooFarBack(ll, ol, max, x, 8 * |r.data| - (p - k0), before, outEnd, length, k0, offset, n);
      return BadData, outNext', entry, it, k;
    }
    entry := EntryBehind(r, litT, litTb);
    CopyMatchFast(out, outNext, length, offset, r.wordBytes, r.fast);
    outNext' := outNext + length;
    it := Match(length, offset);
    k := k0 + n;
    MatchGoing(ll, ol, x, 8 * |r.data| - (p - k0), before, outEnd, length, k0, offset, n);
    status := Going;
  }

  // ---- entries and literals

  /** How far the decoder is: the items of the n first bits x of the block are written. */
  ghost predicate Written(r: BitReader, ll: seq<nat>, ol: seq<nat>, x: nat, p: int, before: seq<u8>, items: seq<Item>,
                          n: nat, out: seq<u8>)
  {
    p >= 0 && x == Shr(Value(r.data), p) && Progress(ll, ol, x, before, items, n, out)
  }

  /** Writes the literal that an entry stands for. */
  method PutLiteral(r: BitReader, out: array<u8>, outNext: nat, entry: u32, ghost ll: seq<nat>, ghost ol: seq<nat>,
                    ghost x: nat, ghost p: int, ghost before: seq<u8>, ghost items: seq<Item>, ghost n: nat,
                    ghost s: nat, ghost k: nat, ghost m: nat)
    returns (ghost items': seq<Item>)
    requires outNext < out.Length && IsLiteral(entry)
    requires Written(r, ll, ol, x, p, before, items, n, out[..outNext])
    requires Entry(ll, LitlenResults(), Shr(x, n), s, k, m, entry)
    modifies out
    ensures Written(r, ll, ol, x, p, before, items', n + k, out[..outNext + 1])
    ensures forall i :: outNext < i < out.Length ==> out[i] == old(out[i])
  {
    hide Low, Shr, Pow2, Means, IsEnd, IsLiteral, Value, Progress, ItemMeans;
    EntryKind(ll, Shr(x, n), s, k, m, entry);
    LiteralMeans(ll, ol, LitlenResults(), Shr(x, n), s, k, m, entry);
    ProgressStep(ll, ol, x, before, items, n, out[..outNext], Literal(s), k);
    ghost var was := out[..outNext];
    out[outNext] := entry / 0x1_0000 % 256;
    assert out[..outNext + 1] == was + [s];
    items' := items + [Literal(s)];
  }

  lemma LiteralMeans(ll: seq<nat>, ol: seq<nat>, dr: seq<u32>, x: nat, s: nat, k: nat, m: nat, e: u32)
    requires Entry(ll, dr, x, s, k, m, e) && s < 256
    ensures ItemMeans(ll, ol, x, Literal(s), k)
  {
  }

  /** Looks up the next entry in the main table and consumes its bits. */
  method NextEntry(r: BitReader, T: array<u32>, tb: nat, ghost ll: seq<nat>, ghost max: nat, ghost spent: nat)
    returns (entry: u32, saved: nat, ghost s: nat, ghost n: nat)
    requires Budget(r, spent) && spent + LENGTH_MAX_FAST_BITS <= r.Consumable()
    requires Accepted(ll, max) && max >= 1 && |ll| > 0 && tb <= LITLEN_TABLE_BITS
    requires Decoder(T[..], ll, LitlenResults(), tb)
    modifies r
    ensures Taken(r, ll, T[..], tb, old(r.Rest()), s, n, entry, saved, spent)
    ensures r.Position() == old(r.Position()) + entry % 256
  {
    hide Low, Shr, Pow2, IsPointer, IsExceptional, IsEnd, IsLiteral, Means, Results, MakeEntry, Decoder, Accepted,
      Value, Preloaded;
    ghost var x := r.Rest();
    Enough(T[..], ll, LitlenResults(), tb);
    entry := Preload(r, T, tb);
    s, n := Looked(ll, max, LitlenResults(), T[..], tb, x, entry);
    MainBitsFew(ll, T[..], tb, x, s, n, entry);
    saved := Take(r, entry, spent);
  }

  /** An entry of the main table has been consumed. */
  ghost predicate Taken(r: BitReader, ll: seq<nat>, T: seq<u32>, tb: nat, x: nat, s: nat, n: nat, entry: u32,
                        saved: nat, spent: nat)
    reads r
  {
    && Budget(r, spent + entry % 256) && r.Rest() == Shr(x, entry % 256)
    && MainSays(ll, LitlenResults(), T, tb, x, s, n, entry) && Preloaded(T, tb, x, entry)
    && Low(saved, entry % 256) == Low(x, entry % 256)
  }

  /** How many bits an entry of the main table counts. */
  lemma MainBitsFew(ll: seq<nat>, T: seq<u32>, tb: nat, x: nat, s: nat, n: nat, entry: u32)
    requires MainSays(ll, LitlenResults(), T, tb, x, s, n, entry) && tb <= LITLEN_TABLE_BITS
    ensures entry % 256 <= LENGTH_MAX_FAST_BITS
    ensures (IsLiteral(entry) || IsExceptional(entry) ==> entry % 256 <= LITLEN_TABLE_BITS)
    ensures IsLiteral(entry) ==>
      n <= tb && Entry(ll, LitlenResults(), x, s, n, n, entry) && entry % 256 == n && s < END_SYM
    ensures IsExceptional(entry) && IsEnd(entry) ==>
      Entry(ll, LitlenResults(), x, s, n, n, entry) && entry % 256 == n && s == END_SYM
    ensures IsExceptional(entry) && !IsEnd(entry) ==> n > tb && entry % 256 == tb
    ensures !IsLiteral(entry) && !IsExceptional(entry) ==> Entry(ll, LitlenResults(), x, s, n, n, entry) && s > END_SYM
  {
    hide Means, Results, IsLiteral, IsEnd, IsExceptional, MakeEntry;
    if n <= tb {
      EntryKind(ll, x, s, n, n, entry);
      LitlenBits(s, n);
      LitlenExceptional(s, n);
    }
  }
}
