/** The decompressor's fast loop: far from the ends of input and output it decodes up to three items in a round. */
module FastLoop {
  import opened Arith
  import opened Packed
  import opened Bits
  import opened Words
  import opened BitBuffer
  import opened BitReader
  import opened DecodeTable
  import opened BuildDecodeTable
  import opened Slots
  import opened Items
  import opened TableLookup
  import opened GenericItem
  import opened MatchCopy
  import opened FastBits
  import opened FastItems

  /** What an item leaves: the next one is at hand, the block has ended, or it does not decode. */
  ghost predicate Outcome(status: Status, r: BitReader, litT: seq<u32>, litTb: nat, entry: u32, ll: seq<nat>,
                          ol: seq<nat>, x: nat, p: int, before: seq<u8>, items: seq<Item>, n: nat, out: seq<u8>,
                          outEnd: nat)
    reads r
  {
    match status
    case Going =>
      AtItem(r, litT, litTb, entry) && r.Position() == p + n && Written(r, ll, ol, x, p, before, items, n, out)
    case Done =>
      && r.Valid() && r.Position() == p + n && BlockMeans(ll, ol, x, items, n)
      && Reachable(before, items) && Expand(before, items) == out
    case NoSpace => false
    case BadData => Undecodable(BadData, ll, ol, x, 8 * |r.data| - p, before, outEnd)
  }

  /** The bits consumed so far leave enough for the rest of the item. */
  ghost predicate Affordable(r: BitReader, spent: nat) {
    (r.wordBytes == 8 && spent <= 2 * LITLEN_TABLE_BITS) || (r.wordBytes == 4 && spent == 0)
  }

  /** Replaces a pointer, whose bits are consumed, by the subtable entry that it leads to. */
  method SubEntry(r: BitReader, T: array<u32>, tb: nat, pointer: u32, ghost ll: seq<nat>, ghost x: nat, ghost s: nat,
                  ghost n: nat, ghost spent: nat)
    returns (entry: u32, saved: nat)
    requires Decoder(T[..], ll, LitlenResults(), tb) && tb <= LITLEN_TABLE_BITS && tb < n
    requires MainSays(ll, LitlenResults(), T[..], tb, x, s, n, pointer) && Preloaded(T[..], tb, x, pointer)
    requires Budget(r, spent + tb) && r.Rest() == Shr(x, tb) && Affordable(r, spent)
    requires Ample(r, r.Position() + LENGTH_MAX_BITS - tb)
    modifies r
    ensures Entry(ll, LitlenResults(), x, s, n, n - tb, entry)
    ensures Low(saved, entry % 256) == Low(Shr(x, tb), entry % 256)
    ensures Running(r) && r.Position() == old(r.Position()) + entry % 256 && tb + entry % 256 <= LENGTH_MAX_BITS
    ensures r.filled >= OFFSET_TABLE_BITS && (IsLiteral(entry) ==> r.filled >= LITLEN_TABLE_BITS)
  {
    hide Low, Shr, Pow2, IsPointer, IsExceptional, IsEnd, IsLiteral, Means, Results, MakeEntry, Decoder, Value,
      Preloaded;
    entry := LoadSub(r, T, tb, pointer, ll, LitlenResults(), x, s, n);
    LitlenBits(s, n - tb);
    EntryKind(ll, x, s, n, n - tb, entry);
    saved := Take(r, entry, spent + tb);
    if !CanConsumeAndPreload(r, MAX_LITLEN_CODE_BITS, LITLEN_TABLE_BITS)
       || !CanConsumeAndPreload(r, LENGTH_MAX_BITS, OFFSET_TABLE_BITS)
    {
      RefillFast(r);
    }
  }

  /** A match, behind its length. */
  method MatchItem(r: BitReader, litT: array<u32>, litTb: nat, offT: array<u32>, out: array<u8>, outNext: nat,
                   outEnd: nat, lengthEntry: u32, saved: nat, ghost ll: seq<nat>, ghost ol: seq<nat>, ghost max: nat,
                   ghost x: nat, ghost p: int, ghost before: seq<u8>, ghost items: seq<Item>, ghost n: nat,
                   ghost s: nat, ghost k: nat, ghost m: nat)
    returns (status: Status, outNext': nat, entry: u32, ghost items': seq<Item>, ghost n': nat)
    requires Tables(litT[..], litTb, offT[..], ll, ol, max) && out as object != litT && out as object != offT
    requires Running(r) && outNext <= outEnd <= out.Length && Overrun(outNext, MAX_MATCH, r.wordBytes) <= outEnd
    requires Written(r, ll, ol, x, p, before, items, n, out[..outNext])
    requires Entry(ll, LitlenResults(), Shr(x, n), s, k, m, lengthEntry) && s > END_SYM
    requires Low(saved, lengthEntry % 256) == Low(Shr(Shr(x, n), k - m), lengthEntry % 256)
    requires r.filled >= OFFSET_TABLE_BITS && r.Position() == p + n + (k - m) + lengthEntry % 256
    requires Ample(r, r.Position() + OFFSET_MAX_BITS)
    modifies r, out
    ensures outNext <= outNext' <= outEnd && status != NoSpace && status != Done && (status == Going ==> n' > n)
    ensures Outcome(status, r, litT[..], litTb, entry, ll, ol, x, p, before, items', n', out[..outNext'], outEnd)
    ensures forall i :: outEnd <= i < out.Length ==> out[i] == old(out[i])
  {
    hide Low, Shr, Pow2, Means, Results, MakeEntry, Decoder, Accepted, Value, Preloaded, IsLiteral, IsEnd,
      IsExceptional, LengthFrom, LengthMeans, Entry, Progress, Round, Undecodable, ItemMeans, Budget;
    ghost var was := out[..outNext];
    var length := lengthEntry / 0x1_0000 + Shr(Low(saved, lengthEntry % 256), lengthEntry / 256 % 256);
    EntryMeans(ll, LitlenResults(), Shr(x, n), s, k, m, lengthEntry);
    LengthEntry(ll, Shr(x, n), s, k, m, saved, lengthEntry);
    ghost var bits := k - m + lengthEntry % 256;
    LengthIs(ll, Shr(x, n), length, bits, s, k);
    LengthAtMost(ll, Shr(x, n), length, bits);
    ShrShr(Value(r.data), p, n);
    ghost var it, len;
    status, outNext', entry, it, len :=
      FastMatch(r, litT, litTb, offT, out, outNext, outEnd, length, ll, ol, max, Shr(x, n), bits);
    items', n' := items, n;
    RoundParts(ll, ol, Shr(x, n), 8 * |r.data| - p - n, was, out[..outNext'], outEnd, status, it, len);
    if status == Going {
      ProgressStep(ll, ol, x, before, items, n, was, it, len);
      items', n' := items + [it], n + len;
    } else {
      Refuted(ll, ol, max, x, 8 * |r.data| - p, before, items, n, was, out[..outNext'], outEnd, status, it, len);
    }
  }

  /** A literal, once its bits are consumed: the next entry is looked up first. */
  method LiteralItem(r: BitReader, litT: array<u32>, litTb: nat, out: array<u8>, outNext: nat, literal: u32,
                     ghost ll: seq<nat>, ghost ol: seq<nat>, ghost x: nat, ghost p: int, ghost before: seq<u8>,
                     ghost items: seq<Item>, ghost n: nat, ghost s: nat, ghost k: nat, ghost m: nat, ghost outEnd: nat)
    returns (entry: u32, ghost items': seq<Item>)
    requires Decoder(litT[..], ll, LitlenResults(), litTb) && litTb <= LITLEN_TABLE_BITS && out as object != litT
    requires outNext < outEnd <= out.Length && IsLiteral(literal)
    requires Written(r, ll, ol, x, p, before, items, n, out[..outNext])
    requires Entry(ll, LitlenResults(), Shr(x, n), s, k, m, literal)
    requires Running(r) && r.filled >= LITLEN_TABLE_BITS && r.Position() == p + n + k && Ample(r, r.Position())
    modifies r, out
    ensures Outcome(Going, r, litT[..], litTb, entry, ll, ol, x, p, before, items', n + k, out[..outNext + 1], outEnd)
    ensures forall i :: outEnd <= i < out.Length ==> out[i] == old(out[i])
  {
    hide Low, Shr, Pow2, Means, Results, MakeEntry, Decoder, Value, Preloaded, IsLiteral, Entry, Progress, Budget;
    Enough(litT[..], ll, LitlenResults(), litTb);
    entry := Preload(r, litT, litTb);
    RefillFast(r);
    items' := PutLiteral(r, out, outNext, literal, ll, ol, x, p, before, items, n, s, k, m);
  }

  /** The end of the block. */
  lemma EndItem(r: BitReader, litT: seq<u32>, litTb: nat, entry: u32, ll: seq<nat>, ol: seq<nat>, x: nat, p: int,
                before: seq<u8>, items: seq<Item>, n: nat, out: seq<u8>, outEnd: nat, k: nat, m: nat)
    requires Written(r, ll, ol, x, p, before, items, n, out) && r.Valid() && r.Position() == p + n + k
    requires Entry(ll, LitlenResults(), Shr(x, n), END_SYM, k, m, entry)
    ensures Outcome(Done, r, litT, litTb, entry, ll, ol, x, p, before, items, n + k, out, outEnd)
  {
    hide Low, Shr, Means, Results, MakeEntry, Value, Progress, BlockMeans, Reachable, Expand;
    Finished(ll, ol, x, before, items, n, out, k);
  }

  lemma SomeCodeBits(ll: seq<nat>, T: seq<u32>, tb: nat, x: nat, s: nat, k: nat, entry: u32)
    requires MainSays(ll, LitlenResults(), T, tb, x, s, k, entry)
    ensures k >= 1
  {
  }

  /** The rest of an item whose main entry is consumed and no literal. */
  method FinishItem(r: BitReader, litT: array<u32>, litTb: nat, offT: array<u32>, out: array<u8>, outNext: nat,
                    outEnd: nat, entry0: u32, saved0: nat, ghost ll: seq<nat>, ghost ol: seq<nat>, ghost max: nat,
                    ghost x: nat, ghost p: int, ghost before: seq<u8>, ghost items: seq<Item>, ghost n: nat,
                    ghost s: nat, ghost k: nat, ghost spent: nat)
    returns (status: Status, outNext': nat, entry: u32, ghost items': seq<Item>, ghost n': nat)
    requires Tables(litT[..], litTb, offT[..], ll, ol, max) && out as object != litT && out as object != offT
    requires Taken(r, ll, litT[..], litTb, Shr(x, n), s, k, entry0, saved0, spent) && !IsLiteral(entry0)
    requires outNext < outEnd <= out.Length && Overrun(outNext, MAX_MATCH, r.wordBytes) <= outEnd
    requires Written(r, ll, ol, x, p, before, items, n, out[..outNext]) && r.Position() == p + n + entry0 % 256
    requires Affordable(r, spent) && Ample(r, p + n + LENGTH_MAX_BITS + OFFSET_MAX_BITS)
    modifies r, out
    ensures outNext <= outNext' <= outEnd && status != NoSpace && (status == Going ==> n' > n)
    ensures Outcome(status, r, litT[..], litTb, entry, ll, ol, x, p, before, items', n', out[..outNext'], outEnd)
    ensures forall i :: outEnd <= i < out.Length ==> out[i] == old(out[i])
  {
    hide Low, Shr, Pow2, Means, Results, MakeEntry, Decoder, Accepted, Value, Preloaded, IsLiteral, IsEnd,
      IsExceptional, Entry, Progress, Undecodable, MainSays;
    outNext', items', n' := outNext, items, n;
    var saved := saved0;
    entry := entry0;
    ghost var m := k;
    ghost var y := Shr(x, n);
    MainBitsFew(ll, litT[..], litTb, y, s, k, entry);
    SomeCodeBits(ll, litT[..], litTb, y, s, k, entry);
    ShrNothing(y);
    if IsExceptional(entry) {
      if IsEnd(entry) {
        EndItem(r, litT[..], litTb, entry, ll, ol, x, p, before, items, n, out[..outNext], outEnd, k, m);
        return Done, outNext', entry, items', n + k;
      }
      entry, saved := SubEntry(r, litT, litTb, entry, ll, y, s, k, spent);
      m := k - litTb;
      EntryKind(ll, y, s, k, m, entry);
      if IsLiteral(entry) {
        entry, items' := LiteralItem(r, litT, litTb, out, outNext, entry, ll, ol, x, p, before, items, n, s, k, m,
                                     outEnd);
        return Going, outNext + 1, entry, items', n + k;
      }
      if IsEnd(entry) {
        EndItem(r, litT[..], litTb, entry, ll, ol, x, p, before, items, n, out[..outNext], outEnd, k, m);
        return Done, outNext', entry, items', n + k;
      }
    }
    EntryKind(ll, y, s, k, m, entry);
    status, outNext', entry, items', n' :=
      MatchItem(r, litT, litTb, offT, out, outNext, outEnd, entry, saved, ll, ol, max, x, p, before, items, n, s, k, m);
  }

  // ---- a round

  /** Where a round is: the bits of an entry are consumed, those of the items before it belong to the block. */
  ghost predicate Within(r: BitReader, ll: seq<nat>, ol: seq<nat>, T: seq<u32>, tb: nat, x: nat, p: int,
                         before: seq<u8>, items: seq<Item>, n: nat, out: seq<u8>, s: nat, k: nat, entry: u32,
                         saved: nat, spent: nat)
    reads r
  {
    && Written(r, ll, ol, x, p, before, items, n, out) && r.Position() == p + n + entry % 256
    && Taken(r, ll, T, tb, Shr(x, n), s, k, entry, saved, spent)
  }

  /** A literal that is not the last item of the round: the next entry is looked up and consumed first. */
  method ExtraLiteral(r: BitReader, T: array<u32>, tb: nat, out: array<u8>, outNext: nat, literal: u32,
                      ghost saved0: nat, ghost ll: seq<nat>, ghost ol: seq<nat>, ghost max: nat, ghost x: nat,
                      ghost p: int, ghost before: seq<u8>, ghost items: seq<Item>, ghost n: nat, ghost s: nat,
                      ghost k: nat, ghost spent: nat)
    returns (entry: u32, saved: nat, ghost items': seq<Item>, ghost n': nat, ghost s': nat, ghost k': nat)
    requires Accepted(ll, max) && max >= 1 && |ll| > 0 && tb <= LITLEN_TABLE_BITS
    requires Decoder(T[..], ll, LitlenResults(), tb)
    requires outNext < out.Length && out as object != T && IsLiteral(literal)
    requires Within(r, ll, ol, T[..], tb, x, p, before, items, n, out[..outNext], s, k, literal, saved0, spent)
    requires r.wordBytes == 8 && spent <= LITLEN_TABLE_BITS
    modifies r, out
    ensures n' == n + literal % 256 && literal % 256 <= LITLEN_TABLE_BITS
    ensures Within(r, ll, ol, T[..], tb, x, p, before, items', n', out[..outNext + 1], s', k', entry, saved,
                   spent + literal % 256)
    ensures forall i :: outNext < i < out.Length ==> out[i] == old(out[i])
  {
    hide Low, Shr, Pow2, Means, Results, MakeEntry, Decoder, Accepted, Value, Preloaded, IsLiteral, IsEnd,
      IsExceptional, Entry, Progress, MainSays;
    MainBitsFew(ll, T[..], tb, Shr(x, n), s, k, literal);
    ShrShr(Value(r.data), p, n + k);
    entry, saved, s', k' := NextEntry(r, T, tb, ll, max, spent + literal % 256);
    items' := PutLiteral(r, out, outNext, literal, ll, ol, x, p, before, items, n, s, k, k);
    n' := n + k;
  }

  /** Up to two extra literals, if the buffer has bits for them and for any item behind them. */
  method ExtraLiterals(r: BitReader, T: array<u32>, tb: nat, out: array<u8>, outNext0: nat, entry0: u32, saved0: nat,
                       ghost ll: seq<nat>, ghost ol: seq<nat>, ghost max: nat, ghost x: nat, ghost p: int,
                       ghost before: seq<u8>, ghost items0: seq<Item>, ghost n0: nat, ghost s0: nat, ghost k0: nat)
    returns (entry: u32, saved: nat, outNext: nat, ghost items: seq<Item>, ghost n: nat, ghost s: nat, ghost k: nat,
             ghost spent: nat)
    requires Accepted(ll, max) && max >= 1 && |ll| > 0 && tb <= LITLEN_TABLE_BITS
    requires Decoder(T[..], ll, LitlenResults(), tb)
    requires outNext0 + 1 < out.Length && out as object != T
    requires Within(r, ll, ol, T[..], tb, x, p, before, items0, n0, out[..outNext0], s0, k0, entry0, saved0, 0)
    modifies r, out
    ensures outNext0 <= outNext <= outNext0 + 2 && n == n0 + spent && Affordable(r, spent)
    ensures Within(r, ll, ol, T[..], tb, x, p, before, items, n, out[..outNext], s, k, entry, saved, spent)
    ensures forall i :: outNext <= i < out.Length ==> out[i] == old(out[i])
  {
    hide Low, Shr, Pow2, Means, Results, MakeEntry, Decoder, Accepted, Value, IsLiteral, Within;
    entry, saved, outNext := entry0, saved0, outNext0;
    items, n, s, k, spent := items0, n0, s0, k0, 0;
    WordSize(r, ll, ol, T[..], tb, x, p, before, items, n, out[..outNext], s, k, entry, saved, spent);
    if IsLiteral(entry)
       && CanConsumeAndPreload(r, 2 * LITLEN_TABLE_BITS + LENGTH_MAX_BITS, OFFSET_TABLE_BITS)
       && CanConsumeAndPreload(r, 2 * LITLEN_TABLE_BITS + MAX_LITLEN_CODE_BITS, LITLEN_TABLE_BITS)
    {
      ghost var more := entry % 256;
      entry, saved, items, n, s, k :=
        ExtraLiteral(r, T, tb, out, outNext, entry, saved, ll, ol, max, x, p, before, items, n, s, k, spent);
      outNext, spent := outNext + 1, more;
      if IsLiteral(entry) {
        more := entry % 256;
        entry, saved, items, n, s, k :=
          ExtraLiteral(r, T, tb, out, outNext, entry, saved, ll, ol, max, x, p, before, items, n, s, k, spent);
        outNext, spent := outNext + 1, spent + more;
      }
    }
  }

  lemma WordSize(r: BitReader, ll: seq<nat>, ol: seq<nat>, T: seq<u32>, tb: nat, x: nat, p: int, before: seq<u8>,
                 items: seq<Item>, n: nat, out: seq<u8>, s: nat, k: nat, entry: u32, saved: nat, spent: nat)
    requires Within(r, ll, ol, T, tb, x, p, before, items, n, out, s, k, entry, saved, spent)
    ensures r.wordBytes == 4 || r.wordBytes == 8
  {
  }

  /** One round: at most two extra literals and one more item.  It reads and writes within its bounds, whatever the
      item is. */
  method FastRound(r: BitReader, litT: array<u32>, litTb: nat, offT: array<u32>, out: array<u8>, outNext0: nat,
                   outEnd: nat, entry0: u32, ghost ll: seq<nat>, ghost ol: seq<nat>, ghost max: nat, ghost x: nat,
                   ghost p: int, ghost before: seq<u8>, ghost items0: seq<Item>, ghost n0: nat)
    returns (status: Status, outNext: nat, entry: u32, ghost items: seq<Item>, ghost n: nat)
    requires Tables(litT[..], litTb, offT[..], ll, ol, max) && out as object != litT && out as object != offT
    requires AtItem(r, litT[..], litTb, entry0) && r.Position() == p + n0 && Ample(r, r.Position() + ROUND_BITS)
    requires outNext0 < FastloopEnd(outEnd, r.wordBytes) && outEnd <= out.Length
    requires Written(r, ll, ol, x, p, before, items0, n0, out[..outNext0])
    modifies r, out
    ensures outNext0 <= outNext <= outEnd && status != NoSpace && (status == Going ==> n > n0)
    ensures Outcome(status, r, litT[..], litTb, entry, ll, ol, x, p, before, items, n, out[..outNext], outEnd)
    ensures forall i :: outEnd <= i < out.Length ==> out[i] == old(out[i])
  {
    hide Low, Shr, Pow2, Means, Results, MakeEntry, Decoder, Accepted, Value, IsLiteral, Entry, Undecodable, MainSays,
      Preloaded, Progress;
    ShrShr(Value(r.data), p, n0);
    ghost var s, k := Looked(ll, max, LitlenResults(), litT[..], litTb, r.Rest(), entry0);
    MainBitsFew(ll, litT[..], litTb, r.Rest(), s, k, entry0);
    var saved := Take(r, entry0, 0);
    ghost var spent;
    entry, saved, outNext, items, n, s, k, spent :=
      ExtraLiterals(r, litT, litTb, out, outNext0, entry0, saved, ll, ol, max, x, p, before, items0, n0, s, k);
    RoundFits(outNext0, outEnd, r.wordBytes, outNext - outNext0, MAX_MATCH);
    MainBitsFew(ll, litT[..], litTb, Shr(x, n), s, k, entry);
    SomeCodeBits(ll, litT[..], litTb, Shr(x, n), s, k, entry);
    if IsLiteral(entry) {
      entry, items := LiteralItem(r, litT, litTb, out, outNext, entry, ll, ol, x, p, before, items, n, s, k, k, outEnd);
      return Going, outNext + 1, entry, items, n + k;
    }
    status, outNext, entry, items, n :=
      FinishItem(r, litT, litTb, offT, out, outNext, outEnd, entry, saved, ll, ol, max, x, p, before, items, n, s, k,
                 spent);
  }

  // ---- the loop

  /** Decodes items as long as input and output have room for a whole round. */
  method FastLoop(r: BitReader, litT: array<u32>, litTb: nat, offT: array<u32>, out: array<u8>, outNext0: nat,
                  outEnd: nat, ghost ll: seq<nat>, ghost ol: seq<nat>, ghost max: nat)
    returns (status: Status, outNext: nat, ghost items: seq<Item>, ghost n: nat)
    requires Tables(litT[..], litTb, offT[..], ll, ol, max) && out as object != litT && out as object != offT
    requires r.Valid() && outNext0 <= outEnd <= out.Length
    modifies r, out
    ensures outNext0 <= outNext <= outEnd && status != NoSpace
    ensures status == Going ==>
      && r.Valid() && r.Position() == old(r.Position()) + n
      && Progress(ll, ol, old(r.Rest()), old(out[..outNext0]), items, n, out[..outNext])
    ensures status == Done ==>
      && r.Valid() && r.Position() == old(r.Position()) + n && BlockMeans(ll, ol, old(r.Rest()), items, n)
      && Reachable(old(out[..outNext0]), items) && out[..outNext] == Expand(old(out[..outNext0]), items)
    ensures status == BadData ==>
      Undecodable(BadData, ll, ol, old(r.Rest()), 8 * |r.data| - old(r.Position()), old(out[..outNext0]), outEnd)
    ensures forall i :: outEnd <= i < out.Length ==> out[i] == old(out[i])
  {
    hide Low, Shr, Pow2, Means, Results, Decoder, Accepted, Value, Undecodable, Preloaded, Progress, BlockMeans,
      Reachable, Expand;
    ghost var x, p, before := r.Rest(), r.Position(), out[..outNext0];
    status, outNext, items, n := Going, outNext0, [], 0;
    NothingRead(ll, ol, x, before);
    if r.inNext >= InFastEnd(r) || outNext >= FastloopEnd(outEnd, r.wordBytes) {
      return;
    }
    RoundIsAmple(r);
    TablesRoom(litT[..], litTb, offT[..], ll, ol, max);
    RefillFast(r);
    var entry := FirstEntry(r, litT, litTb);
    while true
      invariant status == Going && outNext0 <= outNext < FastloopEnd(outEnd, r.wordBytes)
      invariant AtItem(r, litT[..], litTb, entry) && r.Position() == p + n && Ample(r, r.Position() + ROUND_BITS)
      invariant Written(r, ll, ol, x, p, before, items, n, out[..outNext])
      invariant forall i :: outEnd <= i < out.Length ==> out[i] == old(out[i])
      decreases 8 * |r.data| - r.Position()
    {
      status, outNext, entry, items, n :=
        FastRound(r, litT, litTb, offT, out, outNext, outEnd, entry, ll, ol, max, x, p, before, items, n);
      if status != Going || r.inNext >= InFastEnd(r) || outNext >= FastloopEnd(outEnd, r.wordBytes) {
        return;
      }
      RoundIsAmple(r);
    }
  }

  lemma TablesRoom(litT: seq<u32>, litTb: nat, offT: seq<u32>, ll: seq<nat>, ol: seq<nat>, max: nat)
    requires Tables(litT, litTb, offT, ll, ol, max)
    ensures Pow2(litTb) <= |litT| && litTb <= LITLEN_TABLE_BITS
  {
    hide Accepted, Pow2;
    Enough(litT, ll, LitlenResults(), litTb);
  }

  /** The first lookup after a refill. */
  method FirstEntry(r: BitReader, T: array<u32>, tb: nat) returns (entry: u32)
    requires Budget(r, 0) && tb <= LITLEN_TABLE_BITS && Pow2(tb) <= T.Length
    ensures AtItem(r, T[..], tb, entry)
  {
    hide Preloaded, Pow2;
    entry := Preload(r, T, tb);
  }
}
