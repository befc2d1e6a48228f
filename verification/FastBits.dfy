/** The input bits in the decompressor's fast loop: refilling without looking for the end of the input, and how
    many bits can be consumed and preloaded before the next refill. */
module FastBits {
  import opened Arith
  import opened Packed
  import opened Bits
  import opened Words
  import opened BitBuffer
  import opened BitReader
  import opened DecodeTable
  import opened BuildDecodeTable
  import opened Slots
  import opened Items
  import opened TableLookup

  const MAX_LITLEN_CODE_BITS: nat := 15
  const LENGTH_MAX_FAST_BITS: nat := LITLEN_TABLE_BITS + 5
  const OFFSET_MAX_FAST_BITS: nat := OFFSET_TABLE_BITS + 13

  /** The bits that are there after a refill, although not all of them can be consumed. */
  function Preloadable(r: BitReader): int {
    if r.fast then 8 * r.wordBytes else r.Consumable()
  }

  function PreloadSlack(r: BitReader): int {
    if r.fast then 1 else 0
  }

  predicate CanConsumeAndPreload(r: BitReader, consume: nat, preload: nat) {
    r.Consumable() >= consume && Preloadable(r) >= consume + preload
  }

  /** At most n bits have been consumed since the last refill. */
  ghost predicate Budget(r: BitReader, n: nat)
    reads r
  {
    && r.Valid() && r.overread == 0 && (r.fast ==> r.filled > r.Left())
    && r.Left() >= r.Consumable() - n && r.filled >= Preloadable(r) - n
  }

  /** The most bits that a round consumes: two literals, a length and an offset. */
  const ROUND_BITS: nat := 2 * LITLEN_TABLE_BITS + LENGTH_MAX_BITS + OFFSET_MAX_BITS

  /** The most bytes that a round reads. */
  function MaxBytesRead(r: BitReader): int {
    (r.MaxLeft() + ROUND_BITS + 7) / 8 + r.wordBytes
  }

  /** Before this point of the input a round can start. */
  function InFastEnd(r: BitReader): int {
    if |r.data| < MaxBytesRead(r) then 0 else |r.data| - MaxBytesRead(r)
  }

  /** Even with these bits consumed the input is long enough to refill. */
  ghost predicate Ample(r: BitReader, position: int) {
    position + r.MaxLeft() + 8 * r.wordBytes <= 8 * |r.data|
  }

  lemma RoundIsAmple(r: BitReader)
    requires r.Valid() && r.inNext < InFastEnd(r)
    ensures Ample(r, r.Position() + ROUND_BITS) && r.overread == 0
  {
  }

  /** Refills without looking for the end of the input. */
  method RefillFast(r: BitReader)
    requires r.Valid() && r.overread == 0 && Ample(r, r.Position())
    modifies r
    ensures Budget(r, 0) && r.Position() == old(r.Position())
  {
    hide Low, Shr, Value, Pow2, Or;
    if r.fast {
      r.RefillBranchless();
    } else {
      while r.Left() < r.Consumable()
        invariant r.Valid() && r.overread == 0 && r.Position() == old(r.Position())
        decreases 256 - r.Left()
      {
        r.LoadByte();
      }
    }
  }

  // ---- entries

  ghost predicate Preloaded(T: seq<u32>, tb: nat, x: nat, entry: u32) {
    Pow2(tb) <= |T| && entry == T[Low(x, tb)]
  }

  /** Looks up the next bits without consuming any. */
  method Preload(r: BitReader, T: array<u32>, tb: nat) returns (entry: u32)
    requires r.Valid() && tb <= r.filled && Pow2(tb) <= T.Length
    ensures Preloaded(T[..], tb, r.Rest(), entry)
  {
    hide Shr, Value, Pow2;
    LowOfLow(r.Rest(), tb, r.filled);
    entry := T[Low(r.bitbuf, tb)];
  }

  lemma Enough(T: seq<u32>, lens: seq<nat>, dr: seq<u32>, tb: nat)
    requires Decoder(T, lens, dr, tb)
    ensures Pow2(tb) <= |T| && 1 <= tb <= 15 && Results(dr)
  {
  }

  /** A pointer is exceptional, but neither a literal nor the end. */
  lemma PointerKind(T: seq<u32>, tb: nat, x: nat, start: nat, bits: nat)
    requires Pow2(tb) <= |T| && tb <= 15 && PointsTo(T, tb, x, start, bits)
    ensures var e := T[Low(x, tb)]; IsExceptional(e) && !IsEnd(e) && !IsLiteral(e) && e % 256 == tb
  {
    hide Low, Pow2, IsExceptional;
    var e := SubtablePointer(start, bits, tb);
    PointerExceptional(start, bits, tb);
    PointerFlags(start, bits, tb);
    QuotientIs(e, 0x2000, 8 * start + 6, bits * 256 + tb);
  }

  /** The only entry that is exceptional and no pointer is that of the end of the block. */
  lemma LitlenExceptional(s: nat, m: nat)
    requires s < 288 && m <= 15
    ensures Results(LitlenResults())
    ensures IsExceptional(MakeEntry(LitlenResults(), s, m)) <==> s == END_SYM
    ensures !IsPointer(MakeEntry(LitlenResults(), s, m))
  {
    hide IsPointer, IsEnd;
    ResultsHold();
    EntryIsNoPointer(LitlenResults(), s, m);
    if s < END_SYM {
      EntryParts(LitlenResults(), s, m, 0x8000 + s, 0);
    } else if s == END_SYM {
      var e := MakeEntry(LitlenResults(), s, m);
      QuotientIs(e, 0x8000, 1, 0x2000 + 257 * m);
    } else {
      EntryParts(LitlenResults(), s, m, LENGTH_BASE[s - 257], LENGTH_EXTRA[s - 257]);
    }
  }

  /** What the main table says about the bits x, of which the first n mean the symbol s. */
  ghost predicate MainSays(lens: seq<nat>, dr: seq<u32>, T: seq<u32>, tb: nat, x: nat, s: nat, n: nat, entry: u32) {
    && Means(lens, x, s, n) && 1 <= n <= 15 && 1 <= tb <= 15 && Results(dr) && s < |dr|
    && if n <= tb then entry == MakeEntry(dr, s, n)
       else IsExceptional(entry) && !IsEnd(entry) && !IsLiteral(entry) && entry % 256 == tb
  }

  lemma Looked(lens: seq<nat>, max: nat, dr: seq<u32>, T: seq<u32>, tb: nat, x: nat, entry: u32)
    returns (s: nat, n: nat)
    requires Accepted(lens, max) && max >= 1 && |lens| > 0 && Decoder(T, lens, dr, tb) && Preloaded(T, tb, x, entry)
    ensures MainSays(lens, dr, T, tb, x, s, n, entry)
  {
    hide Low, Shr, Pow2, IsPointer, IsExceptional, IsEnd, IsLiteral, Means, MakeEntry, Decoder, Accepted;
    s, n := MeaningExists(lens, max, x);
    MainEntry(T, lens, dr, tb, x, s, n);
    if n > tb {
      var start: nat, bits: nat :| PointsTo(T, tb, x, start, bits)
        && n - tb <= bits && T[start + Low(Shr(x, tb), bits)] == MakeEntry(dr, s, n - tb);
      PointerKind(T, tb, x, start, bits);
    }
  }

  /** Loads the subtable entry that a pointer leads to. */
  method LoadSub(r: BitReader, T: array<u32>, tb: nat, entry: u32, ghost lens: seq<nat>, ghost dr: seq<u32>,
                 ghost x: nat, ghost s: nat, ghost n: nat)
    returns (e: u32)
    requires r.Valid() && Decoder(T[..], lens, dr, tb) && Preloaded(T[..], tb, x, entry)
    requires MainSays(lens, dr, T[..], tb, x, s, n, entry) && n > tb && r.Rest() == Shr(x, tb) && r.filled >= 15 - tb
    ensures e == MakeEntry(dr, s, n - tb)
  {
    hide Low, Shr, Pow2, IsPointer, IsExceptional, IsEnd, IsLiteral, Means, MakeEntry, Decoder, Value;
    MainEntry(T[..], lens, dr, tb, x, s, n);
    ghost var start: nat, bits: nat :| PointsTo(T[..], tb, x, start, bits)
      && n - tb <= bits && T[..][start + Low(Shr(x, tb), bits)] == MakeEntry(dr, s, n - tb);
    PointerIndex(T[..], tb, x, start, bits, r.bitbuf, r.filled);
    e := T[SubIndex(entry, r.bitbuf)];
  }

  /** Consumes the bits of an entry. */
  method Take(r: BitReader, entry: u32, ghost spent: nat) returns (saved: nat)
    requires Budget(r, spent) && entry % 256 <= r.Left()
    modifies r
    ensures Budget(r, spent + entry % 256) && r.Position() == old(r.Position()) + entry % 256
    ensures r.Left() == old(r.Left()) - entry % 256
    ensures r.Rest() == Shr(old(r.Rest()), entry % 256) && Low(saved, entry % 256) == Low(old(r.Rest()), entry % 256)
  {
    hide Low, Shr, Value, Pow2;
    saved := r.bitbuf;
    LowOfLow(r.Rest(), entry % 256, r.filled);
    r.Consume(entry);
  }
}
