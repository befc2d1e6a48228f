/** Decoding one symbol with a decode table. */
module TableLookup {
  import opened Arith
  import opened Packed
  import opened Bits
  import opened Words
  import opened BitBuffer
  import opened BitReader
  import opened DecodeTable
  import opened BuildDecodeTable
  import opened Slots
  import opened Items

  predicate IsLiteral(e: u32) {
    e >= LITERAL
  }

  predicate IsExceptional(e: u32) {
    e / EXCEPTIONAL % 2 == 1
  }

  predicate IsEnd(e: u32) {
    e / END_OF_BLOCK % 2 == 1
  }

  // ---- the parts of an entry

  lemma EntryParts(dr: seq<u32>, s: nat, m: nat, hi: nat, lo: nat)
    requires Results(dr) && s < |dr| && m <= 15 && dr[s] == hi * 0x1_0000 + lo && lo <= 13
    ensures var e := MakeEntry(dr, s, m); e / 0x1_0000 == hi && e % 256 == lo + m && e / 256 % 256 == m
    ensures !IsExceptional(MakeEntry(dr, s, m)) && !IsPointer(MakeEntry(dr, s, m)) && !IsEnd(MakeEntry(dr, s, m))
  {
    var e := MakeEntry(dr, s, m);
    assert e == hi * 0x1_0000 + (lo + 257 * m);
    QuotientIs(e, 0x1_0000, hi, lo + 257 * m);
    QuotientIs(e, 256, hi * 256 + m, lo + m);
    QuotientIs(hi * 256 + m, 256, hi, m);
    QuotientIs(e, 0x8000, 2 * hi, lo + 257 * m);
    QuotientIs(e, 0x4000, 4 * hi, lo + 257 * m);
    QuotientIs(e, 0x2000, 8 * hi, lo + 257 * m);
  }

  lemma EndParts(dr: seq<u32>, s: nat, m: nat)
    requires Results(dr) && s < |dr| && m <= 15 && dr[s] == EXCEPTIONAL + END_OF_BLOCK
    ensures var e := MakeEntry(dr, s, m); e % 256 == m && IsEnd(e) && !IsPointer(e) && !IsLiteral(e)
  {
    var e := MakeEntry(dr, s, m);
    QuotientIs(e, 256, 0xA0 + m, m);
    QuotientIs(e, 0x2000, 5, 257 * m);
    QuotientIs(e, 0x4000, 2, 0x2000 + 257 * m);
  }

  lemma PointerExceptional(start: nat, bits: nat, tableBits: nat)
    requires start < 0x8000 && bits <= 15 && tableBits <= 15
    ensures IsExceptional(SubtablePointer(start, bits, tableBits))
  {
    var e := SubtablePointer(start, bits, tableBits);
    QuotientIs(e, 0x8000, 2 * start + 1, 0x4000 + bits * 256 + tableBits);
  }

  /** Where the subtable entry of a pointer is. */
  function SubIndex(e: u32, bitbuf: nat): nat {
    e / 0x1_0000 + Low(bitbuf, e / 256 % 64)
  }

  lemma PointerIndex(t: seq<u32>, tb: nat, x: nat, start: nat, bits: nat, bitbuf: nat, filled: nat)
    requires Pow2(tb) <= |t| && tb <= 15 && PointsTo(t, tb, x, start, bits)
    requires bitbuf == Low(Shr(x, tb), filled) && bits <= filled
    ensures var e := t[Low(x, tb)];
      && IsPointer(e) && IsExceptional(e) && e % 256 == tb
      && SubIndex(e, bitbuf) == start + Low(Shr(x, tb), bits) < |t|
  {
    hide Low, Shr, Pow2, IsPointer, IsExceptional;
    PointerFlags(start, bits, tb);
    PointerStart(start, bits, tb);
    PointerBits(start, bits, tb);
    PointerExceptional(start, bits, tb);
    LowOfLow(Shr(x, tb), bits, filled);
    LowFitsIn(Shr(x, tb), bits);
  }

  lemma LowFitsIn(x: nat, n: nat)
    ensures Low(x, n) < Pow2(n)
  {
  }

  /** The extra bits lie behind the codeword in the bits that an entry consumes. */
  lemma ExtraAfterCode(x: nat, n: nat, m: nat, extra: nat, saved: nat)
    requires m <= n && Low(saved, m + extra) == Low(Shr(x, n - m), m + extra)
    ensures Shr(Low(saved, m + extra), m) == Low(Shr(x, n), extra)
  {
    hide Low, Shr;
    ShrShr(x, n - m, m);
    LowOfShr(Shr(x, n - m), m, extra);
  }

  /** What a lookup has found: the symbol s of n bits; m of them are counted in the entry, the others
      are consumed. */
  ghost predicate Entry(lens: seq<nat>, dr: seq<u32>, x: nat, s: nat, n: nat, m: nat, e: u32) {
    Results(dr) && s < |dr| && 1 <= m <= n <= 15 && Means(lens, x, s, n) && e == MakeEntry(dr, s, m)
  }

  /** The main entry is no pointer when the symbol fits. */
  lemma MainEntry(t: seq<u32>, lens: seq<nat>, dr: seq<u32>, tb: nat, x: nat, s: nat, n: nat)
    requires Decoder(t, lens, dr, tb) && Means(lens, x, s, n)
    ensures s < |dr| && 1 <= n <= 15 && Pow2(tb) <= |t| && 1 <= tb <= 15 && Results(dr)
    ensures n <= tb ==> t[Low(x, tb)] == MakeEntry(dr, s, n)
    ensures n > tb ==>
      exists start: nat, bits: nat ::
        && PointsTo(t, tb, x, start, bits)
        && n - tb <= bits && t[start + Low(Shr(x, tb), bits)] == MakeEntry(dr, s, n - tb)
  {
    hide Means, MakeEntry, Low, Shr, Pow2;
    assert Found(t, dr, tb, x, s, n);
  }

  lemma PointerBelow(e: u32, s: nat, dr: seq<u32>, m: nat)
    requires Results(dr) && s < |dr| && m <= 15 && e == MakeEntry(dr, s, m)
    ensures !IsPointer(e)
  {
    EntryIsNoPointer(dr, s, m);
  }

  /** Looks up and consumes a literal/length symbol together with its extra bits.  `saved` is the
      buffer that the extra bits can be taken from. */
  method NextLitlen(r: BitReader, T: array<u32>, tb: nat, ghost ll: seq<nat>, ghost max: nat)
    returns (entry: u32, saved: nat, ghost s: nat, ghost n: nat, ghost m: nat)
    requires r.Valid() && r.Left() >= 24 && Accepted(ll, max) && max >= 1 && |ll| > 0
    requires Decoder(T[..], ll, LitlenResults(), tb)
    modifies r
    ensures Entry(ll, LitlenResults(), old(r.Rest()), s, n, m, entry)
    ensures r.Valid() && r.Position() == old(r.Position()) + (n - m) + entry % 256
    ensures r.Left() >= old(r.Left()) - LENGTH_MAX_BITS
    ensures Low(saved, entry % 256) == Low(Shr(old(r.Rest()), n - m), entry % 256)
  {
    hide Low, Shr, Pow2, IsPointer, Means, Results, MakeEntry, Decoder, Accepted;
    ghost var x := r.Rest();
    s, n := MeaningExists(ll, max, x);
    MainEntry(T[..], ll, LitlenResults(), tb, x, s, n);
    entry := T[Low(r.bitbuf, tb)];
    LowOfLow(x, tb, r.filled);
    assert entry == T[..][Low(x, tb)];
    saved := r.bitbuf;
    m := n;
    if n <= tb {
      LitlenBits(s, n);
      PointerBelow(entry, s, LitlenResults(), n);
      LowOfLow(x, entry % 256, r.filled);
      ShrNothing(x);
    } else {
      ghost var start: nat, bits: nat :| PointsTo(T[..], tb, x, start, bits)
        && n - tb <= bits && T[..][start + Low(Shr(x, tb), bits)] == MakeEntry(LitlenResults(), s, n - tb);
      ShiftedBuffer(x, tb, r.filled);
      PointerIndex(T[..], tb, x, start, bits, Shr(r.bitbuf, tb), r.filled - tb);
    }
    r.Consume(entry);
    if IsPointer(entry) {
      entry := T[SubIndex(entry, r.bitbuf)];
      m := n - tb;
      LitlenBits(s, m);
      saved := r.bitbuf;
      LowOfLow(Shr(x, tb), entry % 256, r.filled);
      r.Consume(entry);
    }
  }

  lemma ShiftedBuffer(x: nat, n: nat, filled: nat)
    requires n <= filled
    ensures Shr(Low(x, filled), n) == Low(Shr(x, n), filled - n)
  {
    LowOfShr(x, n, filled - n);
  }

  /** A literal/length symbol has at most 5 extra bits. */
  lemma LitlenBits(s: nat, m: nat)
    requires s < 288 && 1 <= m <= 15 && Results(LitlenResults())
    ensures 1 <= MakeEntry(LitlenResults(), s, m) % 256 <= 5 + m
  {
    if s < END_SYM {
      EntryParts(LitlenResults(), s, m, 0x8000 + s, 0);
    } else if s == END_SYM {
      EndParts(LitlenResults(), s, m);
    } else {
      EntryParts(LitlenResults(), s, m, LENGTH_BASE[s - 257], LENGTH_EXTRA[s - 257]);
    }
  }

  const LITLEN_TABLE_BITS: nat := 11
  const OFFSET_TABLE_BITS: nat := 8
  const LENGTH_MAX_BITS: nat := 20
  const OFFSET_MAX_BITS: nat := 28

  /** An offset entry says which offset it stands for. */
  lemma OffsetEntry(x: nat, s: nat, n: nat, m: nat, saved: nat, ol: seq<nat>, e: u32)
    requires Entry(ol, OffsetResults(), x, s, n, m, e) && Low(saved, e % 256) == Low(Shr(x, n - m), e % 256)
    ensures OffsetFrom(ol, x, e / 0x1_0000 + Shr(Low(saved, e % 256), e / 256 % 256), n - m + e % 256, s, n)
  {
    hide Low, Shr, Pow2, IsExceptional, IsPointer, IsEnd, Means, Results, MakeEntry;
    EntryParts(OffsetResults(), s, m, OFFSET_BASE[s], OFFSET_EXTRA[s]);
    ExtraAfterCode(x, n, m, OFFSET_EXTRA[s], saved);
  }

  lemma OffsetEntryBits(s: nat, m: nat)
    requires s < 32 && m <= 15 && Results(OffsetResults())
    ensures MakeEntry(OffsetResults(), s, m) % 256 <= 13 + m && !IsExceptional(MakeEntry(OffsetResults(), s, m))
  {
    EntryParts(OffsetResults(), s, m, OFFSET_BASE[s], OFFSET_EXTRA[s]);
  }

  /** Looks up an offset symbol, consuming what the entry does not count. */
  method OffsetLookup(r: BitReader, T: array<u32>, ghost ol: seq<nat>, ghost max: nat)
    returns (ok: bool, entry: u32, ghost s: nat, ghost n: nat, ghost m: nat)
    requires r.Valid() && r.Left() >= 24 && (r.Consumable() >= OFFSET_MAX_BITS ==> r.Left() >= OFFSET_MAX_BITS)
    requires Accepted(ol, max) && max >= 1 && |ol| > 0 && Decoder(T[..], ol, OffsetResults(), OFFSET_TABLE_BITS)
    modifies r
    ensures n > m || ok ==> m <= n && Means(ol, old(r.Rest()), s, n)
    ensures ok ==> r.Valid() && Entry(ol, OffsetResults(), old(r.Rest()), s, n, m, entry)
    ensures ok ==> entry % 256 <= r.Left() && r.Position() == old(r.Position()) + (n - m)
    ensures !ok ==> n > m && old(r.Position()) + (n - m) > 8 * |r.data|
  {
    hide Low, Shr, Pow2, IsPointer, IsExceptional, Means, Results, MakeEntry, Decoder, Accepted;
    ghost var x := r.Rest();
    var tb := OFFSET_TABLE_BITS;
    s, n := MeaningExists(ol, max, x);
    MainEntry(T[..], ol, OffsetResults(), tb, x, s, n);
    entry := T[Low(r.bitbuf, tb)];
    LowOfLow(x, tb, r.filled);
    assert entry == T[..][Low(x, tb)];
    m := n;
    if n <= tb {
      OffsetEntryBits(s, n);
    } else {
      ghost var start: nat, bits: nat :| PointsTo(T[..], tb, x, start, bits)
        && n - tb <= bits && T[..][start + Low(Shr(x, tb), bits)] == MakeEntry(OffsetResults(), s, n - tb);
      ShiftedBuffer(x, tb, r.filled);
      PointerIndex(T[..], tb, x, start, bits, Shr(r.bitbuf, tb), r.filled - tb);
      OffsetEntryBits(s, n - tb);
    }
    ok := true;
    if IsExceptional(entry) {
      r.Consume(tb);
      entry := T[SubIndex(entry, r.bitbuf)];
      m := n - tb;
      if r.Consumable() < OFFSET_MAX_BITS {
        ok := r.Refill();
      }
    }
  }

  /** Decodes a match offset, refilling the buffer if need be. */
  method NextOffset(r: BitReader, T: array<u32>, ghost ol: seq<nat>, ghost max: nat)
    returns (ok: bool, offset: nat, ghost n: nat)
    requires r.Valid() && r.Left() >= 24 && (r.Consumable() >= OFFSET_MAX_BITS ==> r.Left() >= OFFSET_MAX_BITS)
    requires Accepted(ol, max) && max >= 1 && |ol| > 0 && Decoder(T[..], ol, OffsetResults(), OFFSET_TABLE_BITS)
    modifies r
    ensures ok ==> r.Valid() && OffsetMeans(ol, old(r.Rest()), offset, n) && r.Position() == old(r.Position()) + n
    ensures !ok ==> forall o: nat, k: nat :: OffsetMeans(ol, old(r.Rest()), o, k) ==>
                      old(r.Position()) + k > 8 * |r.data|
  {
    hide Low, Shr, Pow2, IsPointer, IsExceptional, Means, Results, MakeEntry, Decoder, Accepted, OffsetFrom;
    ghost var x, p := r.Rest(), r.Position();
    var entry;
    ghost var s, k, m;
    ok, entry, s, k, m := OffsetLookup(r, T, ol, max);
    offset, n := 0, 0;
    if !ok {
      TooLong(ol, max, x, s, k, k - m);
    } else {
      var saved := r.bitbuf;
      LowOfLow(r.Rest(), entry % 256, r.filled);
      ShrShr(Value(r.data), p, k - m);
      OffsetEntry(x, s, k, m, saved, ol, entry);
      offset := entry / 0x1_0000 + Shr(Low(saved, entry % 256), entry / 256 % 256);
      n := k - m + entry % 256;
      r.Consume(entry);
    }
  }

  /** The bits consumed so far belong to every offset that the bits can mean. */
  lemma TooLong(ol: seq<nat>, max: nat, x: nat, s: nat, k: nat, tb: nat)
    requires Accepted(ol, max) && max >= 1 && Means(ol, x, s, k) && k >= tb
    ensures forall o: nat, n: nat :: OffsetMeans(ol, x, o, n) ==> n >= tb
  {
    hide Means, Accepted, Low, Shr;
    forall o: nat, n: nat | OffsetMeans(ol, x, o, n) ensures n >= tb {
      var s': nat, k': nat :| OffsetFrom(ol, x, o, n, s', k');
      MeaningUnique(ol, max, x, s, k, s', k');
    }
  }
}
