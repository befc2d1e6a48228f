/** The input bitstream of the decompressor: a word-sized buffer that is filled from the input bytes
    and then from implicit zero bytes. */
module BitReader {
  import opened Arith
  import opened Packed
  import opened Bits
  import opened Words
  import opened BitBuffer

  class BitReader {
    const data: seq<u8>
    /** The size of the buffer, 4 or 8. */
    const wordBytes: nat
    /** Whether whole words are loaded. */
    const fast: bool

    var inNext: nat
    var bitbuf: nat
    /** Only the low 8 bits count. */
    var bitsleft: u32
    var overread: nat
    /** The number of bits in the buffer that are those of the stream. */
    ghost var filled: nat

    function Left(): (n: nat)
      reads this
    {
      bitsleft % 256
    }

    function MaxLeft(): int {
      if fast then 8 * wordBytes - 1 else 8 * wordBytes
    }

    function Consumable(): int {
      MaxLeft() - 7
    }

    /** The number of bits consumed so far. */
    ghost function Position(): int
      reads this
    {
      8 * (inNext + overread) - Left()
    }

    ghost predicate Valid()
      reads this
    {
      && (wordBytes == 4 || wordBytes == 8)
      && inNext <= |data| && overread <= wordBytes && (overread > 0 ==> inNext == |data|)
      && Left() <= MaxLeft() && Position() >= 0
      && Left() <= filled <= 8 * wordBytes
      && bitbuf == Low(Shr(Value(data), Position()), filled)
    }

    /** The stream from the next unconsumed bit on. */
    ghost function Rest(): nat
      requires Position() >= 0
      reads this
    {
      Shr(Value(data), Position())
    }

    constructor (data: seq<u8>, wordBytes: nat, fast: bool)
      requires wordBytes == 4 || wordBytes == 8
      ensures Valid() && Position() == 0 && this.data == data && this.wordBytes == wordBytes && this.fast == fast
    {
      this.data, this.wordBytes, this.fast := data, wordBytes, fast;
      inNext, bitbuf, bitsleft, overread, filled := 0, 0, 0, 0, 0;
    }

    /** Loads a whole word at once. */
    method RefillBranchless()
      requires Valid() && fast && inNext + wordBytes <= |data| && overread == 0
      modifies this
      ensures Valid() && Position() == old(Position()) && Left() >= Consumable() && filled == 8 * wordBytes
    {
      hide Low, Shr, Value, Pow2, Or, FillCount;
      var word := Value(data[inNext..inNext + wordBytes]);
      FillAdvance(bitsleft, wordBytes);
      LoadedWord(data, inNext, wordBytes, Left(), bitbuf, filled);
      bitbuf := Or(bitbuf, Low(Pow2(Left()) * word, 8 * wordBytes));
      var advance := wordBytes - 1 - bitsleft / 8 % 8;
      inNext := inNext + advance;
      filled := 8 * wordBytes;
      bitsleft := FillCount(bitsleft, wordBytes);
    }

    /** Loads one byte. */
    method LoadByte()
      requires Valid() && Left() < Consumable() && inNext < |data| && overread == 0
      modifies this
      ensures Valid() && overread == 0 && Position() == old(Position()) && Left() == old(Left()) + 8
    {
      hide Low, Shr, Value, Pow2, Or;
      LoadedByte(data, inNext, wordBytes, Left(), bitbuf, filled);
      bitbuf := Or(bitbuf, Pow2(Left()) * data[inNext]);
      inNext := inNext + 1;
      Added(bitsleft);
      filled := if filled < Left() + 8 then Left() + 8 else filled;
      bitsleft := bitsleft + 8;
    }

    /** A byte beyond the end of the input counts as zero. */
    method PadByte()
      requires Valid() && Left() < Consumable() && inNext == |data| && overread < wordBytes
      modifies this
      ensures Valid() && Position() == old(Position()) && Left() == old(Left()) + 8
    {
      hide Low, Shr, Value, Pow2;
      overread := overread + 1;
      PastTheEnd(data, 8 * (inNext + overread - 1) - Left(), Left(), filled);
      Added(bitsleft);
      filled := if filled < Left() + 8 then Left() + 8 else filled;
      bitsleft := bitsleft + 8;
    }

    /** Refills the buffer; fails only when bits beyond the end of the input have been consumed. */
    method Refill() returns (ok: bool)
      requires Valid()
      modifies this
      ensures ok ==> Valid() && Position() == old(Position()) && Left() >= Consumable()
      ensures !ok ==> old(Position()) > 8 * |data|
    {
      hide Low, Shr, Value, Pow2, Or;
      if fast && |data| - inNext >= wordBytes {
        RefillBranchless();
        return true;
      }
      while Left() < Consumable()
        invariant Valid() && Position() == old(Position())
        decreases 256 - Left()
      {
        if inNext != |data| {
          LoadByte();
        } else if overread == wordBytes {
          overread := overread + 1;
          return false;
        } else {
          PadByte();
        }
      }
      ok := true;
    }

    /** The next n bits. */
    method Peek(n: nat) returns (x: nat)
      requires Valid() && n <= filled
      ensures x == Low(Rest(), n)
    {
      LowOfLow(Rest(), n, filled);
      x := Low(bitbuf, n);
    }

    /** Consumes as many bits as the low byte of a table entry says; the rest of the entry goes into
        the unused part of `bitsleft`. */
    method Consume(entry: u32)
      requires Valid() && entry % 256 <= Left()
      modifies this
      ensures Valid() && Position() == old(Position()) + entry % 256
      ensures Left() == old(Left()) - entry % 256 && filled == old(filled) - entry % 256
      ensures Rest() == Shr(old(Rest()), entry % 256)
    {
      hide Low, Shr, Value, Pow2;
      var n := entry % 256;
      ShrShr(Value(data), Position(), n);
      LowOfShr(Rest(), n, filled - n);
      bitbuf := Shr(bitbuf, n);
      Subtracted(bitsleft, entry);
      bitsleft := (bitsleft - entry) % 0x1_0000_0000;
      filled := filled - n;
    }

    /** Skips n bytes of the input. */
    method Skip(n: nat)
      requires Valid() && bitbuf == 0 == Left() && overread == 0 && inNext + n <= |data| && Position() == 8 * inNext
      modifies this
      ensures Valid() && Position() == old(Position()) + 8 * n && inNext == old(inNext) + n
    {
      inNext := inNext + n;
      filled := 0;
    }

    /** Goes back to the next byte boundary; fails if bits beyond the input have been consumed. */
    method Align() returns (ok: bool)
      requires Valid()
      modifies this
      ensures ok <==> old(Position()) <= 8 * |data|
      ensures ok ==> Valid() && Position() == 8 * inNext && bitbuf == 0 == Left() && overread == 0
      ensures ok ==> old(Position()) <= 8 * inNext < old(Position()) + 8
    {
      bitsleft := Left();
      if overread > bitsleft / 8 {
        return false;
      }
      inNext := inNext - (bitsleft / 8 - overread);
      overread, bitbuf, bitsleft, filled := 0, 0, 0, 0;
      ok := true;
    }
  }

  /** The bytes that the refill advances by are those that it adds to the count. */
  lemma FillAdvance(bitsleft: u32, wordBytes: nat)
    requires (wordBytes == 4 || wordBytes == 8) && bitsleft % 256 < 8 * wordBytes
    ensures bitsleft / 8 % 8 <= wordBytes - 1
    ensures FillCount(bitsleft, wordBytes) % 256 == bitsleft % 256 + 8 * (wordBytes - 1 - bitsleft / 8 % 8)
    ensures 8 * (wordBytes - 1) <= FillCount(bitsleft, wordBytes) % 256 < 8 * wordBytes
  {
    hide FillCount;
    FillCountLow(bitsleft, wordBytes);
    ByteParts(bitsleft);
  }

  lemma ByteParts(x: u32)
    ensures x % 256 == 8 * (x / 8 % 32) + x % 8
    ensures x / 8 % 8 == x / 8 % 32 % 8
  {
    var bytes := x / 8;
    QuotientIs(x, 256, bytes / 32, 8 * (bytes % 32) + x % 8);
    QuotientIs(bytes, 8, 4 * (bytes / 32) + bytes % 32 / 8, bytes % 32 % 8);
  }

  /** Sets the bits above the low 3 of the bit count to those of the largest count. */
  function FillCount(bitsleft: u32, wordBytes: nat): u32
    requires wordBytes == 4 || wordBytes == 8
  {
    if wordBytes == 4 then bitsleft / 32 * 32 + 24 + bitsleft % 8 else bitsleft / 64 * 64 + 56 + bitsleft % 8
  }

  lemma FillCountLow(x: u32, wordBytes: nat)
    requires (wordBytes == 4 || wordBytes == 8) && x % 256 < 8 * wordBytes
    ensures FillCount(x, wordBytes) % 256 == 8 * (wordBytes - 1) + x % 8
  {
    var a, b := x / 256, x % 256;
    if wordBytes == 4 {
      QuotientIs(x, 32, 8 * a, b);
      QuotientIs(FillCount(x, 4), 256, a, 24 + x % 8);
    } else {
      QuotientIs(x, 64, 4 * a, b);
      QuotientIs(FillCount(x, 8), 256, a, 56 + x % 8);
    }
  }

  lemma Added(x: u32)
    requires x % 256 < 248 && x < 0x1_0000_0000 - 8
    ensures (x + 8) % 256 == x % 256 + 8
  {
  }

  lemma Subtracted(x: u32, y: u32)
    ensures x % 256 >= y % 256 ==> (x - y) % 0x1_0000_0000 % 256 == x % 256 - y % 256
  {
  }

  lemma LoadedWord(data: seq<u8>, i: nat, wordBytes: nat, left: nat, buf: nat, filled: nat)
    requires i + wordBytes <= |data| && left <= 8 * i && left <= filled <= 8 * wordBytes
    requires buf == Low(Shr(Value(data), 8 * i - left), filled)
    ensures Or(buf, Low(Pow2(left) * Value(data[i..i + wordBytes]), 8 * wordBytes))
      == Low(Shr(Value(data), 8 * i - left), 8 * wordBytes)
  {
    hide Low, Shr, Value, Pow2, Or;
    var s, w := Shr(Value(data), 8 * i - left), Value(data[i..i + wordBytes]);
    ShrShr(Value(data), 8 * i - left, left);
    ValueSlice(data, i, i + wordBytes);
    LowShifted(w, left, 8 * wordBytes - left);
    LowOfLow(Shr(s, left), 8 * wordBytes - left, 8 * wordBytes);
    OrInto(s, filled, left, 8 * wordBytes - left);
  }

  lemma LoadedByte(data: seq<u8>, i: nat, wordBytes: nat, left: nat, buf: nat, filled: nat)
    requires i < |data| && left <= 8 * i && left <= filled <= 8 * wordBytes
    requires buf == Low(Shr(Value(data), 8 * i - left), filled)
    ensures Or(buf, Pow2(left) * data[i])
      == Low(Shr(Value(data), 8 * i - left), if filled < left + 8 then left + 8 else filled)
  {
    hide Low, Shr, Value, Pow2, Or;
    var s := Shr(Value(data), 8 * i - left);
    ShrShr(Value(data), 8 * i - left, left);
    ValueSlice(data, i, i + 1);
    ValueOne(data[i]);
    assert data[i..i + 1] == [data[i]];
    OrInto(s, filled, left, 8);
  }

  /** Beyond the end of the input the buffer already holds the zeros of the stream. */
  lemma PastTheEnd(data: seq<u8>, p: nat, left: nat, filled: nat)
    requires p + left >= 8 * |data| && left <= filled
    ensures var n := if filled < left + 8 then left + 8 else filled;
      Low(Shr(Value(data), p), filled) == Low(Shr(Value(data), p), n)
  {
    hide Low, Shr, Value, Pow2;
    var s := Shr(Value(data), p);
    ShrShr(Value(data), p, filled);
    ValueEnds(data, p + filled);
    ShrLow(s, filled);
    var n := if filled < left + 8 then left + 8 else filled;
    Pow2Monotone(filled, n);
    LowFits(s, n);
  }
}
