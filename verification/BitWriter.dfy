/** The output bitstream of the compressor: bits are packed into a word-sized buffer and flushed to
    the output bytes. */
module BitWriter {
  import opened Arith
  import opened Bits
  import opened Words
  import opened BitBuffer

  /** The lowest n bytes of x, lowest first. */
  function BytesOf(x: nat, n: nat): (b: seq<u8>)
    ensures |b| == n
  {
    if n == 0 then [] else [x % 256] + BytesOf(x / 256, n - 1)
  }

  lemma {:induction false} ShrByte(x: nat, n: nat)
    ensures Shr(x / 256, 8 * n) == Shr(x, 8 * (n + 1)) && Low(x, 8 * (n + 1)) == x % 256 + 256 * Low(x / 256, 8 * n)
  {
    hide Shr, Low, Pow2;
    Pow2Eight();
    ShrLow(x, 8);
    ShrShr(x, 8, 8 * n);
    LowOfShr(x, 8, 8 * n);
  }

  lemma {:induction false} BytesValue(x: nat, n: nat)
    ensures Value(BytesOf(x, n)) == Low(x, 8 * n)
  {
    if n > 0 {
      BytesValue(x / 256, n - 1);
      ShrByte(x, n - 1);
      assert BytesOf(x, n)[1..] == BytesOf(x / 256, n - 1);
    }
  }

  lemma {:induction false} BytesPrefix(x: nat, m: nat, n: nat)
    requires m <= n
    ensures BytesOf(x, n)[..m] == BytesOf(x, m)
  {
    if m > 0 {
      BytesPrefix(x / 256, m - 1, n - 1);
      assert BytesOf(x, n)[..m] == [x % 256] + BytesOf(x / 256, n - 1)[..m - 1];
    }
  }

  /** The bytes and the buffer hold exactly the bits. */
  ghost predicate Hold(bytes: seq<u8>, bitbuf: nat, bitcount: nat, bits: Bits) {
    && |bits| == 8 * |bytes| + bitcount
    && bitbuf < Pow2(bitcount)
    && Le(bits) == Value(bytes) + Pow2(8 * |bytes|) * bitbuf
  }

  lemma HoldMore(bytes: seq<u8>, bitbuf: nat, bitcount: nat, bits: Bits, v: nat, n: nat)
    requires Hold(bytes, bitbuf, bitcount, bits) && v < Pow2(n)
    ensures Hold(bytes, Or(bitbuf, Pow2(bitcount) * v), bitcount + n, bits + Front(v, n))
  {
    hide Le, Low, Shr, Pow2, Value, Or, Front;
    var p := Pow2(8 * |bytes|);
    BufferMore(bitbuf, bitcount, v, n);
    LeAppend(bits, Front(v, n));
    LeFront(v, n);
    LowFits(v, n);
    Pow2Add(8 * |bytes|, bitcount);
    Associate(p, Pow2(bitcount), v);
    Distribute(p, bitbuf, Pow2(bitcount) * v);
  }

  lemma BufferMore(bitbuf: nat, bitcount: nat, v: nat, n: nat)
    requires bitbuf < Pow2(bitcount) && v < Pow2(n)
    ensures Or(bitbuf, Pow2(bitcount) * v) == bitbuf + Pow2(bitcount) * v < Pow2(bitcount + n)
  {
    hide Pow2, Or;
    OrAbove(bitbuf, bitcount, v);
    Pow2Add(bitcount, n);
    MulMonotone(Pow2(bitcount), v + 1, Pow2(n));
    Distribute(Pow2(bitcount), v, 1);
  }

  /** Moving k bytes from the buffer to the output. */
  lemma HoldFlushed(bytes: seq<u8>, bitbuf: nat, bitcount: nat, bits: Bits, k: nat)
    requires Hold(bytes, bitbuf, bitcount, bits) && 8 * k <= bitcount
    ensures Hold(bytes + BytesOf(bitbuf, k), Shr(bitbuf, 8 * k), bitcount - 8 * k, bits)
  {
    hide Le, Low, Shr, Pow2, Value, BytesOf;
    var p := Pow2(8 * |bytes|);
    ValueAppend(bytes, BytesOf(bitbuf, k));
    BytesValue(bitbuf, k);
    ShrLow(bitbuf, 8 * k);
    Pow2Add(8 * |bytes|, 8 * k);
    Associate(p, Pow2(8 * k), Shr(bitbuf, 8 * k));
    Distribute(p, Low(bitbuf, 8 * k), Pow2(8 * k) * Shr(bitbuf, 8 * k));
    ShrBounds(bitbuf, bitcount - 8 * k, 8 * k);
    assert 8 * |bytes| + 8 * k == 8 * |bytes + BytesOf(bitbuf, k)|;
  }

  // ---- whole bytes

  ghost function ByteBits(b: seq<u8>): (r: Bits)
    ensures |r| == 8 * |b|
  {
    Front(Value(b), 8 * |b|)
  }

  /** Bytes behind a byte boundary. */
  lemma HoldBytes(bytes: seq<u8>, bits: Bits, b: seq<u8>)
    requires Hold(bytes, 0, 0, bits)
    ensures Hold(bytes + b, 0, 0, bits + ByteBits(b))
  {
    hide Le, Value, Front;
    ValueAppend(bytes, b);
    ValueBound(b);
    LeFront(Value(b), 8 * |b|);
    LowFits(Value(b), 8 * |b|);
    LeAppend(bits, ByteBits(b));
  }

  /** How many bits are left in the last byte behind n bits. */
  function Padding(n: nat): nat {
    (8 - n % 8) % 8
  }

  /** The number of bytes of a stored block and its complement. */
  function StoredHeader(len: nat): (h: seq<u8>)
    requires len <= 0xFFFF
    ensures |h| == 4
  {
    var nlen := 0xFFFF - len;
    [len % 256, len / 256, nlen % 256, nlen / 256]
  }

  /** A stored block that starts behind `pos` bits. */
  ghost function StoredBits(pos: nat, isFinal: bool, b: seq<u8>): (r: Bits)
    requires |b| <= 0xFFFF
    ensures |r| == 3 + Padding(pos + 3) + 32 + 8 * |b|
  {
    Front(if isFinal then 1 else 0, 1) + Front(0, 2 + Padding(pos + 3)) + ByteBits(StoredHeader(|b|) + b)
  }

  lemma HoldStored(bytes: seq<u8>, bitbuf: nat, bitcount: nat, bits: Bits, isFinal: bool, b: seq<u8>, k: nat, v: nat)
    requires Hold(bytes, bitbuf, bitcount, bits) && bitcount < 8 && |b| <= 0xFFFF
    requires 8 * k == bitcount + 3 + Padding(bitcount + 3)
    requires v == Or(bitbuf, Pow2(bitcount) * if isFinal then 1 else 0)
    ensures Hold(bytes + BytesOf(v, k) + StoredHeader(|b|) + b, 0, 0, bits + StoredBits(|bits|, isFinal, b))
  {
    hide Le, Value, Front, Or, StoredHeader, BytesOf, Pow2;
    var f := if isFinal then 1 else 0;
    var pad := 2 + Padding(bitcount + 3);
    var b1, b2 := Front(f, 1), Front(0, pad);
    ZeroFits();
    HoldMore(bytes, bitbuf, bitcount, bits, f, 1);
    HoldMore(bytes, v, bitcount + 1, bits + b1, 0, pad);
    OrNothing(v);
    assert Pow2(bitcount + 1) * 0 == 0;
    HoldFlushed(bytes, v, bitcount + 1 + pad, bits + b1 + b2, k);
    HoldEmpty(bytes + BytesOf(v, k), Shr(v, 8 * k), bits + b1 + b2);
    HoldBytes(bytes + BytesOf(v, k), bits + b1 + b2, StoredHeader(|b|) + b);
    SamePadding(|bytes|, bitcount);
    assert bits + StoredBits(|bits|, isFinal, b) == bits + b1 + b2 + ByteBits(StoredHeader(|b|) + b);
    assert bytes + BytesOf(v, k) + StoredHeader(|b|) + b == bytes + BytesOf(v, k) + (StoredHeader(|b|) + b);
  }

  lemma SamePadding(n: nat, bitcount: nat)
    ensures Padding(8 * n + bitcount + 3) == Padding(bitcount + 3)
  {
  }

  lemma {:induction false} OrNothing(v: nat)
    ensures Or(v, 0) == v
  {
    if v > 0 {
      OrNothing(v / 2);
    }
  }

  lemma HoldEmpty(bytes: seq<u8>, bitbuf: nat, bits: Bits)
    requires Hold(bytes, bitbuf, 0, bits)
    ensures bitbuf == 0
  {
  }

  class BitWriter {
    const out: array<u8>
    /** Where the output ends; a few bytes behind it may be overwritten. */
    const end: nat
    const wordBytes: nat
    const fast: bool

    var next: nat
    var bitbuf: nat
    var bitcount: nat
    /** All bits added so far. */
    ghost var bits: Bits

    /** The output is exact until it is full, and full only when the bits reach its end. */
    ghost predicate Valid()
      reads this, out
    {
      && (wordBytes == 4 || wordBytes == 8)
      && next <= end && end + 8 <= out.Length
      && bitcount < 8 * wordBytes && bitbuf < Pow2(bitcount)
      && (next < end ==> Hold(out[..next], bitbuf, bitcount, bits))
      && (next == end ==> |bits| >= 8 * end)
    }

    constructor (out: array<u8>, end: nat, wordBytes: nat, fast: bool)
      requires wordBytes == 4 || wordBytes == 8
      requires end + 8 <= out.Length
      ensures Valid() && bits == [] && next == 0 && bitcount == 0
      ensures this.out == out && this.end == end && this.wordBytes == wordBytes && this.fast == fast
    {
      this.out, this.end, this.wordBytes, this.fast := out, end, wordBytes, fast;
      next, bitbuf, bitcount, bits := 0, 0, 0, [];
    }

    /** Adds the n low bits of v, lowest first. */
    method AddBits(v: nat, n: nat)
      requires Valid() && v < Pow2(n) && bitcount + n < 8 * wordBytes
      modifies this
      ensures Valid() && bits == old(bits) + Front(v, n) && bitcount == old(bitcount) + n && next == old(next)
    {
      hide Pow2, Hold, Or, Front;
      BufferMore(bitbuf, bitcount, v, n);
      if next < end {
        HoldMore(out[..next], bitbuf, bitcount, bits, v, n);
      }
      bitbuf := Or(bitbuf, Pow2(bitcount) * v);
      bitcount := bitcount + n;
      bits := bits + Front(v, n);
    }

    /** Writes all whole bytes of the buffer to the output. */
    method FlushBits()
      requires Valid()
      modifies this, out
      ensures Valid() && bits == old(bits) && bitcount < 8
      ensures old(next) <= next
    {
      if fast {
        FlushWord();
      } else {
        while bitcount >= 8
          invariant Valid() && bits == old(bits) && old(next) <= next
        {
          FlushByte();
        }
      }
    }

    method FlushWord()
      requires Valid()
      modifies this, out
      ensures Valid() && bits == old(bits) && bitcount < 8
      ensures old(next) <= next
    {
      hide Pow2, Hold, Shr, BytesOf;
      var k := bitcount / 8;
      if next < end {
        HoldFlushed(out[..next], bitbuf, bitcount, bits, k);
        HoldLength(out[..next], bitbuf, bitcount, bits);
      }
      ShrBounds(bitbuf, bitcount - 8 * k, 8 * k);
      BytesPrefix(bitbuf, k, wordBytes);
      ghost var before := out[..next];
      var word := BytesOf(bitbuf, wordBytes);
      forall i | next <= i < next + wordBytes {
        out[i] := word[i - next];
      }
      assert out[..next] == before;
      assert out[next..next + k] == word[..k];
      assert out[..next + k] == before + BytesOf(bitbuf, k);
      bitbuf := Shr(bitbuf, 8 * k);
      next := next + if end - next < k then end - next else k;
      bitcount := bitcount % 8;
    }

    method FlushByte()
      requires Valid() && bitcount >= 8
      modifies this, out
      ensures Valid() && bits == old(bits) && bitcount == old(bitcount) - 8
      ensures old(next) <= next
    {
      hide Pow2, Hold, Shr;
      if next < end {
        HoldFlushed(out[..next], bitbuf, bitcount, bits, 1);
        HoldLength(out[..next], bitbuf, bitcount, bits);
      }
      ShrBounds(bitbuf, bitcount - 8, 8);
      ghost var before := out[..next];
      out[next] := bitbuf % 256;
      assert out[..next + 1] == before + BytesOf(bitbuf, 1);
      if next != end {
        next := next + 1;
      }
      bitcount := bitcount - 8;
      bitbuf := Shr(bitbuf, 8);
    }

    /** Writes a stored block: the type bits, padding to a byte boundary, and the bytes.  Fails, and
        ends the output, when there is no room. */
    method StoredBlock(isFinal: bool, b: seq<u8>) returns (ok: bool)
      requires Valid() && bitcount < 8 && |b| <= 0xFFFF
      modifies this, out
      ensures Valid() && bits == old(bits) + StoredBits(|old(bits)|, isFinal, b)
      ensures ok ==> bitcount == 0
      ensures bitcount < 8
      ensures !ok ==> next == end
    {
      hide Pow2, Hold, Or, StoredHeader, BytesOf;
      ghost var more := StoredBits(|bits|, isFinal, b);
      if end - next < (bitcount + 3 + 7) / 8 + 4 + |b| {
        if next < end {
          HoldLength(out[..next], bitbuf, bitcount, bits);
        }
        PaddedBytes(|bits|, bitcount);
        next := end;
        bits := bits + more;
        return false;
      }
      HoldLength(out[..next], bitbuf, bitcount, bits);
      var k := (bitcount + 3 + 7) / 8;
      PaddedBytes(|bits|, bitcount);
      var v := Or(bitbuf, Pow2(bitcount) * if isFinal then 1 else 0);
      HoldStored(out[..next], bitbuf, bitcount, bits, isFinal, b, k, v);
      var all := BytesOf(v, k) + StoredHeader(|b|) + b;
      ghost var before := out[..next];
      forall i | next <= i < next + |all| {
        out[i] := all[i - next];
      }
      assert out[..next + |all|] == before + BytesOf(v, k) + StoredHeader(|b|) + b;
      next := next + |all|;
      bits := bits + more;
      bitbuf, bitcount := 0, 0;
      ZeroFits();
      HoldLength(out[..next], 0, 0, bits);
      ok := true;
    }
  }

  lemma ZeroFits()
    ensures 0 < Pow2(0) && Pow2(1) == 2
  {
  }

  /** The bytes that the padded type bits take. */
  lemma PaddedBytes(n: nat, bitcount: nat)
    requires bitcount < 8
    ensures bitcount + 3 + Padding(bitcount + 3) == 8 * ((bitcount + 3 + 7) / 8)
    ensures n % 8 == bitcount ==> Padding(n + 3) == Padding(bitcount + 3)
    ensures n + 3 + Padding(n + 3) >= n
  {
    if bitcount + 3 <= 8 {
      assert (bitcount + 3 + 7) / 8 == 1;
    } else {
      assert (bitcount + 3 + 7) / 8 == 2;
    }
    if n % 8 == bitcount {
      SamePadding(n / 8, bitcount);
    }
  }

  lemma HoldLength(bytes: seq<u8>, bitbuf: nat, bitcount: nat, bits: Bits)
    requires Hold(bytes, bitbuf, bitcount, bits)
    ensures |bits| == 8 * |bytes| + bitcount
  {
  }
}
