/** Emitted blocks mean, to the decompressor, the bytes that they were made from. */
module Deflate {
  import opened Arith
  import opened Bits
  import opened Words
  import opened BitBuffer
  import opened BitWriter
  import opened BuildDecodeTable
  import opened Items
  import opened Parsing
  import opened Precode
  import opened DecodeLens
  import opened Header
  import opened StaticCodes
  import opened Inflate

  /** The bytes hold the bits, and maybe more behind them. */
  ghost predicate Carries(out: seq<u8>, bits: Bits) {
    |bits| <= 8 * |out| && Begins(Value(out), bits)
  }

  /** The bytes are exactly these bits and, in the last byte, zeros behind them. */
  ghost predicate Packs(out: seq<u8>, bits: Bits) {
    |bits| <= 8 * |out| < |bits| + 8 && Value(out) == Le(bits)
  }

  lemma PacksCarries(out: seq<u8>, bits: Bits)
    requires Packs(out, bits)
    ensures Carries(out, bits)
  {
    hide Value, Low, Le;
    LeBound(bits);
    LowFits(Le(bits), |bits|);
  }

  /** Bits are packed into bytes in one way only. */
  lemma PacksUnique(a: seq<u8>, b: seq<u8>, bits: Bits)
    requires Packs(a, bits) && Packs(b, bits)
    ensures a == b
  {
    hide Value, Le;
    ValueInjective(a, b);
  }

  lemma CarriesPrefix(out: seq<u8>, a: Bits, b: Bits)
    requires Carries(out, a + b)
    ensures Carries(out, a) && Begins(Shr(Value(out), |a|), b)
  {
    BeginsAppend(Value(out), a, b);
  }

  /** From bit pos to bit pos' there are whole blocks that turn the bytes `before` into `after`; they
      end the stream or it goes on behind them. */
  ghost predicate BlocksTo(out: seq<u8>, pos: nat, before: seq<u8>, isFinal: bool, pos': nat, after: seq<u8>) {
    if isFinal then Inflates(out, pos, before, pos', after)
    else forall end: nat, all: seq<u8> :: Inflates(out, pos', after, end, all) ==> Inflates(out, pos, before, end, all)
  }

  lemma OneBlockTo(out: seq<u8>, pos: nat, before: seq<u8>, pos': nat, after: seq<u8>)
    requires BlockStep(out, pos, before, pos', after)
    ensures BlocksTo(out, pos, before, IsFinal(out, pos), pos', after)
  {
    hide BlockStep, Inflates, IsFinal;
    if IsFinal(out, pos) {
      InflatesFinal(out, pos, before, pos', after, pos', after);
    } else {
      forall end: nat, all: seq<u8> | Inflates(out, pos', after, end, all)
        ensures Inflates(out, pos, before, end, all)
      {
        InflatesOn(out, pos, before, pos', after, end, all);
      }
    }
  }

  lemma BlocksThen(out: seq<u8>, p: nat, a: seq<u8>, q: nat, b: seq<u8>, isFinal: bool, r: nat, c: seq<u8>)
    requires BlocksTo(out, p, a, false, q, b) && BlocksTo(out, q, b, isFinal, r, c)
    ensures BlocksTo(out, p, a, isFinal, r, c)
  {
    hide Inflates;
  }

  /** The bits from `bits` to `bits'` are blocks that turn `before` into `after`. */
  ghost predicate Encodes(bits: Bits, before: seq<u8>, isFinal: bool, bits': Bits, after: seq<u8>) {
    && bits <= bits'
    && forall out: seq<u8> :: Carries(out, bits') ==> BlocksTo(out, |bits|, before, isFinal, |bits'|, after)
  }

  lemma EncodesThen(a: Bits, x: seq<u8>, b: Bits, y: seq<u8>, isFinal: bool, c: Bits, z: seq<u8>)
    requires Encodes(a, x, false, b, y) && Encodes(b, y, isFinal, c, z)
    ensures Encodes(a, x, isFinal, c, z)
  {
    hide Carries, BlocksTo;
    forall out: seq<u8> | Carries(out, c) ensures BlocksTo(out, |a|, x, isFinal, |c|, z) {
      assert c == b + c[|b|..];
      CarriesPrefix(out, b, c[|b|..]);
      BlocksThen(out, |a|, x, |b|, y, isFinal, |c|, z);
    }
  }

  lemma NothingEncoded(bits: Bits, before: seq<u8>)
    ensures Encodes(bits, before, false, bits, before)
  {
    hide Carries, Inflates;
  }

  // ---- stored blocks

  lemma {:induction false} ValueInjective(a: seq<u8>, b: seq<u8>)
    requires |a| == |b| && Value(a) == Value(b)
    ensures a == b
  {
    if a != [] {
      QuotientIs(Value(a), 256, Value(a[1..]), a[0]);
      QuotientIs(Value(b), 256, Value(b[1..]), b[0]);
      ValueInjective(a[1..], b[1..]);
      assert a == [a[0]] + a[1..] && b == [b[0]] + b[1..];
    }
  }

  lemma BytesThere(out: seq<u8>, i: nat, b: seq<u8>)
    requires i + |b| <= |out| && Begins(Shr(Value(out), 8 * i), ByteBits(b))
    ensures out[i..i + |b|] == b
  {
    hide Value, Shr, Low, Front;
    ValueSlice(out, i, i + |b|);
    ValueBound(b);
    LeFront(Value(b), 8 * |b|);
    LowFits(Value(b), 8 * |b|);
    ValueInjective(out[i..i + |b|], b);
  }

  lemma TypeOf(out: seq<u8>, pos: nat, f: nat, t: nat, n: nat, rest: Bits)
    requires f < 2 && t < 4 && n >= 2 && Begins(Shr(Value(out), pos), Front(f, 1) + Front(t, n) + rest)
    ensures Type(out, pos) == t && (IsFinal(out, pos) <==> f == 1)
    ensures Begins(Shr(Value(out), pos + 1 + n), rest)
  {
    hide Value, Shr, Low, Front, Begins, Pow2;
    var x := Shr(Value(out), pos);
    BeginsAppend(x, Front(f, 1) + Front(t, n), rest);
    BeginsAppend(x, Front(f, 1), Front(t, n));
    Small(n);
    FieldIs(x, f, 1);
    FieldIs(Shr(x, 1), t, n);
    LowOfLow(Shr(x, 1), 2, n);
    LowFits(t, 2);
    ShrShr(Value(out), pos, 1);
    ShrShr(Value(out), pos, 1 + n);
  }

  lemma Small(n: nat)
    requires n >= 2
    ensures Pow2(1) == 2 && Pow2(2) == 4 <= Pow2(n)
  {
    Pow2Monotone(2, n);
  }

  lemma HeaderOfStored(len: nat)
    requires len <= 0xFFFF
    ensures Le16(StoredHeader(len), 0) == len && Le16(StoredHeader(len), 2) == 0xFFFF - len
  {
  }

  /** The bytes of a stored block, found in the output. */
  lemma StoredThere(out: seq<u8>, i: nat, b: seq<u8>)
    requires |b| <= 0xFFFF && i + 4 + |b| <= |out| && out[i..i + 4 + |b|] == StoredHeader(|b|) + b
    ensures Le16(out, i) == |b| && Le16(out, i + 2) == 0xFFFF - |b|
    ensures out[i + 4..i + 4 + |b|] == b
  {
    hide StoredHeader;
    HeaderOfStored(|b|);
    var all := out[i..i + 4 + |b|];
    assert forall k :: 0 <= k < 4 ==> out[i + k] == all[k] == StoredHeader(|b|)[k];
    assert out[i + 4..i + 4 + |b|] == all[4..];
  }

  lemma PaddedEnd(pos: nat)
    ensures pos + 3 + Padding(pos + 3) == 8 * ((pos + 3 + 7) / 8)
  {
    var q, r := (pos + 3) / 8, (pos + 3) % 8;
    assert pos + 3 == 8 * q + r;
  }

  lemma StoredStep(out: seq<u8>, pos: nat, before: seq<u8>, isFinal: bool, b: seq<u8>)
    requires |b| <= 0xFFFF && Begins(Shr(Value(out), pos), StoredBits(pos, isFinal, b))
    requires pos + |StoredBits(pos, isFinal, b)| <= 8 * |out|
    ensures BlockStep(out, pos, before, pos + |StoredBits(pos, isFinal, b)|, before + b)
    ensures IsFinal(out, pos) <==> isFinal
  {
    hide Value, Shr, Low, Front, Begins, IsFinal, StoredHeader, ByteBits, Le16, Static, Dynamic, Padding;
    TypeOf(out, pos, if isFinal then 1 else 0, 0, 2 + Padding(pos + 3), ByteBits(StoredHeader(|b|) + b));
    var i := (pos + 3 + 7) / 8;
    PaddedEnd(pos);
    BytesThere(out, i, StoredHeader(|b|) + b);
    StoredThere(out, i, b);
  }

  lemma StoredEncodes(bits: Bits, before: seq<u8>, isFinal: bool, b: seq<u8>)
    requires |b| <= 0xFFFF
    ensures Encodes(bits, before, isFinal, bits + StoredBits(|bits|, isFinal, b), before + b)
  {
    hide StoredBits, BlocksTo, BlockStep, IsFinal;
    var bits' := bits + StoredBits(|bits|, isFinal, b);
    forall out: seq<u8> | Carries(out, bits') ensures BlocksTo(out, |bits|, before, isFinal, |bits'|, before + b) {
      CarriesPrefix(out, bits, StoredBits(|bits|, isFinal, b));
      StoredStep(out, |bits|, before, isFinal, b);
      OneBlockTo(out, |bits|, before, |bits'|, before + b);
    }
  }

  // ---- blocks with codes

  lemma HuffmanStep(out: seq<u8>, pos: nat, before: seq<u8>, ll: seq<nat>, ol: seq<nat>, items: seq<Item>)
    requires AllEncodable(ll, ol, items) && Reachable(before, items)
    requires Begins(Shr(Value(out), pos), BlockBits(ll, ol, items))
    ensures Huffman(out, pos, before, ll, ol, pos + |BlockBits(ll, ol, items)|, Expand(before, items))
  {
    hide BlockBits, BlockMeans, AllEncodable, Begins, Reachable, Expand;
    BlockBitsMean(ll, ol, Shr(Value(out), pos), items);
  }

  ghost function TypeField(isFinal: bool, t: nat): Bits {
    Front(if isFinal then 1 else 0, 1) + Front(t, 2)
  }

  lemma StaticStep(out: seq<u8>, pos: nat, before: seq<u8>, isFinal: bool, items: seq<Item>)
    requires AllEncodable(StaticLitlen(), StaticOffset(), items) && Reachable(before, items)
    requires Begins(Shr(Value(out), pos), TypeField(isFinal, 1) + BlockBits(StaticLitlen(), StaticOffset(), items))
    ensures BlockStep(out, pos, before, pos + 3 + |BlockBits(StaticLitlen(), StaticOffset(), items)|,
                      Expand(before, items))
    ensures IsFinal(out, pos) <==> isFinal
  {
    hide BlockBits, AllEncodable, Begins, Reachable, Expand, Front, Huffman, IsFinal, Stored, Dynamic;
    TypeOf(out, pos, if isFinal then 1 else 0, 1, 2, BlockBits(StaticLitlen(), StaticOffset(), items));
    HuffmanStep(out, pos + 3, before, StaticLitlen(), StaticOffset(), items);
  }

  lemma StaticEncodes(bits: Bits, before: seq<u8>, isFinal: bool, items: seq<Item>)
    requires AllEncodable(StaticLitlen(), StaticOffset(), items) && Reachable(before, items)
    ensures Encodes(bits, before, isFinal,
                    bits + TypeField(isFinal, 1) + BlockBits(StaticLitlen(), StaticOffset(), items),
                      Expand(before, items))
  {
    hide BlockBits, AllEncodable, Reachable, Expand, BlocksTo, BlockStep, IsFinal, Front;
    var more := TypeField(isFinal, 1) + BlockBits(StaticLitlen(), StaticOffset(), items);
    var bits' := bits + TypeField(isFinal, 1) + BlockBits(StaticLitlen(), StaticOffset(), items);
    assert bits' == bits + more;
    forall out: seq<u8> | Carries(out, bits')
      ensures BlocksTo(out, |bits|, before, isFinal, |bits'|, Expand(before, items))
    {
      CarriesPrefix(out, bits, more);
      StaticStep(out, |bits|, before, isFinal, items);
      OneBlockTo(out, |bits|, before, |bits'|, Expand(before, items));
    }
  }

  /** A header and the code lengths that it encodes. */
  ghost predicate HeaderFor(nl: nat, no: nat, m: nat, pl: seq<nat>, pre: seq<PreItem>, ll: seq<nat>, ol: seq<nat>) {
    && HeaderParts(nl, no, m, pl, pre) && Accepted(pl, MAX_PRE_LEN) && NoneStoredFrom(pl, m)
    && |ll| == nl && |ol| == no && ExpandsTo(pre, ll + ol)
    && Accepted(ll, MAX_LEN) && Accepted(ol, MAX_LEN)
  }

  lemma DynamicStep(out: seq<u8>, pos: nat, before: seq<u8>, isFinal: bool, items: seq<Item>, ll: seq<nat>,
                    ol: seq<nat>, nl: nat, no: nat, m: nat, pl: seq<nat>, pre: seq<PreItem>)
    requires HeaderFor(nl, no, m, pl, pre, ll, ol) && AllEncodable(ll, ol, items) && Reachable(before, items)
    requires Begins(Shr(Value(out), pos), TypeField(isFinal, 2)
                    + (HeaderBits(nl, no, m, pl, pre) + BlockBits(ll, ol, items)))
    ensures BlockStep(out, pos, before, pos + 3 + |HeaderBits(nl, no, m, pl, pre)| + |BlockBits(ll, ol, items)|,
                      Expand(before, items))
    ensures IsFinal(out, pos) <==> isFinal
  {
    hide BlockBits, HeaderBits, HeaderMeans, AllEncodable, Begins, Reachable, Expand, Front, Huffman, IsFinal, Stored,
      Static, Accepted, HeaderParts, NoneStoredFrom, ExpandsTo;
    var hb, bb := HeaderBits(nl, no, m, pl, pre), BlockBits(ll, ol, items);
    TypeOf(out, pos, if isFinal then 1 else 0, 2, 2, hb + bb);
    BeginsAppend(Shr(Value(out), pos + 3), hb, bb);
    ShrShr(Value(out), pos + 3, |hb|);
    HeaderBitsMean(Shr(Value(out), pos + 3), nl, no, m, pl, pre, ll + ol);
    HuffmanStep(out, pos + 3 + |hb|, before, ll, ol, items);
    assert (ll + ol)[..nl] == ll && (ll + ol)[nl..] == ol;
    assert DynamicFrom(out, pos, before, pos + 3 + |hb| + |bb|, Expand(before, items), |hb|, nl, no, ll + ol);
  }

  lemma DynamicEncodes(bits: Bits, before: seq<u8>, isFinal: bool, items: seq<Item>, ll: seq<nat>, ol: seq<nat>,
                       nl: nat, no: nat, m: nat, pl: seq<nat>, pre: seq<PreItem>)
    requires HeaderFor(nl, no, m, pl, pre, ll, ol) && AllEncodable(ll, ol, items) && Reachable(before, items)
    ensures Encodes(bits, before, isFinal,
                    bits + TypeField(isFinal, 2) + HeaderBits(nl, no, m, pl, pre) + BlockBits(ll, ol, items),
                    Expand(before, items))
  {
    hide BlockBits, HeaderBits, AllEncodable, Reachable, Expand, BlocksTo, BlockStep, IsFinal, Front, Accepted,
      HeaderParts, NoneStoredFrom, ExpandsTo;
    var hb, bb := HeaderBits(nl, no, m, pl, pre), BlockBits(ll, ol, items);
    var more := TypeField(isFinal, 2) + (hb + bb);
    var bits' := bits + TypeField(isFinal, 2) + hb + bb;
    assert bits' == bits + more;
    forall out: seq<u8> | Carries(out, bits')
      ensures BlocksTo(out, |bits|, before, isFinal, |bits'|, Expand(before, items))
    {
      CarriesPrefix(out, bits, more);
      DynamicStep(out, |bits|, before, isFinal, items, ll, ol, nl, no, m, pl, pre);
      OneBlockTo(out, |bits|, before, |bits'|, Expand(before, items));
    }
  }
}
