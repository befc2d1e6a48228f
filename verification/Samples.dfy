/** Three small streams that section 3.2 of RFC 1951 gives a meaning, one for each type of block: they fix the
    order of bits, codewords and fields that compressor and decompressor agree on. */
module Samples {
  import opened Arith
  import opened Bits
  import opened LengthCounts
  import opened Canonical
  import opened Reverse
  import opened Words
  import opened BitBuffer
  import opened BuildDecodeTable
  import opened Slots
  import opened Items
  import opened Precode
  import opened DecodeLens
  import opened Header
  import opened StaticCodes
  import opened HuffmanCode
  import opened Inflate
  import opened Deflate

  lemma Joins(a: Bits, b: Bits, x: nat, y: nat, p: nat)
    requires Le(a) == x && Le(b) == y && Pow2(|a|) == p
    ensures Le(a + b) == x + p * y
  {
    LeAppend(a, b);
  }

  /** Bytes whose value is that of the bits, and nothing behind them, carry the bits. */
  lemma CarriesAll(out: seq<u8>, bits: Bits)
    requires Value(out) == Le(bits) && |bits| <= 8 * |out|
    ensures Carries(out, bits)
  {
    LeBound(bits);
    LowFits(Le(bits), |bits|);
  }

  /** A final block from the start of the bytes is a whole stream. */
  lemma OneBlock(out: seq<u8>, bits: Bits, all: seq<u8>)
    requires Encodes([], [], true, bits, all) && Carries(out, bits)
    ensures Inflates(out, 0, [], |bits|, all)
  {
    assert BlocksTo(out, 0, [], true, |bits|, all);
  }

  // ---- a stored block

  /** 1, the number 1 and its complement, and the byte itself. */
  lemma StoredSample()
    ensures Inflates([1, 1, 0, 254, 255, 97], 0, [], 48, [97])
  {
    hide Static, Dynamic, Shr, Low, Value;
    var out: seq<u8> := [1, 1, 0, 254, 255, 97];
    StoredType(out);
    assert out[5..6] == [97];
    assert Stored(out, 0, [], 48, [97]);
    assert Blocks(out, 0, [], 48, [97], 1);
  }

  lemma StoredType(out: seq<u8>)
    requires |out| > 0 && out[0] == 1
    ensures IsFinal(out, 0) && Type(out, 0) == 0
  {
    assert Value(out) == 1 + 256 * Value(out[1..]);
    assert Shr(Value(out), 0) == Value(out) && Shr(Value(out), 1) == 128 * Value(out[1..]);
    assert Low(Value(out), 1) == 1 && Low(128 * Value(out[1..]), 2) == 0;
  }

  // ---- a static block

  /** The codewords travel with their first bit first. */
  lemma StaticSymbol(s: nat)
    requires s < 144 || 256 <= s < 280
    ensures HasCode(StaticLitlen(), s) && |Code(StaticLitlen(), s)| == if s < 144 then 8 else 7
    ensures Le(Code(StaticLitlen(), s)) == if s < 144 then Reversed(48 + s, 8) else Reversed(s - 256, 7)
  {
    hide CodeValue, StaticLitlen;
    StaticCodewords(s);
    LeDigits(if s < 144 then 48 + s else s - 256, if s < 144 then 8 else 7);
  }

  lemma StaticOffsetSymbol(s: nat)
    requires s < 32
    ensures HasCode(StaticOffset(), s) && |Code(StaticOffset(), s)| == 5
    ensures Le(Code(StaticOffset(), s)) == Reversed(s, 5)
  {
    hide CodeValue, StaticOffset;
    StaticOffsetCodewords(s);
    LeDigits(s, 5);
  }

  lemma SampleSlots()
    ensures LengthSlot(12) == 8 && OffsetSlot(6) == 4
  {
    hide SlotUpTo;
    SlotIs(LENGTH_BASE, 12, LENGTH_SLOTS - 1, 8);
    SlotIs(OFFSET_BASE, 6, OFFSET_SLOTS - 1, 4);
  }

  lemma SlotIs(base: seq<nat>, x: nat, k: nat, r: nat)
    requires r <= k < |base| && base[r] <= x && forall j :: r < j <= k ==> x < base[j]
    ensures SlotUpTo(base, x, k) == r
  {
  }

  lemma OneBit()
    ensures Front(1, 1) == [true] && Le([true]) == 1
  {
  }

  lemma LengthSample()
    ensures HasCode(StaticLitlen(), 265) && LengthSlot(12) == 8
    ensures var b := LengthBits(StaticLitlen(), 12); |b| == 8 && Le(b) == 200
  {
    hide StaticLitlen, Code, Le, Pow2, LengthSlot, Reversed, Front;
    OneBit();
    SmallPowers();
    SampleSlots();
    StaticSymbol(265);
    ReversedMatch();
    Joins(Code(StaticLitlen(), 265), [true], 72, 1, 128);
  }

  lemma OffsetSample()
    ensures HasCode(StaticOffset(), 4) && OffsetSlot(6) == 4
    ensures var b := OffsetBits(StaticOffset(), 6); |b| == 6 && Le(b) == 36
  {
    hide StaticOffset, Code, Le, Pow2, OffsetSlot, Reversed, Front;
    OneBit();
    SmallPowers();
    SampleSlots();
    StaticOffsetSymbol(4);
    ReversedMatch();
    Joins(Code(StaticOffset(), 4), [true], 4, 1, 32);
  }

  /** Twelve bytes from six bytes back: both have an extra bit. */
  lemma MatchSample()
    ensures Encodable(StaticLitlen(), StaticOffset(), Match(12, 6))
    ensures var b := ItemBits(StaticLitlen(), StaticOffset(), Match(12, 6)); |b| == 14 && Le(b) == 9416
  {
    SmallPowers();
    hide StaticLitlen, StaticOffset, LengthBits, OffsetBits, Le, Pow2, LengthSlot, OffsetSlot;
    LengthSample();
    OffsetSample();
    Joins(LengthBits(StaticLitlen(), 12), OffsetBits(StaticOffset(), 6), 200, 36, 256);
  }

  lemma ReversedMatch()
    ensures Reversed(9, 7) == 72 && Reversed(4, 5) == 4
  {
    SmallPowers();
  }

  function Letters(k: nat): seq<Item>
    requires k <= 6
    decreases 6 - k
  {
    if k == 6 then [Match(12, 6)] else [Literal(97 + k)] + Letters(k + 1)
  }

  /** The bits of the letters from the k-th on, and of the match. */
  lemma LetterSample(k: nat, code: nat, tail: nat)
    requires k < 6 && Reversed(145 + k, 8) == code && Encodables(StaticLitlen(), StaticOffset(), Letters(k + 1))
    requires Le(ItemsBits(StaticLitlen(), StaticOffset(), Letters(k + 1))) == tail
    ensures Encodables(StaticLitlen(), StaticOffset(), Letters(k))
    ensures var b := ItemsBits(StaticLitlen(), StaticOffset(), Letters(k));
      Le(b) == code + 256 * tail
      && |b| == 8 + |ItemsBits(StaticLitlen(), StaticOffset(), Letters(k + 1))|
  {
    hide StaticLitlen, StaticOffset, Code, LengthSlot, OffsetSlot, Reversed, Letters;
    var items := [Literal(97 + k)] + Letters(k + 1);
    LettersFrom(k);
    StaticSymbol(97 + k);
    assert items[1..] == Letters(k + 1);
    assert Pow2(8) == 256;
    Joins(Code(StaticLitlen(), 97 + k), ItemsBits(StaticLitlen(), StaticOffset(), Letters(k + 1)),
          code, tail, 256);
  }

  lemma LettersFrom(k: nat)
    requires k < 6
    ensures Letters(k) == [Literal(97 + k)] + Letters(k + 1)
  {
  }

  lemma LastSample()
    ensures Encodables(StaticLitlen(), StaticOffset(), Letters(6))
    ensures var b := ItemsBits(StaticLitlen(), StaticOffset(), Letters(6)); Le(b) == 9416 && |b| == 14
  {
    hide StaticLitlen, StaticOffset, ItemBits, Encodable;
    MatchSample();
    var items := [Match(12, 6)];
    assert items[1..] == [];
    var b := ItemBits(StaticLitlen(), StaticOffset(), Match(12, 6));
    assert b + [] == b;
  }

  lemma ReversedLetters()
    ensures Reversed(145, 8) == 137 && Reversed(146, 8) == 73 && Reversed(147, 8) == 201
    ensures Reversed(148, 8) == 41 && Reversed(149, 8) == 169 && Reversed(150, 8) == 105
  {
    SmallPowers();
    hide Pow2;
    assert Reversed(9, 4) == 9;
    assert Reversed(18, 5) == 9 && Reversed(36, 6) == 9 && Reversed(37, 6) == 41;
    assert Reversed(72, 7) == 9 && Reversed(73, 7) == 73 && Reversed(74, 7) == 41 && Reversed(75, 7) == 105;
  }

  lemma LettersSample()
    ensures Encodables(StaticLitlen(), StaticOffset(), Letters(0))
    ensures var b := ItemsBits(StaticLitlen(), StaticOffset(), Letters(0));
      Le(b) == 2650484555978983817 && |b| == 62
  {
    hide StaticLitlen, StaticOffset, ItemsBits, Encodables, Letters, Reversed, Le, Encodable, ItemBits;
    LastSample();
    ReversedLetters();
    LetterSample(5, 105, 9416);
    LetterSample(4, 169, 2410601);
    LetterSample(3, 41, 617114025);
    LetterSample(2, 201, 157981190441);
    LetterSample(1, 73, 40443184753097);
    LetterSample(0, 137, 10353455296792905);
  }

  /** The letters from a to f, three times. */
  function Text(): (data: seq<u8>)
    ensures |data| == 18 && forall i :: 0 <= i < 18 ==> data[i] == 97 + i % 6
  {
    seq(18, i requires 0 <= i < 18 => 97 + i % 6)
  }

  lemma TextRepeats()
    ensures forall i :: 0 <= i < 6 ==> Text()[i] == 97 + i
    ensures forall i :: 6 <= i < 18 ==> Text()[i] == Text()[i - 6]
  {
    forall i | 6 <= i < 18 ensures Text()[i] == Text()[i - 6] {
      assert i % 6 == (i - 6) % 6;
    }
  }

  lemma {:induction false} LettersTile(k: nat)
    requires k <= 6
    ensures Tiles(Text(), k, Letters(k), 18)
    decreases 6 - k
  {
    TextRepeats();
    hide Text, Letters;
    if k < 6 {
      LettersTile(k + 1);
      LettersFrom(k);
      var items := [Literal(97 + k)] + Letters(k + 1);
      assert items[1..] == Letters(k + 1);
    } else {
      LastLetters();
      assert [Match(12, 6)][1..] == [];
    }
  }

  lemma LastLetters()
    ensures Letters(6) == [Match(12, 6)]
  {
  }

  lemma StaticFields()
    ensures Le(TypeField(true, 1)) == 3 && Le(TypeField(true, 2)) == 5
  {
    assert Front(1, 1) == [true] && Front(1, 2) == [true, false] && Front(2, 2) == [false, true];
    var a, b := TypeField(true, 1), TypeField(true, 2);
    assert a == [true, true, false] && b == [true, false, true];
    assert a[1..] == [true, false] && a[1..][1..] == [false] && a[1..][1..][1..] == [];
    assert b[1..] == [false, true] && b[1..][1..] == [true] && b[1..][1..][1..] == [];
  }

  /** Six literals and a match in the static codes. */
  lemma StaticSample()
    ensures Inflates([75, 76, 74, 78, 73, 77, 67, 38, 1], 0, [], 72, Text())
  {
    hide StaticLitlen, StaticOffset, ItemsBits, Encodables, Letters, Reversed, Le, Front, Pow2, Inflates, Code, Text,
      Value, Expand, Reachable, Tiles;
    var items := Letters(0);
    LettersSample();
    StaticSymbol(END_SYM);
    ReversedNothing(7);
    StaticFields();
    SmallPowers();
    var body, end := ItemsBits(StaticLitlen(), StaticOffset(), items), Code(StaticLitlen(), END_SYM);
    Behind(body, end);
    Joins(TypeField(true, 1), body + end, 3, 2650484555978983817, 8);
    LettersTile(0);
    TilesExpand(Text(), 0, items, 18);
    assert Text()[..0] == [] && Text()[..18] == Text();
    StaticEncodes([], [], true, items);
    var bits := TypeField(true, 1) + (body + end);
    assert [] + TypeField(true, 1) + (body + end) == bits;
    StaticSampleValue();
    CarriesAll([75, 76, 74, 78, 73, 77, 67, 38, 1], bits);
    OneBlock([75, 76, 74, 78, 73, 77, 67, 38, 1], bits, Text());
  }

  lemma ReversedNothing(n: nat)
    ensures Reversed(0, n) == 0
  {
    ReversedZero(n);
  }

  /** Zeros behind bits add nothing. */
  lemma Behind(a: Bits, b: Bits)
    requires Le(b) == 0
    ensures Le(a + b) == Le(a)
  {
    LeAppend(a, b);
  }

  lemma StaticSampleValue()
    ensures Value([75, 76, 74, 78, 73, 77, 67, 38, 1]) == 21203876447831870539
  {
  }

  // ---- a dynamic block

  /** Two codewords of one bit. */
  ghost predicate Two(lens: seq<nat>, a: nat, b: nat) {
    a < b < |lens| && forall s :: 0 <= s < |lens| ==> lens[s] == if s == a || s == b then 1 else 0
  }

  lemma {:induction false} TwoCount(lens: seq<nat>, a: nat, b: nat, m: nat)
    requires Two(lens, a, b) && m <= |lens|
    ensures Count(lens[..m], 1) == if m <= a then 0 else if m <= b then 1 else 2
  {
    hide Count;
    if m == 0 {
      assert lens[..0] == [];
      CountOfNothing(1);
    } else {
      TwoCount(lens, a, b, m - 1);
      CountPrefix(lens, m - 1, 1);
    }
  }

  lemma TwoCodes(lens: seq<nat>, a: nat, b: nat, max: nat)
    requires Two(lens, a, b) && max >= 1
    ensures Accepted(lens, max) && HasCode(lens, a) && HasCode(lens, b)
    ensures Code(lens, a) == [false] && Code(lens, b) == [true]
  {
    hide Count, Used;
    assert lens[..|lens|] == lens;
    TwoCount(lens, a, b, |lens|);
    TwoCount(lens, a, b, a);
    TwoCount(lens, a, b, b);
    UsedStep(lens, 0);
    PairUsed(lens, max);
    assert CodeValue(lens, a) == 0 && CodeValue(lens, b) == 1;
    assert Digits(0, 1) == [false] && Digits(1, 1) == [true];
  }

  /** The precode: one bit for the length 1, one for long runs of zeros. */
  function SamplePre(): (pl: seq<nat>)
    ensures |pl| == PRECODE_SYMS && forall s :: 0 <= s < PRECODE_SYMS ==> pl[s] == if s == 1 || s == 18 then 1 else 0
  {
    seq(PRECODE_SYMS, s requires 0 <= s < PRECODE_SYMS => if s == 1 || s == 18 then 1 else 0)
  }

  /** Only the byte 97 and the end of the block occur. */
  function SampleLitlen(): (ll: seq<nat>)
    ensures |ll| == 257 && forall s :: 0 <= s < 257 ==> ll[s] == if s == 97 || s == 256 then 1 else 0
  {
    seq(257, s requires 0 <= s < 257 => if s == 97 || s == 256 then 1 else 0)
  }

  /** 97 zeros, a one, 138 and 20 zeros, and two ones, of which the second is for the offsets. */
  function SampleItems(): seq<PreItem> {
    [PreItem(18, 86), PreItem(1, 0), PreItem(18, 127), PreItem(18, 9), PreItem(1, 0), PreItem(1, 0)]
  }

  /** The k-th item stands for the lengths from i to j. */
  lemma ExpandsBy(items: seq<PreItem>, k: nat, all: seq<nat>, i: nat, j: nat)
    requires k < |items| && i < j <= |all| && ExpandsTo(items[..k], all[..i])
    requires items[k].sym < REPEAT || items[k].sym == MANY_ZEROS
    requires j - i == if items[k].sym < REPEAT then 1 else 11 + items[k].extra
    requires forall q :: i <= q < j ==> all[q] == if items[k].sym < REPEAT then items[k].sym else 0
    ensures ExpandsTo(items[..k + 1], all[..j])
  {
    hide ExpandsTo;
    assert items[..k + 1] == items[..k] + [items[k]];
    ExpandsMore(items[..k], all[..i], items[k]);
    assert ExpandOne(all[..i], items[k]) == all[..j];
  }

  lemma SampleExpands()
    ensures ExpandsTo(SampleItems(), SampleLitlen() + [1])
  {
    hide ExpandsTo;
    var all, items := SampleLitlen() + [1], SampleItems();
    NothingExpands();
    assert items[..0] == [] && items[..6] == items && all[..0] == [] && all[..258] == all;
    ExpandsBy(items, 0, all, 0, 97);
    ExpandsBy(items, 1, all, 97, 98);
    ExpandsBy(items, 2, all, 98, 236);
    ExpandsBy(items, 3, all, 236, 256);
    ExpandsBy(items, 4, all, 256, 257);
    ExpandsBy(items, 5, all, 257, 258);
  }

  lemma NothingExpands()
    ensures ExpandsTo([], [])
  {
  }

  // ---- the bits of its header

  lemma BigPowers()
    ensures Pow2(9) == 512 && Pow2(17) == 131072 && Pow2(27) == 134217728
    ensures Pow2(51) == 2251799813685248 && Pow2(54) == 18014398509481984
  {
    SmallPowers();
    hide Pow2;
    Pow2Add(9, 8);
    Pow2Add(17, 10);
    Pow2Add(27, 12);
    Pow2Add(39, 12);
    Pow2Add(51, 3);
  }

  lemma FrontIs(v: nat, n: nat)
    requires v < Pow2(n)
    ensures Le(Front(v, n)) == v
  {
    LeFront(v, n);
    LowFits(v, n);
  }

  /** The lengths of the symbols 18 and 1 are third and last but one. */
  lemma {:induction false} SamplePreLens(m: nat)
    requires m <= 18 && PrecodeLens(SamplePre())
    ensures Le(PreLenBits(SamplePre(), m)) == if m <= 2 then 0 else if m <= 17 then 64 else 2251799813685312
  {
    hide Le, Pow2, SamplePre, Front;
    SmallPowers();
    BigPowers();
    NoBits();
    if m > 0 {
      SamplePreLens(m - 1);
      SamplePreLen(m - 1);
      var v := SamplePre()[PERMUTATION[m - 1]];
      FrontIs(v, 3);
      LeAppend(PreLenBits(SamplePre(), m - 1), Front(v, 3));
      assert v == 0 ==> Pow2(3 * (m - 1)) * v == 0;
      assert v == 1 ==> Pow2(3 * (m - 1)) * v == Pow2(3 * (m - 1));
    }
  }

  lemma SamplePreLen(i: nat)
    requires i < 18
    ensures PERMUTATION[i] < PRECODE_SYMS && SamplePre()[PERMUTATION[i]] == if i == 2 || i == 17 then 1 else 0
  {
    MiddleOutwards(i);
  }

  /** One more item: its codeword, and what it says of the number of lengths. */
  lemma PreItemMore(pl: seq<nat>, items: seq<PreItem>, k: nat, so: nat, p: nat, code: bool)
    requires k < |items| && PreEncodable(pl, items) && Code(pl, items[k].sym) == [code]
    requires PreEncodable(pl, items[..k]) && Le(PreItemsBits(pl, items[..k])) == so
    requires Pow2(|PreItemsBits(pl, items[..k])|) == p
    ensures PreEncodable(pl, items[..k + 1])
    ensures var b := PreItemsBits(pl, items[..k + 1]);
      && |b| == |PreItemsBits(pl, items[..k])| + 1 + ExtraBitsOf(items[k].sym)
      && Le(b) == so + p * ((if code then 1 else 0) + 2 * items[k].extra)
  {
    hide Code, HasCode, Le, Pow2, ValidPre;
    var it, front := items[k], items[..k + 1];
    assert AllButLast(front) == items[..k];
    ExtraFits(it);
    FrontIs(it.extra, ExtraBitsOf(it.sym));
    OneDigit(code);
    Joins([code], Front(it.extra, ExtraBitsOf(it.sym)), if code then 1 else 0, it.extra, 2);
    LeAppend(PreItemsBits(pl, items[..k]), PreItemBits(pl, it));
  }

  lemma NoBits()
    ensures Le([]) == 0 && Pow2(0) == 1
  {
  }

  lemma OneDigit(b: bool)
    ensures Le([b]) == (if b then 1 else 0) && Pow2(1) == 2
  {
  }

  lemma SampleItemBits()
    ensures PreEncodable(SamplePre(), SampleItems())
    ensures var b := PreItemsBits(SamplePre(), SampleItems()); |b| == 27 && Le(b) == 2621101
  {
    hide Code, Le, Pow2, PreItemsBits, SamplePre, CodeValue;
    var pl, items := SamplePre(), SampleItems();
    NoBits();
    SmallPowers();
    BigPowers();
    TwoCodes(pl, 1, 18, 7);
    assert items[..0] == [] && items[..6] == items;
    NoItemBits(pl);
    PreItemMore(pl, items, 0, 0, 1, true);
    PreItemMore(pl, items, 1, 173, 256, false);
    PreItemMore(pl, items, 2, 173, 512, true);
    PreItemMore(pl, items, 3, 130733, 131072, true);
    BitPowers();
    PreItemMore(pl, items, 4, 2621101, 33554432, false);
    PreItemMore(pl, items, 5, 2621101, 67108864, false);
  }

  lemma BitPowers()
    ensures Pow2(25) == 33554432 && Pow2(26) == 67108864
  {
    BigPowers();
    PowStep(25);
    PowStep(26);
  }

  lemma NoItemBits(pl: seq<nat>)
    ensures PreEncodable(pl, []) && PreItemsBits(pl, []) == []
  {
  }

  /** The letter a and the end of the block. */
  lemma SampleBlock()
    ensures AllEncodable(SampleLitlen(), [1], [Literal(97)])
    ensures BlockBits(SampleLitlen(), [1], [Literal(97)]) == [false, true]
  {
    hide Code, SampleLitlen;
    TwoCodes(SampleLitlen(), 97, 256, MAX_LEN);
    assert [Literal(97)][1..] == [];
    assert ItemsBits(SampleLitlen(), [1], [Literal(97)]) == [false] + [];
  }

  lemma SampleHeaderFor()
    ensures HeaderFor(257, 1, 18, SamplePre(), SampleItems(), SampleLitlen(), [1])
  {
    hide Accepted, Code, CodeValue, ExpandsTo, SampleItems, PreEncodable, NoneStoredFrom, SamplePre, SampleLitlen, Two;
    SampleItemBits();
    SampleExpands();
    SampleCodes();
    OneOffset();
    AllStored();
  }

  lemma SampleCodes()
    ensures |SampleLitlen()| == 257 && PrecodeLens(SamplePre())
    ensures Accepted(SamplePre(), MAX_PRE_LEN) && Accepted(SampleLitlen(), MAX_LEN)
  {
    hide Accepted, Code;
    TwoCodes(SamplePre(), 1, 18, MAX_PRE_LEN);
    TwoCodes(SampleLitlen(), 97, 256, MAX_LEN);
  }

  lemma OneOffset()
    ensures Accepted([1], MAX_LEN)
  {
    assert OneCodeword([1], 0);
  }

  lemma AllStored()
    ensures NoneStoredFrom(SamplePre(), 18)
  {
    MiddleOutwards(18);
  }

  /** All fields one behind the other. */
  lemma SampleFields(type_: Bits, a: Bits, b: Bits, c: Bits, d: Bits, e: Bits, f: Bits)
    requires |type_| == 3 && |a| == |b| == 5 && |c| == 4 && |d| == 54 && |e| == 27
    requires Le(type_) == 5 && Le(a) == Le(b) == 0 && Le(c) == 14 && Le(d) == 2251799813685312 && Le(e) == 2621101
    requires Le(f) == 2
    ensures Le(type_ + (a + b + c + d + e + f)) == 640014200164570660897344831493
  {
    hide Le, Pow2;
    SmallPowers();
    BigPowers();
    assert a + b + c + d + e + f == a + (b + (c + (d + (e + f))));
    Joins(e, f, 2621101, 2, 134217728);
    Joins(d, e + f, 2251799813685312, 271056557, 18014398509481984);
    Joins(c, d + (e + f), 14, 4882920838657918250254400, 16);
    Joins(b, c + (d + (e + f)), 0, 78126733418526692004070414, 32);
    Joins(a, b + (c + (d + (e + f))), 0, 2500055469392854144130253248, 32);
    Joins(type_, a + (b + (c + (d + (e + f)))), 5, 80001775020571332612168103936, 8);
  }

  /** The letter a alone, in codes of its own. */
  lemma DynamicSample()
    ensures Inflates([5, 192, 129, 0, 0, 0, 0, 0, 144, 86, 255, 19, 8], 0, [], 100, [97])
  {
    hide Le, Front, Pow2, Inflates, Code, Value, Accepted, ExpandsTo, PreItemsBits, PreLenBits, SamplePre, SampleItems,
      SampleLitlen, BlockBits, AllEncodable, Encodes;
    var out: seq<u8> := [5, 192, 129, 0, 0, 0, 0, 0, 144, 86, 255, 19, 8];
    var items, ll, pl, pre := [Literal(97)], SampleLitlen(), SamplePre(), SampleItems();
    SampleBlock();
    SampleHeaderFor();
    SampleItemBits();
    SamplePreLens(18);
    StaticFields();
    SmallPowers();
    FrontIs(0, 5);
    FrontIs(14, 4);
    TwoDigits();
    SampleFields(TypeField(true, 2), Front(0, 5), Front(0, 5), Front(14, 4), PreLenBits(pl, 18), PreItemsBits(pl, pre),
                 [false, true]);
    ReachesLiteral();
    DynamicEncodes([], [], true, items, ll, [1], 257, 1, 18, pl, pre);
    var hb := HeaderBits(257, 1, 18, pl, pre);
    assert [] + TypeField(true, 2) + hb + [false, true] == TypeField(true, 2) + (hb + [false, true]);
    DynamicSampleValue();
    CarriesAll(out, TypeField(true, 2) + (hb + [false, true]));
    OneBlock(out, TypeField(true, 2) + (hb + [false, true]), [97]);
  }

  lemma ReachesLiteral()
    ensures Reachable([], [Literal(97)]) && Expand([], [Literal(97)]) == [97]
  {
    assert [Literal(97)][1..] == [] && [] + [97] == [97];
  }

  lemma TwoDigits()
    ensures Le([false, true]) == 2
  {
    assert [false, true][1..] == [true] && [true][1..] == [];
  }

  lemma DynamicSampleValue()
    ensures Value([5, 192, 129, 0, 0, 0, 0, 0, 144, 86, 255, 19, 8]) == 640014200164570660897344831493
  {
  }
}
