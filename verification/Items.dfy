/** Literals and matches: the bytes they stand for and the bits that encode them
    (sections 3.2.3 and 3.2.5 of RFC 1951). */
module Items {
  import opened Arith
  import opened Bits
  import opened Canonical
  import opened Reverse
  import opened Words
  import opened BitBuffer
  import opened BuildDecodeTable
  import opened Slots

  datatype Item = Literal(byte: u8) | Match(length: nat, offset: nat)

  ghost predicate ValidItem(it: Item) {
    it.Match? ==> MIN_MATCH <= it.length <= MAX_MATCH && 1 <= it.offset <= MAX_OFFSET
  }

  // ---- the bytes

  /** Copies byte by byte, so that a match can repeat bytes that it has produced itself. */
  function CopyMatch(out: seq<u8>, length: nat, offset: nat): (r: seq<u8>)
    requires 1 <= offset <= |out|
    ensures |r| == |out| + length && r[..|out|] == out
    decreases length
  {
    if length == 0 then out else CopyMatch(out + [out[|out| - offset]], length - 1, offset)
  }

  /** All matches refer to bytes that are there. */
  predicate Reachable(out: seq<u8>, items: seq<Item>)
    decreases |items|
  {
    items == [] ||
    match items[0]
    case Literal(b) => Reachable(out + [b], items[1..])
    case Match(length, offset) => 1 <= offset <= |out| && Reachable(CopyMatch(out, length, offset), items[1..])
  }

  function Expand(out: seq<u8>, items: seq<Item>): (r: seq<u8>)
    requires Reachable(out, items)
    ensures |r| >= |out|
    decreases |items|
  {
    if items == [] then out else
    match items[0]
    case Literal(b) => Expand(out + [b], items[1..])
    case Match(length, offset) => Expand(CopyMatch(out, length, offset), items[1..])
  }

  // ---- the bits

  ghost predicate HasCode(lens: seq<nat>, s: nat) {
    s < |lens| && lens[s] > 0
  }

  /** The codes have codewords for the symbols of the item. */
  ghost predicate Encodable(ll: seq<nat>, ol: seq<nat>, it: Item) {
    match it
    case Literal(b) => HasCode(ll, b)
    case Match(length, offset) =>
      ValidItem(it) && HasCode(ll, FIRST_LENGTH_SYM + LengthSlot(length)) && HasCode(ol, OffsetSlot(offset))
  }

  ghost predicate Encodables(ll: seq<nat>, ol: seq<nat>, items: seq<Item>) {
    forall k :: 0 <= k < |items| ==> Encodable(ll, ol, items[k])
  }

  ghost predicate AllEncodable(ll: seq<nat>, ol: seq<nat>, items: seq<Item>) {
    HasCode(ll, END_SYM) && Encodables(ll, ol, items)
  }

  ghost function LengthBits(ll: seq<nat>, length: nat): Bits
    requires MIN_MATCH <= length <= MAX_MATCH && HasCode(ll, FIRST_LENGTH_SYM + LengthSlot(length))
  {
    LengthExtraFits(length);
    var slot := LengthSlot(length);
    Code(ll, FIRST_LENGTH_SYM + slot) + Front(length - LENGTH_BASE[slot], LENGTH_EXTRA[slot])
  }

  ghost function OffsetBits(ol: seq<nat>, offset: nat): Bits
    requires 1 <= offset <= MAX_OFFSET && HasCode(ol, OffsetSlot(offset))
  {
    OffsetExtraFits(offset);
    var slot := OffsetSlot(offset);
    Code(ol, slot) + Front(offset - OFFSET_BASE[slot], OFFSET_EXTRA[slot])
  }

  ghost function ItemBits(ll: seq<nat>, ol: seq<nat>, it: Item): Bits
    requires Encodable(ll, ol, it)
  {
    match it
    case Literal(b) => Code(ll, b)
    case Match(length, offset) => LengthBits(ll, length) + OffsetBits(ol, offset)
  }

  ghost function ItemsBits(ll: seq<nat>, ol: seq<nat>, items: seq<Item>): Bits
    requires Encodables(ll, ol, items)
  {
    if items == [] then [] else ItemBits(ll, ol, items[0]) + ItemsBits(ll, ol, items[1..])
  }

  /** The items followed by the end-of-block symbol. */
  ghost function BlockBits(ll: seq<nat>, ol: seq<nat>, items: seq<Item>): Bits
    requires AllEncodable(ll, ol, items)
  {
    ItemsBits(ll, ol, items) + Code(ll, END_SYM)
  }

  // ---- what the bits mean to the decoder

  /** The bits x mean the length symbol s, in k bits, and its extra bits. */
  ghost predicate LengthFrom(ll: seq<nat>, x: nat, length: nat, n: nat, s: nat, k: nat) {
    && Means(ll, x, s, k) && FIRST_LENGTH_SYM <= s < FIRST_LENGTH_SYM + |LENGTH_BASE|
    && n == k + LENGTH_EXTRA[s - FIRST_LENGTH_SYM]
    && length == LENGTH_BASE[s - FIRST_LENGTH_SYM] + Low(Shr(x, k), LENGTH_EXTRA[s - FIRST_LENGTH_SYM])
  }

  ghost predicate LengthMeans(ll: seq<nat>, x: nat, length: nat, n: nat) {
    exists s: nat, k: nat :: LengthFrom(ll, x, length, n, s, k)
  }

  ghost predicate OffsetFrom(ol: seq<nat>, x: nat, offset: nat, n: nat, s: nat, k: nat) {
    && Means(ol, x, s, k) && s < |OFFSET_BASE|
    && n == k + OFFSET_EXTRA[s] && offset == OFFSET_BASE[s] + Low(Shr(x, k), OFFSET_EXTRA[s])
  }

  ghost predicate OffsetMeans(ol: seq<nat>, x: nat, offset: nat, n: nat) {
    exists s: nat, k: nat :: OffsetFrom(ol, x, offset, n, s, k)
  }

  /** The n first bits of x mean the item. */
  ghost predicate ItemMeans(ll: seq<nat>, ol: seq<nat>, x: nat, it: Item, n: nat) {
    match it
    case Literal(b) => Means(ll, x, b, n)
    case Match(length, offset) =>
      exists k: nat :: k <= n && LengthMeans(ll, x, length, k) && OffsetMeans(ol, Shr(x, k), offset, n - k)
  }

  /** The n first bits of x mean the items, one after the other. */
  ghost predicate ItemsMean(ll: seq<nat>, ol: seq<nat>, x: nat, items: seq<Item>, n: nat) {
    if items == [] then n == 0
    else
      exists k: nat ::
        && k <= n && ItemsMean(ll, ol, x, items[..|items| - 1], k)
        && ItemMeans(ll, ol, Shr(x, k), items[|items| - 1], n - k)
  }

  /** The n first bits of x mean the items and the end of the block. */
  ghost predicate BlockMeans(ll: seq<nat>, ol: seq<nat>, x: nat, items: seq<Item>, n: nat) {
    exists k: nat :: k <= n && ItemsMean(ll, ol, x, items, k) && Means(ll, Shr(x, k), END_SYM, n - k)
  }

  // ---- encoded items mean themselves

  lemma CodeMeans(lens: seq<nat>, x: nat, s: nat)
    requires HasCode(lens, s) && Begins(x, Code(lens, s))
    ensures Means(lens, x, s, lens[s])
  {
    LeDigits(CodeValue(lens, s), lens[s]);
  }

  lemma LengthBitsMean(ll: seq<nat>, x: nat, length: nat)
    requires MIN_MATCH <= length <= MAX_MATCH && HasCode(ll, FIRST_LENGTH_SYM + LengthSlot(length))
    requires Begins(x, LengthBits(ll, length))
    ensures LengthMeans(ll, x, length, |LengthBits(ll, length)|)
  {
    hide Code, Means, Low, Shr, Begins, LengthSlot, Pow2;
    var slot := LengthSlot(length);
    var s := FIRST_LENGTH_SYM + slot;
    LengthExtraFits(length);
    var extra: nat, n := length - LENGTH_BASE[slot], LENGTH_EXTRA[slot];
    BeginsAppend(x, Code(ll, s), Front(extra, n));
    CodeMeans(ll, x, s);
    ExtraBits(Shr(x, ll[s]), extra, n);
    assert LengthFrom(ll, x, length, |LengthBits(ll, length)|, s, ll[s]);
  }

  lemma OffsetBitsMean(ol: seq<nat>, x: nat, offset: nat)
    requires 1 <= offset <= MAX_OFFSET && HasCode(ol, OffsetSlot(offset)) && Begins(x, OffsetBits(ol, offset))
    ensures OffsetMeans(ol, x, offset, |OffsetBits(ol, offset)|)
  {
    hide Code, Means, Low, Shr, Begins, OffsetSlot, Pow2;
    var slot := OffsetSlot(offset);
    OffsetExtraFits(offset);
    BeginsAppend(x, Code(ol, slot), Front(offset - OFFSET_BASE[slot], OFFSET_EXTRA[slot]));
    CodeMeans(ol, x, slot);
    ExtraBits(Shr(x, ol[slot]), offset - OFFSET_BASE[slot], OFFSET_EXTRA[slot]);
    assert OffsetFrom(ol, x, offset, |OffsetBits(ol, offset)|, slot, ol[slot]);
  }

  lemma ExtraBits(x: nat, v: nat, n: nat)
    requires v < Pow2(n) && Begins(x, Front(v, n))
    ensures Low(x, n) == v
  {
    LeFront(v, n);
    LowFits(v, n);
  }

  lemma ItemBitsMean(ll: seq<nat>, ol: seq<nat>, x: nat, it: Item)
    requires Encodable(ll, ol, it) && Begins(x, ItemBits(ll, ol, it))
    ensures ItemMeans(ll, ol, x, it, |ItemBits(ll, ol, it)|)
  {
    hide Code, Means, Low, Shr, Begins, LengthBits, OffsetBits, LengthMeans, OffsetMeans, LengthSlot, OffsetSlot;
    match it
    case Literal(b) =>
      CodeMeans(ll, x, b);
    case Match(length, offset) =>
      BeginsAppend(x, LengthBits(ll, length), OffsetBits(ol, offset));
      LengthBitsMean(ll, x, length);
      OffsetBitsMean(ol, Shr(x, |LengthBits(ll, length)|), offset);
  }

  // ---- the meaning is unique

  lemma LengthUnique(ll: seq<nat>, max: nat, x: nat, length: nat, n: nat, length': nat, n': nat)
    requires Accepted(ll, max) && max >= 1
    requires LengthMeans(ll, x, length, n) && LengthMeans(ll, x, length', n')
    ensures length == length' && n == n'
  {
    var s: nat, k: nat :| LengthFrom(ll, x, length, n, s, k);
    var s': nat, k': nat :| LengthFrom(ll, x, length', n', s', k');
    hide *;
    LengthFromUnique(ll, max, x, length, n, length', n', s, k, s', k');
  }

  lemma LengthFromUnique(ll: seq<nat>, max: nat, x: nat, length: nat, n: nat, length': nat, n': nat, s: nat, k: nat,
                         s': nat, k': nat)
    requires Accepted(ll, max) && max >= 1
    requires LengthFrom(ll, x, length, n, s, k) && LengthFrom(ll, x, length', n', s', k')
    ensures length == length' && n == n'
  {
    hide Means, Accepted, Low, Shr;
    MeaningUnique(ll, max, x, s, k, s', k');
  }

  lemma OffsetUnique(ol: seq<nat>, max: nat, x: nat, offset: nat, n: nat, offset': nat, n': nat)
    requires Accepted(ol, max) && max >= 1
    requires OffsetMeans(ol, x, offset, n) && OffsetMeans(ol, x, offset', n')
    ensures offset == offset' && n == n'
  {
    var s: nat, k: nat :| OffsetFrom(ol, x, offset, n, s, k);
    var s': nat, k': nat :| OffsetFrom(ol, x, offset', n', s', k');
    hide *;
    OffsetFromUnique(ol, max, x, offset, n, offset', n', s, k, s', k');
  }

  lemma OffsetFromUnique(ol: seq<nat>, max: nat, x: nat, offset: nat, n: nat, offset': nat, n': nat, s: nat, k: nat,
                         s': nat, k': nat)
    requires Accepted(ol, max) && max >= 1
    requires OffsetFrom(ol, x, offset, n, s, k) && OffsetFrom(ol, x, offset', n', s', k')
    ensures offset == offset' && n == n'
  {
    hide Means, Accepted, Low, Shr;
    MeaningUnique(ol, max, x, s, k, s', k');
  }

  /** The symbol that a length starts with. */
  lemma LengthSymbol(ll: seq<nat>, x: nat, length: nat, n: nat) returns (s: nat, k: nat)
    requires LengthMeans(ll, x, length, n)
    ensures Means(ll, x, s, k) && FIRST_LENGTH_SYM <= s
  {
    s, k :| LengthFrom(ll, x, length, n, s, k);
  }

  lemma ItemUnique(ll: seq<nat>, ol: seq<nat>, max: nat, x: nat, it: Item, n: nat, it': Item, n': nat)
    requires Accepted(ll, max) && Accepted(ol, max) && max >= 1
    requires ItemMeans(ll, ol, x, it, n) && ItemMeans(ll, ol, x, it', n')
    ensures it == it' && n == n'
  {
    hide Means, Accepted, LengthMeans, OffsetMeans, Shr;
    if it.Literal? && it'.Literal? {
      MeaningUnique(ll, max, x, it.byte, n, it'.byte, n');
    } else if it.Literal? {
      LiteralOrLength(ll, ol, max, x, it, n, it', n');
    } else if it'.Literal? {
      LiteralOrLength(ll, ol, max, x, it', n', it, n);
    } else {
      var k: nat :| k <= n && LengthMeans(ll, x, it.length, k) && OffsetMeans(ol, Shr(x, k), it.offset, n - k);
      var k': nat :| k' <= n' && LengthMeans(ll, x, it'.length, k') && OffsetMeans(ol, Shr(x, k'), it'.offset, n' - k');
      LengthUnique(ll, max, x, it.length, k, it'.length, k');
      OffsetUnique(ol, max, Shr(x, k), it.offset, n - k, it'.offset, n' - k');
    }
  }

  lemma LiteralOrLength(ll: seq<nat>, ol: seq<nat>, max: nat, x: nat, it: Item, n: nat, it': Item, n': nat)
    requires Accepted(ll, max) && max >= 1 && it.Literal? && it'.Match?
    requires ItemMeans(ll, ol, x, it, n)
    ensures !ItemMeans(ll, ol, x, it', n')
  {
    hide Means, Accepted, LengthMeans, OffsetMeans, Shr;
    if ItemMeans(ll, ol, x, it', n') {
      var k': nat :| k' <= n' && LengthMeans(ll, x, it'.length, k') && OffsetMeans(ol, Shr(x, k'), it'.offset, n' - k');
      var s, k := LengthSymbol(ll, x, it'.length, k');
      MeaningUnique(ll, max, x, it.byte, n, s, k);
    }
  }

  // ---- tilings

  /** The items stand for the bytes of data from p to e. */
  ghost predicate Tiles(data: seq<u8>, p: nat, items: seq<Item>, e: nat)
    decreases |items|
  {
    if items == [] then p == e <= |data|
    else
      match items[0]
      case Literal(b) => p < |data| && data[p] == b && Tiles(data, p + 1, items[1..], e)
      case Match(length, offset) =>
        && 1 <= offset <= p && p + length <= |data|
        && (forall i :: p <= i < p + length ==> data[i] == data[i - offset])
        && Tiles(data, p + length, items[1..], e)
  }

  lemma {:induction false} CopyIsTrue(data: seq<u8>, p: nat, length: nat, offset: nat)
    requires 1 <= offset <= p && p + length <= |data|
    requires forall i :: p <= i < p + length ==> data[i] == data[i - offset]
    ensures CopyMatch(data[..p], length, offset) == data[..p + length]
    decreases length
  {
    if length > 0 {
      assert data[..p] + [data[..p][p - offset]] == data[..p + 1];
      CopyIsTrue(data, p + 1, length - 1, offset);
    }
  }

  /** Expanding items that stand for bytes gives these bytes. */
  lemma {:induction false} TilesExpand(data: seq<u8>, p: nat, items: seq<Item>, e: nat)
    requires p <= |data| && Tiles(data, p, items, e)
    ensures p <= e <= |data| && Reachable(data[..p], items) && Expand(data[..p], items) == data[..e]
    decreases |items|
  {
    if items != [] {
      match items[0]
      case Literal(b) =>
        assert data[..p] + [b] == data[..p + 1];
        TilesExpand(data, p + 1, items[1..], e);
      case Match(length, offset) =>
        CopyIsTrue(data, p, length, offset);
        TilesExpand(data, p + length, items[1..], e);
    }
  }
}
