/** What a DEFLATE stream means (section 3.2 of RFC 1951). */
module Inflate {
  import opened Arith
  import opened Bits
  import opened Words
  import opened BitBuffer
  import opened BuildDecodeTable
  import opened Items
  import opened Parsing
  import opened Precode
  import opened DecodeLens
  import opened Header
  import opened StaticCodes

  /** Literals and matches in the codes ll and ol, from bit `pos` of the data to bit pos'. */
  ghost predicate Huffman(data: seq<u8>, pos: nat, before: seq<u8>, ll: seq<nat>, ol: seq<nat>, pos': nat,
                          after: seq<u8>) {
    exists items: seq<Item>, n: nat ::
      && BlockMeans(ll, ol, Shr(Value(data), pos), items, n) && Reachable(before, items)
      && after == Expand(before, items) && pos' == pos + n
  }

  ghost predicate DynamicFrom(data: seq<u8>, pos: nat, before: seq<u8>, pos': nat, after: seq<u8>, n: nat, nl: nat,
                              no: nat, lens: seq<nat>) {
    && HeaderMeans(Shr(Value(data), pos + 3), n, nl, no, lens) && nl <= |lens|
    && Accepted(lens[..nl], MAX_LEN) && Accepted(lens[nl..], MAX_LEN)
    && Huffman(data, pos + 3 + n, before, lens[..nl], lens[nl..], pos', after)
  }

  ghost predicate Dynamic(data: seq<u8>, pos: nat, before: seq<u8>, pos': nat, after: seq<u8>) {
    exists n: nat, nl: nat, no: nat, lens: seq<nat> :: DynamicFrom(data, pos, before, pos', after, n, nl, no, lens)
  }

  ghost predicate Static(data: seq<u8>, pos: nat, before: seq<u8>, pos': nat, after: seq<u8>) {
    Huffman(data, pos + 3, before, StaticLitlen(), StaticOffset(), pos', after)
  }

  function Le16(data: seq<u8>, i: nat): nat
    requires i + 2 <= |data|
  {
    data[i] as int + 256 * data[i + 1] as int
  }

  /** Bytes behind their number and its complement, from the next byte boundary on. */
  ghost predicate Stored(data: seq<u8>, pos: nat, before: seq<u8>, pos': nat, after: seq<u8>) {
    var i := (pos + 3 + 7) / 8;
    && i + 4 <= |data| && Le16(data, i) + Le16(data, i + 2) == 0xFFFF
    && i + 4 + Le16(data, i) <= |data|
    && after == before + data[i + 4..i + 4 + Le16(data, i)] && pos' == 8 * (i + 4 + Le16(data, i))
  }

  ghost function Type(data: seq<u8>, pos: nat): nat {
    Low(Shr(Value(data), pos + 1), 2)
  }

  ghost predicate IsFinal(data: seq<u8>, pos: nat) {
    Low(Shr(Value(data), pos), 1) == 1
  }

  /** The block that starts at bit `pos` of the data: it appends to the bytes `before` and ends at
      bit pos'. */
  ghost predicate BlockStep(data: seq<u8>, pos: nat, before: seq<u8>, pos': nat, after: seq<u8>) {
    if Type(data, pos) == 0 then Stored(data, pos, before, pos', after)
    else if Type(data, pos) == 1 then Static(data, pos, before, pos', after)
    else if Type(data, pos) == 2 then Dynamic(data, pos, before, pos', after)
    else false
  }

  /** The k blocks from bit `pos` on, the last of which is the final one. */
  ghost predicate Blocks(data: seq<u8>, pos: nat, before: seq<u8>, end: nat, all: seq<u8>, k: nat)
    decreases k
  {
    k > 0 &&
    if IsFinal(data, pos) then BlockStep(data, pos, before, end, all)
    else exists pos': nat, after: seq<u8> ::
      BlockStep(data, pos, before, pos', after) && Blocks(data, pos', after, end, all, k - 1)
  }

  /** The stream from bit `pos` on turns the bytes `before` into `all` and ends at bit `end`. */
  ghost predicate Inflates(data: seq<u8>, pos: nat, before: seq<u8>, end: nat, all: seq<u8>) {
    exists k: nat :: Blocks(data, pos, before, end, all, k)
  }

  // ---- it means at most one thing

  lemma LensUnique(pl: seq<nat>, x: nat, items: seq<PreItem>, n: nat, lens: seq<nat>, items': seq<PreItem>, n': nat,
                   lens': seq<nat>)
    requires Accepted(pl, MAX_PRE_LEN) && LensRead(pl, x, items, n, lens) && LensRead(pl, x, items', n', lens')
    requires |lens| == |lens'|
    ensures lens == lens' && n == n'
  {
    hide Accepted, ExpandsTo, PreItemsMean;
    if |items| <= |items'| {
      LensUniqueHalf(pl, x, items, n, lens, items', n', lens');
    } else {
      LensUniqueHalf(pl, x, items', n', lens', items, n, lens);
    }
  }

  lemma LensUniqueHalf(pl: seq<nat>, x: nat, items: seq<PreItem>, n: nat, lens: seq<nat>, items': seq<PreItem>, n': nat,
                       lens': seq<nat>)
    requires Accepted(pl, MAX_PRE_LEN) && LensRead(pl, x, items, n, lens) && LensRead(pl, x, items', n', lens')
    requires |lens| == |lens'| && |items| <= |items'|
    ensures lens == lens' && n == n'
  {
    hide Accepted, ExpandsTo, PreItemsMean;
    OneBeginsOther(pl, x, items, n, items', n');
    if |items| < |items'| {
      var before := ExpandsPrefix(items', lens', |items|);
      ExpandsUnique(items, lens, before);
    } else {
      assert items'[..|items|] == items';
      ExpandsUnique(items, lens, lens');
    }
  }

  lemma HeaderUnique(x: nat, n: nat, nl: nat, no: nat, lens: seq<nat>, n': nat, nl': nat, no': nat, lens': seq<nat>)
    requires HeaderMeans(x, n, nl, no, lens) && HeaderMeans(x, n', nl', no', lens')
    ensures n == n' && nl == nl' && no == no' && lens == lens' && nl <= |lens|
  {
    var m: nat, pl: seq<nat>, items: seq<PreItem>, k: nat :| HeaderFrom(x, n, nl, no, lens, m, pl, items, k);
    var m': nat, pl': seq<nat>, items': seq<PreItem>, k': nat :|
      HeaderFrom(x, n', nl', no', lens', m', pl', items', k');
    hide *;
    HeaderFromUnique(x, n, nl, no, lens, n', nl', no', lens', m, pl, items, k, m', pl', items', k');
  }

  lemma HeaderFromUnique(x: nat, n: nat, nl: nat, no: nat, lens: seq<nat>, n': nat, nl': nat, no': nat, lens': seq<nat>,
                         m: nat, pl: seq<nat>, items: seq<PreItem>, k: nat, m': nat, pl': seq<nat>,
                         items': seq<PreItem>, k': nat)
    requires HeaderFrom(x, n, nl, no, lens, m, pl, items, k) && HeaderFrom(x, n', nl', no', lens', m', pl', items', k')
    ensures n == n' && nl == nl' && no == no' && lens == lens' && nl <= |lens|
  {
    hide Low, Shr, PreLensMean, Accepted, LensRead;
    PreLensUnique(Shr(x, 14), m, pl, pl');
    LensUnique(pl, Shr(x, 14 + 3 * m), items, k, lens, items', k', lens');
  }

  lemma HuffmanUnique(data: seq<u8>, pos: nat, before: seq<u8>, ll: seq<nat>, ol: seq<nat>, p: nat, a: seq<u8>, p': nat,
                      a': seq<u8>)
    requires Accepted(ll, MAX_LEN) && Accepted(ol, MAX_LEN)
    requires Huffman(data, pos, before, ll, ol, p, a) && Huffman(data, pos, before, ll, ol, p', a')
    ensures p == p' && a == a'
  {
    hide BlockMeans, Accepted, Reachable, Expand, Shr;
    var items: seq<Item>, n: nat :| BlockMeans(ll, ol, Shr(Value(data), pos), items, n) && Reachable(before, items)
      && a == Expand(before, items) && p == pos + n;
    var items': seq<Item>, n': nat :| BlockMeans(ll, ol, Shr(Value(data), pos), items', n') && Reachable(before, items')
      && a' == Expand(before, items') && p' == pos + n';
    BlockUnique(ll, ol, MAX_LEN, Shr(Value(data), pos), items, n, items', n');
  }

  lemma DynamicUnique(data: seq<u8>, pos: nat, before: seq<u8>, p: nat, a: seq<u8>, p': nat, a': seq<u8>)
    requires Dynamic(data, pos, before, p, a) && Dynamic(data, pos, before, p', a')
    ensures p == p' && a == a'
  {
    hide HeaderMeans, Accepted, Huffman, Shr;
    var n: nat, nl: nat, no: nat, lens: seq<nat> :| DynamicFrom(data, pos, before, p, a, n, nl, no, lens);
    var n': nat, nl': nat, no': nat, lens': seq<nat> :| DynamicFrom(data, pos, before, p', a', n', nl', no', lens');
    HeaderUnique(Shr(Value(data), pos + 3), n, nl, no, lens, n', nl', no', lens');
    HuffmanUnique(data, pos + 3 + n, before, lens[..nl], lens[nl..], p, a, p', a');
  }

  lemma StepUnique(data: seq<u8>, pos: nat, before: seq<u8>, p: nat, a: seq<u8>, p': nat, a': seq<u8>)
    requires BlockStep(data, pos, before, p, a) && BlockStep(data, pos, before, p', a')
    ensures p == p' && a == a'
  {
    hide Huffman, Dynamic, Accepted;
    if Type(data, pos) == 1 {
      StaticAccepts();
      HuffmanUnique(data, pos + 3, before, StaticLitlen(), StaticOffset(), p, a, p', a');
    } else if Type(data, pos) == 2 {
      DynamicUnique(data, pos, before, p, a, p', a');
    }
  }

  lemma StaticAccepts()
    ensures Accepted(StaticLitlen(), MAX_LEN) && Accepted(StaticOffset(), MAX_LEN)
  {
    StaticAccepted();
  }

  lemma StepGrows(data: seq<u8>, pos: nat, before: seq<u8>, pos': nat, after: seq<u8>)
    requires BlockStep(data, pos, before, pos', after)
    ensures pos < pos' && |before| <= |after|
  {
    hide BlockMeans, HeaderMeans, Accepted, Value, Shr, Low;
  }

  /** A block that is not final is followed by the rest of the stream. */
  lemma InflatesOn(data: seq<u8>, pos: nat, before: seq<u8>, pos': nat, after: seq<u8>, end: nat, all: seq<u8>)
    requires BlockStep(data, pos, before, pos', after) && !IsFinal(data, pos)
    ensures Inflates(data, pos, before, end, all) <==> Inflates(data, pos', after, end, all)
  {
    hide BlockStep;
    if k: nat :| Blocks(data, pos, before, end, all, k) {
      var p: nat, a: seq<u8> :| BlockStep(data, pos, before, p, a) && Blocks(data, p, a, end, all, k - 1);
      StepUnique(data, pos, before, pos', after, p, a);
    }
    if k: nat :| Blocks(data, pos', after, end, all, k) {
      assert Blocks(data, pos, before, end, all, k + 1);
    }
  }

  /** The final block ends the stream. */
  lemma InflatesFinal(data: seq<u8>, pos: nat, before: seq<u8>, pos': nat, after: seq<u8>, end: nat, all: seq<u8>)
    requires BlockStep(data, pos, before, pos', after) && IsFinal(data, pos)
    ensures Inflates(data, pos, before, end, all) <==> end == pos' && all == after
  {
    hide BlockStep;
    if k: nat :| Blocks(data, pos, before, end, all, k) {
      StepUnique(data, pos, before, pos', after, end, all);
    }
    assert Blocks(data, pos, before, pos', after, 1);
  }

  /** A stream starts with a block, which ends no later and has no more bytes. */
  lemma InflatesStarts(data: seq<u8>, pos: nat, before: seq<u8>, end: nat, all: seq<u8>)
    returns (pos': nat, after: seq<u8>)
    requires Inflates(data, pos, before, end, all)
    ensures BlockStep(data, pos, before, pos', after) && pos' <= end && |after| <= |all|
  {
    hide BlockStep;
    var k: nat :| Blocks(data, pos, before, end, all, k);
    if IsFinal(data, pos) {
      pos', after := end, all;
    } else {
      pos', after :| BlockStep(data, pos, before, pos', after) && Blocks(data, pos', after, end, all, k - 1);
      BlocksGrow(data, pos', after, end, all, k - 1);
    }
  }

  lemma {:induction false} BlocksGrow(data: seq<u8>, pos: nat, before: seq<u8>, end: nat, all: seq<u8>, k: nat)
    requires Blocks(data, pos, before, end, all, k)
    ensures pos <= end && |before| <= |all|
    decreases k
  {
    hide BlockStep;
    if IsFinal(data, pos) {
      StepGrows(data, pos, before, end, all);
    } else {
      var pos': nat, after: seq<u8> :| BlockStep(data, pos, before, pos', after)
        && Blocks(data, pos', after, end, all, k - 1);
      StepGrows(data, pos, before, pos', after);
      BlocksGrow(data, pos', after, end, all, k - 1);
    }
  }

  /** A stream means at most one byte string. */
  lemma InflatesUnique(data: seq<u8>, pos: nat, before: seq<u8>, end: nat, all: seq<u8>, end': nat, all': seq<u8>)
    requires Inflates(data, pos, before, end, all) && Inflates(data, pos, before, end', all')
    ensures end == end' && all == all'
  {
    hide Blocks;
    var k: nat :| Blocks(data, pos, before, end, all, k);
    var k': nat :| Blocks(data, pos, before, end', all', k');
    BlocksUnique(data, pos, before, end, all, k, end', all', k');
  }

  lemma {:induction false} BlocksUnique(data: seq<u8>, pos: nat, before: seq<u8>, end: nat, all: seq<u8>, k: nat,
                                        end': nat, all': seq<u8>, k': nat)
    requires Blocks(data, pos, before, end, all, k) && Blocks(data, pos, before, end', all', k')
    ensures end == end' && all == all'
    decreases k
  {
    hide BlockStep;
    if IsFinal(data, pos) {
      StepUnique(data, pos, before, end, all, end', all');
    } else {
      var p: nat, a: seq<u8> :| BlockStep(data, pos, before, p, a) && Blocks(data, p, a, end, all, k - 1);
      var p': nat, a': seq<u8> :| BlockStep(data, pos, before, p', a') && Blocks(data, p', a', end', all', k' - 1);
      StepUnique(data, pos, before, p, a, p', a');
      BlocksUnique(data, p, a, end, all, k - 1, end', all', k' - 1);
    }
  }
}
