/** A bit stream means at most one list of items; an encoded list means itself. */
module Parsing {
  import opened Arith
  import opened Bits
  import opened Canonical
  import opened BitBuffer
  import opened BuildDecodeTable
  import opened Slots
  import opened Items

  lemma {:induction false} FrontItem(ll: seq<nat>, ol: seq<nat>, x: nat, it: Item, k: nat, items: seq<Item>, n: nat)
    requires ItemMeans(ll, ol, x, it, k) && ItemsMean(ll, ol, Shr(x, k), items, n)
    ensures ItemsMean(ll, ol, x, [it] + items, k + n)
    decreases |items|
  {
    hide ItemMeans, Shr;
    var all := [it] + items;
    if items == [] {
      assert all[..0] == [] && all[0] == it;
      ShrShr(x, 0, 0);
      ShrNothing(x);
      assert ItemsMean(ll, ol, x, [], 0);
    } else {
      var last := |items| - 1;
      var m: nat :| m <= n && ItemsMean(ll, ol, Shr(x, k), items[..last], m)
        && ItemMeans(ll, ol, Shr(Shr(x, k), m), items[last], n - m);
      FrontItem(ll, ol, x, it, k, items[..last], m);
      ShrShr(x, k, m);
      assert all[..|all| - 1] == [it] + items[..last] && all[|all| - 1] == items[last];
      assert ItemsMean(ll, ol, x, all[..|all| - 1], k + m);
    }
  }

  /** The bits that encode items mean these items. */
  lemma {:induction false} ItemsBitsMean(ll: seq<nat>, ol: seq<nat>, x: nat, items: seq<Item>)
    requires Encodables(ll, ol, items)
    requires Begins(x, ItemsBits(ll, ol, items))
    ensures ItemsMean(ll, ol, x, items, |ItemsBits(ll, ol, items)|)
    decreases |items|
  {
    hide Encodable, ItemBits, Begins, ItemMeans;
    if items != [] {
      BeginsAppend(x, ItemBits(ll, ol, items[0]), ItemsBits(ll, ol, items[1..]));
      var k := |ItemBits(ll, ol, items[0])|;
      ItemBitsMean(ll, ol, x, items[0]);
      ItemsBitsMean(ll, ol, Shr(x, k), items[1..]);
      FrontItem(ll, ol, x, items[0], k, items[1..], |ItemsBits(ll, ol, items[1..])|);
      assert [items[0]] + items[1..] == items;
    }
  }

  lemma BlockBitsMean(ll: seq<nat>, ol: seq<nat>, x: nat, items: seq<Item>)
    requires AllEncodable(ll, ol, items) && Begins(x, BlockBits(ll, ol, items))
    ensures BlockMeans(ll, ol, x, items, |BlockBits(ll, ol, items)|)
  {
    hide Begins, Code, Means, ItemsBits, ItemsMean, Encodable;
    var k := |ItemsBits(ll, ol, items)|;
    BeginsAppend(x, ItemsBits(ll, ol, items), Code(ll, END_SYM));
    ItemsBitsMean(ll, ol, x, items);
    CodeMeans(ll, Shr(x, k), END_SYM);
  }

  // ---- following a parse

  /** The first i items of a parse take n bits, the next one k. */
  ghost predicate At(ll: seq<nat>, ol: seq<nat>, x: nat, items: seq<Item>, i: nat, n: nat, k: nat) {
    i < |items| && ItemsMean(ll, ol, x, items[..i], n) && ItemMeans(ll, ol, Shr(x, n), items[i], k)
  }

  lemma {:induction false} Follow(ll: seq<nat>, ol: seq<nat>, x: nat, items: seq<Item>, n: nat, i: nat)
    returns (m: nat, k: nat)
    requires ItemsMean(ll, ol, x, items, n) && i < |items|
    ensures At(ll, ol, x, items, i, m, k) && m + k <= n
    decreases |items|
  {
    hide ItemMeans;
    var last := |items| - 1;
    var p: nat :| p <= n && ItemsMean(ll, ol, x, items[..last], p) && ItemMeans(ll, ol, Shr(x, p), items[last], n - p);
    if i == last {
      m, k := p, n - p;
    } else {
      m, k := Follow(ll, ol, x, items[..last], p, i);
      assert items[..last][..i] == items[..i];
    }
  }

  /** The same items take the same bits. */
  lemma {:induction false} SameBits(ll: seq<nat>, ol: seq<nat>, max: nat, x: nat, items: seq<Item>, m: nat, n: nat)
    requires Accepted(ll, max) && Accepted(ol, max) && max >= 1
    requires ItemsMean(ll, ol, x, items, m) && ItemsMean(ll, ol, x, items, n)
    ensures m == n
    decreases |items|
  {
    hide ItemMeans, Accepted, Shr;
    if items != [] {
      var last := |items| - 1;
      var p: nat :| p <= m && ItemsMean(ll, ol, x, items[..last], p)
        && ItemMeans(ll, ol, Shr(x, p), items[last], m - p);
      var q: nat :| q <= n && ItemsMean(ll, ol, x, items[..last], q)
        && ItemMeans(ll, ol, Shr(x, q), items[last], n - q);
      SameBits(ll, ol, max, x, items[..last], p, q);
      ItemUnique(ll, ol, max, Shr(x, p), items[last], m - p, items[last], n - q);
    }
  }

  lemma ItemOrEnd(ll: seq<nat>, ol: seq<nat>, max: nat, x: nat, it: Item, n: nat, k: nat)
    requires Accepted(ll, max) && max >= 1 && ItemMeans(ll, ol, x, it, n)
    ensures !Means(ll, x, END_SYM, k)
  {
    hide Means, Accepted, LengthMeans, OffsetMeans;
    if Means(ll, x, END_SYM, k) {
      match it {
        case Literal(b) =>
          MeaningUnique(ll, max, x, b, n, END_SYM, k);
        case Match(length, offset) =>
          var m: nat :| m <= n && LengthMeans(ll, x, length, m) && OffsetMeans(ol, Shr(x, m), offset, n - m);
          var s, i := LengthSymbol(ll, x, length, m);
          MeaningUnique(ll, max, x, s, i, END_SYM, k);
      }
    }
  }

  /** What comes after the first items of a parse, once they are read: the next item. */
  lemma NextItem(ll: seq<nat>, ol: seq<nat>, max: nat, x: nat, want: seq<Item>, wn: nat, i: nat, n: nat)
    returns (k: nat)
    requires Accepted(ll, max) && Accepted(ol, max) && max >= 1
    requires BlockMeans(ll, ol, x, want, wn) && i < |want| && ItemsMean(ll, ol, x, want[..i], n)
    ensures ItemMeans(ll, ol, Shr(x, n), want[i], k) && n + k <= wn
  {
    hide ItemMeans, Accepted, Shr, ItemsMean, Means;
    var e: nat :| e <= wn && ItemsMean(ll, ol, x, want, e) && Means(ll, Shr(x, e), END_SYM, wn - e);
    var m;
    m, k := Follow(ll, ol, x, want, e, i);
    SameBits(ll, ol, max, x, want[..i], m, n);
  }

  /** After all items of a parse: the end of the block. */
  lemma NextEnd(ll: seq<nat>, ol: seq<nat>, max: nat, x: nat, want: seq<Item>, wn: nat, n: nat)
    requires Accepted(ll, max) && Accepted(ol, max) && max >= 1
    requires BlockMeans(ll, ol, x, want, wn) && ItemsMean(ll, ol, x, want, n)
    ensures n <= wn && Means(ll, Shr(x, n), END_SYM, wn - n)
  {
    hide ItemMeans, Accepted, Shr, ItemsMean, Means;
    var e: nat :| e <= wn && ItemsMean(ll, ol, x, want, e) && Means(ll, Shr(x, e), END_SYM, wn - e);
    SameBits(ll, ol, max, x, want, e, n);
  }

  lemma {:induction false} CommonPrefix(ll: seq<nat>, ol: seq<nat>, max: nat, x: nat, a: seq<Item>, m: nat,
                                        b: seq<Item>, n: nat, i: nat)
    requires Accepted(ll, max) && Accepted(ol, max) && max >= 1
    requires BlockMeans(ll, ol, x, a, m) && BlockMeans(ll, ol, x, b, n) && i <= |a| && i <= |b|
    ensures a[..i] == b[..i] && exists k: nat :: ItemsMean(ll, ol, x, a[..i], k)
    decreases i
  {
    hide ItemMeans, Accepted, Shr, BlockMeans;
    if i == 0 {
      assert ItemsMean(ll, ol, x, a[..0], 0);
    } else {
      CommonPrefix(ll, ol, max, x, a, m, b, n, i - 1);
      var k: nat :| ItemsMean(ll, ol, x, a[..i - 1], k);
      var p := NextItem(ll, ol, max, x, a, m, i - 1, k);
      var q := NextItem(ll, ol, max, x, b, n, i - 1, k);
      ItemUnique(ll, ol, max, Shr(x, k), a[i - 1], p, b[i - 1], q);
      assert a[..i][..i - 1] == a[..i - 1] && b[..i] == b[..i - 1] + [b[i - 1]] && a[..i] == a[..i - 1] + [a[i - 1]];
      assert ItemsMean(ll, ol, x, a[..i], k + p);
    }
  }

  /** A bit stream means at most one block. */
  lemma BlockUnique(ll: seq<nat>, ol: seq<nat>, max: nat, x: nat, a: seq<Item>, m: nat, b: seq<Item>, n: nat)
    requires Accepted(ll, max) && Accepted(ol, max) && max >= 1
    requires BlockMeans(ll, ol, x, a, m) && BlockMeans(ll, ol, x, b, n)
    ensures a == b && m == n
  {
    hide ItemMeans, Accepted, Shr, BlockMeans, ItemsMean, Means;
    if |a| <= |b| {
      ShorterIsSame(ll, ol, max, x, a, m, b, n);
    } else {
      ShorterIsSame(ll, ol, max, x, b, n, a, m);
    }
  }

  lemma ShorterIsSame(ll: seq<nat>, ol: seq<nat>, max: nat, x: nat, a: seq<Item>, m: nat, b: seq<Item>, n: nat)
    requires Accepted(ll, max) && Accepted(ol, max) && max >= 1 && |a| <= |b|
    requires BlockMeans(ll, ol, x, a, m) && BlockMeans(ll, ol, x, b, n)
    ensures a == b && m == n
  {
    hide ItemMeans, Accepted, Shr, BlockMeans, ItemsMean, Means;
    CommonPrefix(ll, ol, max, x, a, m, b, n, |a|);
    assert a[..|a|] == a;
    var k: nat :| ItemsMean(ll, ol, x, a, k);
    NextEnd(ll, ol, max, x, a, m, k);
    if |a| < |b| {
      var p := NextItem(ll, ol, max, x, b, n, |a|, k);
      ItemOrEnd(ll, ol, max, Shr(x, k), b[|a|], p, m - k);
    } else {
      assert b[..|a|] == b;
      NextEnd(ll, ol, max, x, b, n, k);
      MeaningUnique(ll, max, Shr(x, k), END_SYM, m - k, END_SYM, n - k);
    }
  }
}
