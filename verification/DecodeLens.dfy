/** Reading the codeword lengths of a dynamic block. */
module DecodeLens {
  import opened Arith
  import opened Packed
  import opened Bits
  import opened Canonical
  import opened Words
  import opened BitBuffer
  import opened BitReader
  import opened DecodeTable
  import opened BuildDecodeTable
  import opened Items
  import opened TableLookup
  import opened Precode

  const MAX_PRE_LEN: nat := 7
  /** How far a repetition can reach beyond the last length. */
  const MAX_OVERRUN: nat := 137

  function PrecodeResults(): (dr: seq<u32>)
    ensures |dr| == PRECODE_SYMS && forall s :: 0 <= s < PRECODE_SYMS ==> dr[s] == s * 0x1_0000
  {
    seq(PRECODE_SYMS, s requires 0 <= s < PRECODE_SYMS => s * 0x1_0000)
  }

  // ---- what the bits mean

  ghost predicate PreItemMeans(pl: seq<nat>, x: nat, it: PreItem, n: nat) {
    exists k: nat ::
      && Means(pl, x, it.sym, k) && it.sym < PRECODE_SYMS
      && n == k + ExtraBitsOf(it.sym) && it.extra == Low(Shr(x, k), ExtraBitsOf(it.sym))
  }

  ghost predicate PreItemsMean(pl: seq<nat>, x: nat, items: seq<PreItem>, n: nat) {
    if items == [] then n == 0
    else
      exists k: nat ::
        && k <= n && PreItemsMean(pl, x, AllButLast(items), k)
        && PreItemMeans(pl, Shr(x, k), items[|items| - 1], n - k)
  }

  lemma PreItemUnique(pl: seq<nat>, x: nat, it: PreItem, n: nat, it': PreItem, n': nat)
    requires Accepted(pl, MAX_PRE_LEN) && PreItemMeans(pl, x, it, n) && PreItemMeans(pl, x, it', n')
    ensures it == it' && n == n'
  {
    hide Means, Accepted, Low, Shr;
    var k: nat :| Means(pl, x, it.sym, k) && it.sym < PRECODE_SYMS
      && n == k + ExtraBitsOf(it.sym) && it.extra == Low(Shr(x, k), ExtraBitsOf(it.sym));
    var k': nat :| Means(pl, x, it'.sym, k') && it'.sym < PRECODE_SYMS
      && n' == k' + ExtraBitsOf(it'.sym) && it'.extra == Low(Shr(x, k'), ExtraBitsOf(it'.sym));
    MeaningUnique(pl, MAX_PRE_LEN, x, it.sym, k, it'.sym, k');
  }

  /** Of two readings one begins the other. */
  lemma {:induction false} OneBeginsOther(pl: seq<nat>, x: nat, a: seq<PreItem>, m: nat, b: seq<PreItem>, n: nat)
    requires Accepted(pl, MAX_PRE_LEN) && PreItemsMean(pl, x, a, m) && PreItemsMean(pl, x, b, n) && |a| <= |b|
    ensures a == b[..|a|] && m <= n && (|a| == |b| ==> m == n)
    decreases |a| + |b|
  {
    hide PreItemMeans, Accepted, Shr;
    if b != [] {
      var last := |b| - 1;
      var q: nat :| q <= n && PreItemsMean(pl, x, AllButLast(b), q) && PreItemMeans(pl, Shr(x, q), b[last], n - q);
      if |a| < |b| {
        OneBeginsOther(pl, x, a, m, AllButLast(b), q);
        assert b[..last][..|a|] == b[..|a|];
      } else {
        var p: nat :| p <= m && PreItemsMean(pl, x, AllButLast(a), p) && PreItemMeans(pl, Shr(x, p), a[last], m - p);
        OneBeginsOther(pl, x, AllButLast(a), p, AllButLast(b), q);
        assert AllButLast(b)[..last] == AllButLast(b);
        PreItemUnique(pl, Shr(x, p), a[last], m - p, b[last], n - q);
        assert a == AllButLast(a) + [a[last]] && b == AllButLast(b) + [b[last]];
      }
    }
  }

  /** The item that a longer reading has behind a shorter one. */
  lemma {:induction false} ItemBehind(pl: seq<nat>, x: nat, a: seq<PreItem>, m: nat, b: seq<PreItem>, n: nat)
    returns (k: nat)
    requires Accepted(pl, MAX_PRE_LEN) && PreItemsMean(pl, x, a, m) && PreItemsMean(pl, x, b, n) && |a| < |b|
    ensures a == b[..|a|] && PreItemMeans(pl, Shr(x, m), b[|a|], k) && m + k <= n
    decreases |b|
  {
    hide PreItemMeans, Accepted, Shr;
    OneBeginsOther(pl, x, a, m, b, n);
    var last := |b| - 1;
    var q: nat :| q <= n && PreItemsMean(pl, x, AllButLast(b), q) && PreItemMeans(pl, Shr(x, q), b[last], n - q);
    if |a| == last {
      OneBeginsOther(pl, x, a, m, AllButLast(b), q);
      k := n - q;
    } else {
      k := ItemBehind(pl, x, a, m, AllButLast(b), q);
    }
  }

  // ---- encoding

  ghost predicate PreEncodable(pl: seq<nat>, items: seq<PreItem>) {
    forall k :: 0 <= k < |items| ==> ValidPre(items[k]) && HasCode(pl, items[k].sym)
  }

  ghost function PreItemBits(pl: seq<nat>, it: PreItem): Bits
    requires HasCode(pl, it.sym)
  {
    Code(pl, it.sym) + Front(it.extra, ExtraBitsOf(it.sym))
  }

  ghost function PreItemsBits(pl: seq<nat>, items: seq<PreItem>): Bits
    requires PreEncodable(pl, items)
  {
    if items == [] then [] else PreItemsBits(pl, AllButLast(items)) + PreItemBits(pl, items[|items| - 1])
  }

  lemma ExtraFits(it: PreItem)
    requires ValidPre(it)
    ensures it.extra < Pow2(ExtraBitsOf(it.sym))
  {
    assert Pow2(2) == 4 && Pow2(3) == 8 && Pow2(7) == 128;
  }

  lemma PreItemBitsMean(pl: seq<nat>, x: nat, it: PreItem)
    requires ValidPre(it) && HasCode(pl, it.sym) && Begins(x, PreItemBits(pl, it))
    ensures PreItemMeans(pl, x, it, |PreItemBits(pl, it)|)
  {
    hide Code, Means, Low, Shr, Begins, Pow2;
    BeginsAppend(x, Code(pl, it.sym), Front(it.extra, ExtraBitsOf(it.sym)));
    CodeMeans(pl, x, it.sym);
    ExtraFits(it);
    ExtraBits(Shr(x, pl[it.sym]), it.extra, ExtraBitsOf(it.sym));
  }

  lemma {:induction false} PreItemsBitsMean(pl: seq<nat>, x: nat, items: seq<PreItem>)
    requires PreEncodable(pl, items) && Begins(x, PreItemsBits(pl, items))
    ensures PreItemsMean(pl, x, items, |PreItemsBits(pl, items)|)
  {
    hide Begins, PreItemBits, PreItemMeans, Shr;
    if items != [] {
      var front, last := AllButLast(items), items[|items| - 1];
      BeginsAppend(x, PreItemsBits(pl, front), PreItemBits(pl, last));
      PreItemsBitsMean(pl, x, front);
      PreItemBitsMean(pl, Shr(x, |PreItemsBits(pl, front)|), last);
    }
  }

  // ---- decoding

  /** The bits are the lengths: `num` of them, in n bits of the input. */
  ghost predicate LensParse(pl: seq<nat>, x: nat, avail: int, num: nat, items: seq<PreItem>, n: nat, lens: seq<nat>) {
    PreItemsMean(pl, x, items, n) && n <= avail && ExpandsTo(items, lens) && |lens| == num
  }

  ghost predicate NoLens(pl: seq<nat>, x: nat, avail: int, num: nat) {
    forall items: seq<PreItem>, n: nat, lens: seq<nat> :: !LensParse(pl, x, avail, num, items, n, lens)
  }

  /** What has been read: items in n bits that expand to out. */
  ghost predicate LensRead(pl: seq<nat>, x: nat, items: seq<PreItem>, n: nat, out: seq<nat>) {
    PreItemsMean(pl, x, items, n) && ExpandsTo(items, out)
  }

  lemma LensStep(pl: seq<nat>, x: nat, items: seq<PreItem>, n: nat, out: seq<nat>, it: PreItem, k: nat)
    requires LensRead(pl, x, items, n, out) && PreItemMeans(pl, Shr(x, n), it, k) && CanExpand(out, it)
    ensures LensRead(pl, x, items + [it], n + k, ExpandOne(out, it))
  {
    hide PreItemMeans, ExpandOne, Shr;
    ExpandsMore(items, out, it);
    assert AllButLast(items + [it]) == items;
  }

  /** Before the last length, every parse has a next item. */
  lemma NextPreItem(pl: seq<nat>, x: nat, avail: int, num: nat, items: seq<PreItem>, n: nat, out: seq<nat>,
                    want: seq<PreItem>, wn: nat, lens: seq<nat>)
    returns (k: nat, it: PreItem)
    requires Accepted(pl, MAX_PRE_LEN) && LensRead(pl, x, items, n, out) && |out| < num
    requires LensParse(pl, x, avail, num, want, wn, lens)
    ensures PreItemMeans(pl, Shr(x, n), it, k) && n + k <= avail && CanExpand(out, it) && ExpandOne(out, it) <= lens
  {
    hide PreItemMeans, PreItemsMean, Accepted, Shr, ExpandOne, CanExpand, ExpandsTo;
    if |want| <= |items| {
      OneBeginsOther(pl, x, want, wn, items, n);
      NotLonger(items, out, want, lens);
    }
    k := ItemBehind(pl, x, items, n, want, wn);
    it := want[|items|];
    var before := ExpandsPrefix(want, lens, |items|);
    ExpandsUnique(items, out, before);
  }

  /** The first items expand to no more than all of them. */
  lemma NotLonger(items: seq<PreItem>, out: seq<nat>, want: seq<PreItem>, lens: seq<nat>)
    requires ExpandsTo(items, out) && ExpandsTo(want, lens) && |want| <= |items| && want == items[..|want|]
    ensures |lens| <= |out|
  {
    hide ExpandsTo, ExpandOne, CanExpand;
    if |want| == |items| {
      assert want == items;
      ExpandsUnique(items, out, lens);
    } else {
      var before := ExpandsPrefix(items, out, |want|);
      ExpandsUnique(want, before, lens);
    }
  }

  /** Bits beyond the input, a repetition of nothing, or a repetition beyond the end: no parse. */
  lemma LensRefuted(pl: seq<nat>, x: nat, avail: int, num: nat, items: seq<PreItem>, n: nat, out: seq<nat>)
    requires Accepted(pl, MAX_PRE_LEN) && LensRead(pl, x, items, n, out) && |out| < num
    requires forall it: PreItem, k: nat :: PreItemMeans(pl, Shr(x, n), it, k) ==>
      n + k > avail || !CanExpand(out, it) || |ExpandOne(out, it)| > num
    ensures NoLens(pl, x, avail, num)
  {
    hide PreItemMeans, Accepted, Shr, LensRead, LensParse, ExpandOne, CanExpand;
    forall want: seq<PreItem>, wn: nat, lens: seq<nat> | LensParse(pl, x, avail, num, want, wn, lens) ensures false {
      var k, it := NextPreItem(pl, x, avail, num, items, n, out, want, wn, lens);
      ParseLength(pl, x, avail, num, want, wn, lens);
    }
  }

  lemma ParseLength(pl: seq<nat>, x: nat, avail: int, num: nat, items: seq<PreItem>, n: nat, lens: seq<nat>)
    requires LensParse(pl, x, avail, num, items, n, lens)
    ensures |lens| == num
  {
  }

  lemma PreEntry(t: seq<u32>, pl: seq<nat>, x: nat, s: nat, n: nat)
    requires Decoder(t, pl, PrecodeResults(), MAX_PRE_LEN) && Means(pl, x, s, n) && Accepted(pl, MAX_PRE_LEN)
    ensures s < PRECODE_SYMS && 1 <= n <= MAX_PRE_LEN && Pow2(MAX_PRE_LEN) <= |t|
    ensures t[Low(x, MAX_PRE_LEN)] / 0x1_0000 == s && t[Low(x, MAX_PRE_LEN)] % 256 == n
  {
    hide Low, Pow2, Starts;
    MainEntry(t, pl, PrecodeResults(), MAX_PRE_LEN, x, s, n);
    ShortCodes(pl, x, s, n);
    EntryParts(PrecodeResults(), s, n, s, 0);
  }

  lemma ShortCodes(pl: seq<nat>, x: nat, s: nat, n: nat)
    requires Means(pl, x, s, n) && Accepted(pl, MAX_PRE_LEN)
    ensures n <= MAX_PRE_LEN
  {
    if Starts(pl, x, s) && Complete(pl, MAX_PRE_LEN) {
      assert pl[s] <= MAX_PRE_LEN;
    }
  }

  method Fill(lens: array<nat>, i: nat, n: nat, v: nat)
    requires i + n <= lens.Length
    modifies lens
    ensures lens[..i] == old(lens[..i]) && forall k :: i <= k < i + n ==> lens[k] == v
  {
    forall k | i <= k < i + n {
      lens[k] := v;
    }
  }

  /** Writes `most` copies of v behind the lengths read so far; those of the item count. */
  method Repeated(lens: array<nat>, i: nat, most: nat, n: nat, v: nat, ghost out: seq<nat>, ghost it: PreItem)
    requires i + most <= lens.Length && n <= most && out == lens[..i] && CanExpand(out, it) && it.sym >= REPEAT
    requires n == (if it.sym > ZEROS then 11 else 3) + it.extra && v == (if it.sym == REPEAT then out[i - 1] else 0)
    requires it.sym <= MANY_ZEROS
    modifies lens
    ensures lens[..i + n] == ExpandOne(out, it)
  {
    Fill(lens, i, most, v);
    assert lens[..i + n] == out + Repeat(v, n);
  }

  lemma ReadMeans(pl: seq<nat>, x: nat, s: nat, n: nat, extra: nat)
    requires Means(pl, x, s, n) && s < PRECODE_SYMS && extra == Low(Shr(x, n), ExtraBitsOf(s))
    ensures PreItemMeans(pl, x, PreItem(s, extra), n + ExtraBitsOf(s))
  {
  }

  /** Reads one symbol of the precode; afterwards there are enough bits for its extra bits. */
  method DecodePreSym(r: BitReader, preT: array<u32>, ghost pl: seq<nat>)
    returns (ok: bool, presym: nat, ghost n: nat)
    requires r.Valid() && Accepted(pl, MAX_PRE_LEN) && |pl| > 0
    requires Decoder(preT[..], pl, PrecodeResults(), MAX_PRE_LEN)
    modifies r
    ensures ok ==> r.Valid() && r.Position() == old(r.Position()) + n && r.Left() >= 7 && n > 0
    ensures ok ==> Means(pl, old(r.Rest()), presym, n) && presym < PRECODE_SYMS && r.Rest() == Shr(old(r.Rest()), n)
    ensures !ok ==> old(r.Position()) > 8 * |r.data|
  {
    hide Low, Shr, Pow2, Means, Decoder, Accepted, Value;
    ghost var x := r.Rest();
    presym, n, ok := 0, 0, true;
    if r.Left() < MAX_PRE_LEN + 7 {
      ok := r.Refill();
      if !ok {
        return;
      }
    }
    ghost var s;
    s, n := MeaningExists(pl, MAX_PRE_LEN, x);
    PreEntry(preT[..], pl, x, s, n);
    LowOfLow(x, MAX_PRE_LEN, r.filled);
    var entry := preT[Low(r.bitbuf, MAX_PRE_LEN)];
    assert entry == preT[..][Low(x, MAX_PRE_LEN)];
    r.Consume(entry);
    presym := entry / 0x1_0000;
  }

  /** Reads one item and appends what it stands for. */
  method DecodeLensItem(r: BitReader, preT: array<u32>, lens: array<nat>, i: nat, ghost pl: seq<nat>)
    returns (ok: bool, i': nat, ghost it: PreItem, ghost k: nat)
    requires r.Valid() && Accepted(pl, MAX_PRE_LEN) && |pl| > 0
    requires Decoder(preT[..], pl, PrecodeResults(), MAX_PRE_LEN)
    requires i + MAX_OVERRUN + 1 <= lens.Length && preT as object != lens
    modifies r, lens
    ensures ok ==> r.Valid() && r.Position() == old(r.Position()) + k && k > 0
    ensures ok ==> PreItemMeans(pl, old(r.Rest()), it, k) && CanExpand(old(lens[..i]), it)
    ensures ok ==> i' <= i + MAX_OVERRUN + 1 && lens[..i'] == ExpandOne(old(lens[..i]), it)
    ensures !ok ==> forall it': PreItem, k': nat :: PreItemMeans(pl, old(r.Rest()), it', k') ==>
                      k' > 8 * |r.data| - old(r.Position()) || !CanExpand(old(lens[..i]), it')
  {
    hide Low, Shr, Pow2, Means, Decoder, Accepted, Value, PreItemMeans, ExpandOne, ExtraBitsOf, r.Rest;
    ghost var x, out := r.Rest(), lens[..i];
    i', it, k := i, PreItem(0, 0), 0;
    var presym, extra;
    ghost var n;
    ok, presym, n := DecodePreSym(r, preT, pl);
    if !ok {
      return;
    }
    ghost var s := presym;
    if presym < REPEAT {
      lens[i] := presym;
      i' := i + 1;
      it, k := PreItem(s, 0), n;
      LiteralLength(pl, x, s, n, out);
      assert lens[..i'] == out + [s];
    } else if presym == REPEAT {
      if i == 0 {
        NoRepeat(pl, x, n);
        ok := false;
        return;
      }
      var v := lens[i - 1];
      extra := r.Peek(2);
      ExtraRead(pl, x, s, n, extra);
      r.Consume(2);
      it, k := PreItem(s, extra), n + 2;
      Repeated(lens, i, 6, 3 + extra, v, out, it);
      i' := i + 3 + extra;
    } else if presym == ZEROS {
      extra := r.Peek(3);
      ExtraRead(pl, x, s, n, extra);
      r.Consume(3);
      it, k := PreItem(s, extra), n + 3;
      Repeated(lens, i, 10, 3 + extra, 0, out, it);
      i' := i + 3 + extra;
    } else {
      extra := r.Peek(7);
      ExtraRead(pl, x, s, n, extra);
      r.Consume(7);
      it, k := PreItem(s, extra), n + 7;
      Repeated(lens, i, 11 + extra, 11 + extra, 0, out, it);
      i' := i + 11 + extra;
    }
  }

  lemma LiteralLength(pl: seq<nat>, x: nat, s: nat, n: nat, out: seq<nat>)
    requires Means(pl, x, s, n) && s < REPEAT
    ensures PreItemMeans(pl, x, PreItem(s, 0), n) && CanExpand(out, PreItem(s, 0))
    ensures ExpandOne(out, PreItem(s, 0)) == out + [s]
  {
    hide Means, Shr;
    assert Low(Shr(x, n), ExtraBitsOf(s)) == 0;
    ReadMeans(pl, x, s, n, 0);
  }

  lemma ExtraRead(pl: seq<nat>, x: nat, s: nat, n: nat, extra: nat)
    requires Means(pl, x, s, n) && REPEAT <= s < PRECODE_SYMS
    requires extra == Low(Shr(x, n), if s == REPEAT then 2 else if s == ZEROS then 3 else 7)
    ensures PreItemMeans(pl, x, PreItem(s, extra), n + if s == REPEAT then 2 else if s == ZEROS then 3 else 7)
    ensures extra < if s == REPEAT then 4 else if s == ZEROS then 8 else 128
  {
    hide Means, Shr, Low;
    assert Pow2(2) == 4 && Pow2(3) == 8 && Pow2(7) == 128;
    ReadMeans(pl, x, s, n, extra);
  }

  lemma NoRepeat(pl: seq<nat>, x: nat, n: nat)
    requires Accepted(pl, MAX_PRE_LEN) && Means(pl, x, REPEAT, n)
    ensures forall it: PreItem, k: nat :: PreItemMeans(pl, x, it, k) ==> it.sym == REPEAT
  {
    hide Means, Accepted, Low, Shr;
    forall it: PreItem, k: nat | PreItemMeans(pl, x, it, k) ensures it.sym == REPEAT {
      var j: nat :| Means(pl, x, it.sym, j) && it.sym < PRECODE_SYMS
        && k == j + ExtraBitsOf(it.sym) && it.extra == Low(Shr(x, j), ExtraBitsOf(it.sym));
      MeaningUnique(pl, MAX_PRE_LEN, x, REPEAT, n, it.sym, j);
    }
  }

  lemma LensReadParts(pl: seq<nat>, x: nat)
    ensures LensRead(pl, x, [], 0, [])
  {
  }

  /** Reads `num` codeword lengths. */
  method DecodeLengths(r: BitReader, preT: array<u32>, num: nat, lens: array<nat>, ghost pl: seq<nat>)
    returns (ok: bool, ghost items: seq<PreItem>, ghost n: nat)
    requires r.Valid() && Accepted(pl, MAX_PRE_LEN) && |pl| > 0
    requires Decoder(preT[..], pl, PrecodeResults(), MAX_PRE_LEN)
    requires 1 <= num && num + MAX_OVERRUN <= lens.Length && preT as object != lens
    modifies r, lens
    ensures ok ==> r.Valid() && r.Position() == old(r.Position()) + n
    ensures ok ==> LensRead(pl, old(r.Rest()), items, n, lens[..num])
    ensures !ok ==> NoLens(pl, old(r.Rest()), 8 * |r.data| - old(r.Position()), num)
  {
    hide Low, Shr, Pow2, Means, Decoder, Accepted, Value, LensRead, PreItemMeans, ExpandOne, CanExpand, NoLens;
    ghost var x, p := r.Rest(), r.Position();
    var i := 0;
    items, n := [], 0;
    LensReadParts(pl, x);
    ShrNothing(x);
    assert lens[..0] == [];
    while i < num
      invariant 0 <= i <= num + MAX_OVERRUN && r.Valid() && r.Position() == p + n
      invariant LensRead(pl, x, items, n, lens[..i])
      invariant i > num ==> NoLens(pl, x, 8 * |r.data| - p, num)
      decreases num - i
    {
      ghost var out := lens[..i];
      ghost var it, k;
      ShrShr(Value(r.data), p, n);
      assert r.Rest() == Shr(x, n);
      ok, i, it, k := DecodeLensItem(r, preT, lens, i, pl);
      if !ok {
        LensRefuted(pl, x, 8 * |r.data| - p, num, items, n, out);
        return;
      }
      LensStep(pl, x, items, n, out, it, k);
      if i > num {
        OverRun(pl, x, 8 * |r.data| - p, num, items, n, out, it, k);
      }
      items, n := items + [it], n + k;
    }
    ok := i == num;
  }

  lemma OverRun(pl: seq<nat>, x: nat, avail: int, num: nat, items: seq<PreItem>, n: nat, out: seq<nat>, it: PreItem,
                k: nat)
    requires Accepted(pl, MAX_PRE_LEN) && LensRead(pl, x, items, n, out) && |out| < num
    requires PreItemMeans(pl, Shr(x, n), it, k) && CanExpand(out, it) && |ExpandOne(out, it)| > num
    ensures NoLens(pl, x, avail, num)
  {
    hide PreItemMeans, Accepted, Shr, LensRead, ExpandOne, CanExpand, NoLens;
    forall it': PreItem, k': nat | PreItemMeans(pl, Shr(x, n), it', k') ensures it' == it {
      PreItemUnique(pl, Shr(x, n), it, k, it', k');
    }
    LensRefuted(pl, x, avail, num, items, n, out);
  }
}
