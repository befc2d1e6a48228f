/** Sorting the used symbols by frequency and symbol: a counting sort by low frequencies, then
    heapsort of the symbols that share the last counter. */
module SortSymbols {
  import opened Arith
  import opened Packed
  import opened LengthCounts
  import opened Canonical
  import opened GenCodewords
  import HeapSort

  /** The entries of all used symbols, sorted by frequency and then by symbol. */
  ghost predicate SortedSymbols(freqs: seq<nat>, out: seq<u32>) {
    && (forall k :: 0 <= k < |out| ==>
          Sym(out[k]) < |freqs| && freqs[Sym(out[k])] == Hi(out[k]) > 0)
    && (forall j, k :: 0 <= j < k < |out| ==> out[j] < out[k])
    && (forall s :: 0 <= s < |freqs| && freqs[s] > 0 ==> s in Syms(out))
  }

  function Bucket(f: nat, numCounters: nat): nat
    requires numCounters >= 1
  {
    if f < numCounters - 1 then f else numCounters - 1
  }

  ghost function Buckets(freqs: seq<nat>): (b: seq<nat>)
    requires |freqs| >= 1
    ensures |b| == |freqs| && forall s :: 0 <= s < |b| ==> b[s] == Bucket(freqs[s], |freqs|)
  {
    seq(|freqs|, s requires 0 <= s < |freqs| => Bucket(freqs[s], |freqs|))
  }

  /** The number of used symbols in buckets before b. */
  ghost function First(bk: seq<nat>, b: nat): nat {
    if b <= 1 then 0 else First(bk, b - 1) + Count(bk, b - 1)
  }

  lemma {:induction false} FirstMonotone(bk: seq<nat>, b: nat, c: nat)
    requires b <= c
    ensures First(bk, b) <= First(bk, c)
    decreases c
  {
    if b < c {
      FirstMonotone(bk, b, c - 1);
    }
  }

  /** Where the symbols of bucket b below sym end. */
  ghost function Fill(bk: seq<nat>, b: nat, sym: nat): nat
    requires sym <= |bk|
  {
    First(bk, b) + Count(bk[..sym], b)
  }

  lemma FillBound(bk: seq<nat>, b: nat, sym: nat)
    requires sym <= |bk| && b >= 1
    ensures First(bk, b) <= Fill(bk, b, sym) <= First(bk, b + 1)
    ensures sym < |bk| && bk[sym] == b ==> Fill(bk, b, sym) < First(bk, b + 1)
  {
    CountPrefixMonotone(bk, sym, |bk|, b);
    assert bk[..|bk|] == bk;
    if sym < |bk| {
      CountPrefix(bk, sym, b);
      CountPrefixMonotone(bk, sym + 1, |bk|, b);
    }
  }

  // ---- the counting sort

  ghost predicate Entry(freqs: seq<nat>, e: u32, b: nat, sym: nat)
    requires 1 <= |freqs| && sym <= |freqs|
  {
    Sym(e) < sym && freqs[Sym(e)] == Hi(e) && Bucket(Hi(e), |freqs|) == b
  }

  /** The symbols of bucket b below sym are in place, in increasing order. */
  ghost predicate Segment(freqs: seq<nat>, out: seq<u32>, b: nat, sym: nat)
    requires 1 <= |freqs| && sym <= |freqs|
  {
    var bk := Buckets(freqs);
    var lo, hi := First(bk, b), Fill(bk, b, sym);
    && hi <= |out|
    && (forall p :: lo <= p < hi ==> Entry(freqs, out[p], b, sym))
    && (forall p, q :: lo <= p < q < hi ==> Sym(out[p]) < Sym(out[q]))
    && (forall s :: 0 <= s < sym && bk[s] == b ==> exists p :: lo <= p < hi && Sym(out[p]) == s)
  }

  ghost predicate Segments(freqs: seq<nat>, out: seq<u32>, sym: nat)
    requires 1 <= |freqs| && sym <= |freqs|
  {
    forall b :: 1 <= b < |freqs| ==> Segment(freqs, out, b, sym)
  }

  lemma SegmentsInit(freqs: seq<nat>, out: seq<u32>)
    requires 1 <= |freqs| && First(Buckets(freqs), |freqs|) <= |out|
    ensures Segments(freqs, out, 0)
  {
    var bk := Buckets(freqs);
    forall b | 1 <= b < |freqs| ensures Segment(freqs, out, b, 0) {
      assert Marks(bk[..0], b) == [];
      FirstMonotone(bk, b, |freqs|);
    }
  }

  lemma SegmentSame(freqs: seq<nat>, out: seq<u32>, b: nat, sym: nat, i: nat, e: u32)
    requires 1 <= |freqs| && sym < |freqs| && Segment(freqs, out, b, sym)
    requires Buckets(freqs)[sym] != b && i < |out|
    requires i < First(Buckets(freqs), b) || i >= Fill(Buckets(freqs), b, sym)
    ensures Segment(freqs, out[i := e], b, sym + 1)
  {
    hide First, Fill, Buckets, Hi, Sym;
    var bk := Buckets(freqs);
    FillSame(bk, b, sym);
    var next := out[i := e];
    forall s | 0 <= s < sym + 1 && bk[s] == b
      ensures exists p :: First(bk, b) <= p < Fill(bk, b, sym + 1) && Sym(next[p]) == s
    {
      var p :| First(bk, b) <= p < Fill(bk, b, sym) && Sym(out[p]) == s;
      assert Sym(next[p]) == s;
    }
  }

  lemma FillSame(bk: seq<nat>, b: nat, sym: nat)
    requires sym < |bk| && bk[sym] != b
    ensures Fill(bk, b, sym + 1) == Fill(bk, b, sym)
  {
    CountPrefix(bk, sym, b);
  }

  lemma SegmentGrows(freqs: seq<nat>, out: seq<u32>, b: nat, sym: nat, e: u32)
    requires 1 <= |freqs| && sym < |freqs| && Segment(freqs, out, b, sym)
    requires Buckets(freqs)[sym] == b && Fill(Buckets(freqs), b, sym) < |out|
    requires Sym(e) == sym && Hi(e) == freqs[sym]
    ensures Segment(freqs, out[Fill(Buckets(freqs), b, sym) := e], b, sym + 1)
  {
    var bk := Buckets(freqs);
    var i := Fill(bk, b, sym);
    var next := out[i := e];
    CountPrefix(bk, sym, b);
    forall s | 0 <= s < sym + 1 && bk[s] == b
      ensures exists p :: First(bk, b) <= p < Fill(bk, b, sym + 1) && Sym(next[p]) == s
    {
      if s == sym {
        assert Sym(next[i]) == s;
      } else {
        var p :| First(bk, b) <= p < Fill(bk, b, sym) && Sym(out[p]) == s;
        assert Sym(next[p]) == s;
      }
    }
  }

  /** Placing a used symbol at the end of its segment. */
  lemma Place(freqs: seq<nat>, out: seq<u32>, sym: nat, e: u32)
    requires 1 <= |freqs| && sym < |freqs| && Segments(freqs, out, sym) && freqs[sym] > 0 && |freqs| >= 2
    requires Sym(e) == sym && Hi(e) == freqs[sym]
    requires First(Buckets(freqs), |freqs|) <= |out|
    ensures var i := Fill(Buckets(freqs), Buckets(freqs)[sym], sym);
      i < |out| && Segments(freqs, out[i := e], sym + 1)
  {
    hide Segment;
    var bk := Buckets(freqs);
    var c := bk[sym];
    var i := Fill(bk, c, sym);
    FillBound(bk, c, sym);
    FirstMonotone(bk, c + 1, |freqs|);
    var next, sym' := out[i := e], sym + 1;
    forall b | 1 <= b < |freqs| ensures Segment(freqs, next, b, sym') {
      if b == c {
        SegmentGrows(freqs, out, b, sym, e);
      } else {
        FillBound(bk, b, sym);
        if b < c {
          FirstMonotone(bk, b + 1, c);
        } else {
          FirstMonotone(bk, c + 1, b);
        }
        SegmentSame(freqs, out, b, sym, i, e);
      }
    }
  }

  lemma Skip(freqs: seq<nat>, out: seq<u32>, sym: nat)
    requires 2 <= |freqs| && sym < |freqs| && Segments(freqs, out, sym) && freqs[sym] == 0
    requires out != []
    ensures Segments(freqs, out, sym + 1)
  {
    hide Segment;
    var sym' := sym + 1;
    forall b | 1 <= b < |freqs| ensures Segment(freqs, out, b, sym') {
      SegmentStays(freqs, out, b, sym);
    }
  }

  lemma SegmentStays(freqs: seq<nat>, out: seq<u32>, b: nat, sym: nat)
    requires 1 <= |freqs| && sym < |freqs| && Segment(freqs, out, b, sym) && Buckets(freqs)[sym] != b
    ensures Segment(freqs, out, b, sym + 1)
  {
    CountPrefix(Buckets(freqs), sym, b);
  }

  // ---- what the counting sort leaves

  lemma {:induction false} FindBucket(bk: seq<nat>, p: nat, c: nat) returns (b: nat)
    requires p < First(bk, c)
    ensures 1 <= b < c && First(bk, b) <= p < First(bk, b + 1)
  {
    if First(bk, c - 1) <= p {
      b := c - 1;
    } else {
      b := FindBucket(bk, p, c - 1);
    }
  }

  lemma SegmentAt(freqs: seq<nat>, out: seq<u32>, p: nat) returns (b: nat)
    requires 1 <= |freqs| && Segments(freqs, out, |freqs|) && p < First(Buckets(freqs), |freqs|)
    ensures 1 <= b < |freqs| && First(Buckets(freqs), b) <= p < First(Buckets(freqs), b + 1)
    ensures Fill(Buckets(freqs), b, |freqs|) == First(Buckets(freqs), b + 1)
    ensures p < |out| && Entry(freqs, out[p], b, |freqs|) && Bucket(Hi(out[p]), |freqs|) == b
  {
    var bk := Buckets(freqs);
    b := FindBucket(bk, p, |freqs|);
    assert bk[..|freqs|] == bk;
    assert Segment(freqs, out, b, |freqs|);
  }

  /** Before the heapsort: all entries right, in order except inside the last bucket. */
  ghost predicate Counted(freqs: seq<nat>, out: seq<u32>, last: nat) {
    && (forall k :: 0 <= k < |out| ==> Sym(out[k]) < |freqs| && freqs[Sym(out[k])] == Hi(out[k]) > 0)
    && (forall j, k :: 0 <= j < k < |out| ==> out[j] != out[k])
    && (forall j, k :: 0 <= j < k < |out| && j < last ==> out[j] < out[k])
    && (forall s :: 0 <= s < |freqs| && freqs[s] > 0 ==> s in Syms(out))
  }

  lemma EntryOrder(x: u32, y: u32, n: nat)
    requires n >= 2
    ensures Bucket(Hi(x), n) < Bucket(Hi(y), n) ==> x < y
    ensures Bucket(Hi(x), n) == Bucket(Hi(y), n) && Sym(x) < Sym(y) ==>
      x != y && (Bucket(Hi(x), n) < n - 1 ==> x < y)
  {
  }

  lemma SegmentsOrder(freqs: seq<nat>, out: seq<u32>, j: nat, k: nat)
    requires 2 <= |freqs| && Segments(freqs, out, |freqs|) && j < k < First(Buckets(freqs), |freqs|) <= |out|
    ensures out[j] != out[k]
    ensures j < First(Buckets(freqs), |freqs| - 1) ==> out[j] < out[k]
  {
    hide Segments, Hi, Sym, Fill, Bucket, Entry, First, Count;
    var bk := Buckets(freqs);
    var b := SegmentAt(freqs, out, j);
    var c := SegmentAt(freqs, out, k);
    EntryOrder(out[j], out[k], |freqs|);
    if b == c {
      SegmentSorted(freqs, out, b, j, k);
    } else if c < b {
      FirstMonotone(bk, c + 1, b);
    }
  }

  lemma SegmentSorted(freqs: seq<nat>, out: seq<u32>, b: nat, j: nat, k: nat)
    requires 2 <= |freqs| && Segments(freqs, out, |freqs|) && 1 <= b < |freqs|
    requires First(Buckets(freqs), b) <= j < k < Fill(Buckets(freqs), b, |freqs|)
    ensures k < |out| && Sym(out[j]) < Sym(out[k])
  {
    assert Segment(freqs, out, b, |freqs|);
  }

  lemma SegmentsCounted(freqs: seq<nat>, out: seq<u32>, n: nat)
    requires 2 <= |freqs| && Segments(freqs, out, |freqs|) && n == First(Buckets(freqs), |freqs|) <= |out|
    ensures Counted(freqs, out[..n], First(Buckets(freqs), |freqs| - 1))
  {
    hide Segments;
    var bk := Buckets(freqs);
    forall k | 0 <= k < n ensures Sym(out[k]) < |freqs| && freqs[Sym(out[k])] == Hi(out[k]) > 0 {
      var b := SegmentAt(freqs, out, k);
    }
    forall j, k | 0 <= j < k < n
      ensures out[j] != out[k] && (j < First(bk, |freqs| - 1) ==> out[j] < out[k])
    {
      SegmentsOrder(freqs, out, j, k);
    }
    forall s | 0 <= s < |freqs| && freqs[s] > 0 ensures s in Syms(out[..n]) {
      var p := SegmentHas(freqs, out, s);
      assert Syms(out[..n])[p] == s;
    }
  }

  lemma SegmentHas(freqs: seq<nat>, out: seq<u32>, s: nat) returns (p: nat)
    requires 2 <= |freqs| && Segments(freqs, out, |freqs|) && s < |freqs| && freqs[s] > 0
    ensures p < First(Buckets(freqs), |freqs|) && p < |out| && Sym(out[p]) == s
  {
    var bk := Buckets(freqs);
    var b := bk[s];
    assert Segment(freqs, out, b, |freqs|);
    p :| First(bk, b) <= p < Fill(bk, b, |freqs|) && Sym(out[p]) == s;
    FillBound(bk, b, |freqs|);
    FirstMonotone(bk, b + 1, |freqs|);
  }

  // ---- the heapsort of the last bucket

  lemma NoDuplicates(a: seq<int>, b: seq<int>)
    requires multiset(a) == multiset(b)
    requires forall j, k :: 0 <= j < k < |a| ==> a[j] != a[k]
    ensures forall j, k :: 0 <= j < k < |b| ==> b[j] != b[k]
  {
    forall j, k | 0 <= j < k < |b| ensures b[j] != b[k] {
      if b[j] == b[k] {
        assert b == b[..j] + [b[j]] + b[j + 1..k] + [b[k]] + b[k + 1..];
        assert multiset(b)[b[j]] >= 2;
        AtMostOnce(a, b[j]);
      }
    }
  }

  lemma {:induction false} AtMostOnce(a: seq<int>, x: int)
    requires forall j, k :: 0 <= j < k < |a| ==> a[j] != a[k]
    ensures multiset(a)[x] <= 1
  {
    if a != [] {
      assert a == [a[0]] + a[1..];
      if a[0] == x {
        assert x !in a[1..];
      } else {
        AtMostOnce(a[1..], x);
      }
    }
  }

  lemma {:induction false} SameElements(a: seq<u32>, b: seq<u32>, x: u32)
    requires multiset(a) == multiset(b)
    ensures x in a <==> x in b
  {
    assert x in multiset(a) <==> x in multiset(b);
  }

  /** Sorting the last bucket completes the order. */
  lemma LastSorted(freqs: seq<nat>, a: seq<u32>, b: seq<u32>, last: nat, n: nat)
    requires n <= |a| && Counted(freqs, a[..n], last)
    requires HeapSort.Rearranged(a, b, last, n) && HeapSort.SortedFrom(b, last, n)
    ensures SortedSymbols(freqs, b[..n])
  {
    hide Hi, Sym, Syms;
    SameSymbols(a, b, last, n);
    SameUsed(freqs, a[..n], b[..n], last);
    NoDuplicates(a[..n], b[..n]);
    forall j, k | 0 <= j < k < n ensures b[j] < b[k] {
      if j < last {
        var k' := LaterIn(a, b, last, n, k);
        assert a[..n][j] < a[..n][k'];
      } else {
        assert b[..n][j] != b[..n][k];
      }
    }
  }

  lemma SameSymbols(a: seq<u32>, b: seq<u32>, last: nat, n: nat)
    requires n <= |a| && HeapSort.Rearranged(a, b, last, n)
    ensures n <= |b| && last <= n && multiset(a[..n]) == multiset(b[..n]) && a[..last] == b[..last]
  {
    HeapSort.MultisetSlices(a, b, last, n);
    assert a[..n] == a[..last] + a[last..n] && b[..n] == b[..last] + b[last..n] && a[..last] == b[..last];
  }

  /** Rearranged, the same symbols are listed. */
  lemma SameUsed(freqs: seq<nat>, a: seq<u32>, b: seq<u32>, last: nat)
    requires Counted(freqs, a, last) && multiset(a) == multiset(b)
    ensures forall k :: 0 <= k < |b| ==> Sym(b[k]) < |freqs| && freqs[Sym(b[k])] == Hi(b[k]) > 0
    ensures forall s :: 0 <= s < |freqs| && freqs[s] > 0 ==> s in Syms(b)
  {
    hide Hi, Sym;
    forall k | 0 <= k < |b| ensures Sym(b[k]) < |freqs| && freqs[Sym(b[k])] == Hi(b[k]) > 0 {
      assert b[k] in b;
      SameElements(a, b, b[k]);
    }
    forall s | 0 <= s < |freqs| && freqs[s] > 0 ensures s in Syms(b) {
      var p :| 0 <= p < |a| && Syms(a)[p] == s;
      SameElements(a, b, a[p]);
      var q :| 0 <= q < |b| && b[q] == a[p];
      assert Syms(b)[q] == s;
    }
  }

  /** Where the element at k of the sorted list was before. */
  lemma LaterIn(a: seq<u32>, b: seq<u32>, last: nat, n: nat, k: nat) returns (k': nat)
    requires HeapSort.Rearranged(a, b, last, n) && k < n
    ensures k' < n && a[k'] == b[k] && (k < last ==> k' == k) && (k >= last ==> k' >= last)
  {
    k' := k;
    if k >= last {
      HeapSort.MultisetSlices(a, b, last, n);
      assert b[last..n][k - last] == b[k];
      SameElements(a[last..n], b[last..n], b[k]);
      var p :| 0 <= p < n - last && a[last..n][p] == b[k];
      k' := last + p;
    }
  }

  // ---- the method

  lemma {:induction false} ElementBound(s: seq<nat>, k: nat)
    requires k < |s|
    ensures s[k] <= Sum(s)
  {
    if k > 0 {
      ElementBound(s[1..], k - 1);
    }
  }

  lemma {:induction false} FirstBound(bk: seq<nat>, b: nat)
    ensures First(bk, b) <= |bk|
  {
    if bk == [] {
      FirstOfNone(b);
    } else {
      FirstBound(bk[1..], b);
      FirstSplit(bk[0], bk[1..], b);
      assert bk == [bk[0]] + bk[1..];
    }
  }

  lemma {:induction false} FirstOfNone(b: nat)
    ensures First([], b) == 0
  {
    if b > 1 {
      FirstOfNone(b - 1);
      assert Marks([], b - 1) == [];
    }
  }

  lemma {:induction false} FirstSplit(x: nat, bk: seq<nat>, b: nat)
    ensures First([x] + bk, b) == First(bk, b) + if 1 <= x < b then 1 else 0
  {
    if b > 1 {
      FirstSplit(x, bk, b - 1);
      CountSplit([x], bk, b - 1);
      CountOne(x, b - 1);
    }
  }

  method CountFrequencies(numSyms: nat, freqs: seq<nat>, counters: array<nat>)
    requires 1 <= numSyms == |freqs| == counters.Length
    modifies counters
    ensures forall b :: 0 <= b < numSyms ==> counters[b] == Count(Buckets(freqs), b)
  {
    hide Count;
    ghost var bk := Buckets(freqs);
    for b := 0 to numSyms
      invariant forall c :: 0 <= c < b ==> counters[c] == 0
    {
      counters[b] := 0;
    }
    NoneYet(bk);
    for sym := 0 to numSyms
      invariant forall b :: 0 <= b < numSyms ==> counters[b] == Count(bk[..sym], b)
    {
      forall b {
        CountPrefix(bk, sym, b);
      }
      var b := Bucket(freqs[sym], numSyms);
      counters[b] := counters[b] + 1;
    }
    assert bk[..numSyms] == bk;
  }

  lemma NoneYet(bk: seq<nat>)
    ensures forall b :: Count(bk[..0], b) == 0
  {
    forall b ensures Count(bk[..0], b) == 0 {
      assert Marks(bk[..0], b) == [];
    }
  }

  method MakeCumulative(numSyms: nat, counters: array<nat>, ghost bk: seq<nat>) returns (numUsed: nat)
    requires 2 <= numSyms == |bk| == counters.Length
    requires forall b :: 0 <= b < numSyms ==> counters[b] == Count(bk, b)
    modifies counters
    ensures numUsed == First(bk, numSyms)
    ensures forall b :: 1 <= b < numSyms ==> counters[b] == First(bk, b)
  {
    hide Count, First;
    FirstNext(bk);
    numUsed := 0;
    for i := 1 to numSyms
      invariant numUsed == First(bk, i)
      invariant forall b :: 1 <= b < i ==> counters[b] == First(bk, b)
      invariant forall b :: i <= b < numSyms ==> counters[b] == Count(bk, b)
    {
      var count := counters[i];
      counters[i] := numUsed;
      numUsed := numUsed + count;
    }
  }

  method PlaceSymbols(numSyms: nat, freqs: seq<nat>, lens: array<nat>, counters: array<nat>, symout: array<u32>)
    requires 2 <= numSyms == |freqs| == counters.Length == lens.Length <= symout.Length
    requires numSyms <= SYMBOL_VALUES && forall s :: 0 <= s < numSyms ==> freqs[s] < HIGH_VALUES
    requires counters != lens && symout as object != counters && symout as object != lens
    requires forall b :: 1 <= b < numSyms ==> counters[b] == First(Buckets(freqs), b)
    modifies lens, counters, symout
    ensures Segments(freqs, symout[..], numSyms)
    ensures forall b :: 1 <= b < numSyms ==> counters[b] == First(Buckets(freqs), b + 1)
    ensures forall s :: 0 <= s < numSyms ==> lens[s] == if freqs[s] == 0 then 0 else old(lens[s])
  {
    hide Segments, First, Count, Hi, Sym, Pack, Bucket;
    ghost var bk := Buckets(freqs);
    FirstBound(bk, numSyms);
    SegmentsInit(freqs, symout[..]);
    NoneYet(bk);
    for sym := 0 to numSyms
      invariant Segments(freqs, symout[..], sym)
      invariant forall b :: 1 <= b < numSyms ==> counters[b] == Fill(bk, b, sym)
      invariant forall s :: 0 <= s < sym ==> lens[s] == if freqs[s] == 0 then 0 else old(lens[s])
      invariant forall s :: sym <= s < numSyms ==> lens[s] == old(lens[s])
    {
      forall b {
        CountPrefix(bk, sym, b);
      }
      var freq := freqs[sym];
      BucketZero(freq, numSyms);
      if freq != 0 {
        ghost var was := symout[..];
        var b := Bucket(freq, numSyms);
        var e := Pack(freq, sym);
        Place(freqs, was, sym, e);
        symout[counters[b]] := e;
        assert symout[..] == was[counters[b] := e];
        counters[b] := counters[b] + 1;
      } else {
        Skip(freqs, symout[..], sym);
        lens[sym] := 0;
      }
    }
    assert bk[..numSyms] == bk;
    assert forall b :: 1 <= b < numSyms ==> First(bk, b + 1) == First(bk, b) + Count(bk, b) by {
      FirstNext(bk);
    }
  }

  lemma FirstNext(bk: seq<nat>)
    ensures First(bk, 1) == 0
    ensures forall b :: b >= 1 ==> First(bk, b + 1) == First(bk, b) + Count(bk, b)
  {
  }

  lemma BucketZero(f: nat, n: nat)
    requires n >= 2
    ensures Bucket(f, n) < n && (Bucket(f, n) == 0 <==> f == 0)
  {
  }

  /** Fills symout with the used symbols in order, and sets the lengths of the unused ones to 0.
      With fewer than three symbols the last two counters would not delimit the last bucket. */
  method SortSymbols(numSyms: nat, freqs: seq<nat>, lens: array<nat>, symout: array<u32>) returns (numUsedSyms: nat)
    requires 3 <= numSyms == |freqs| == lens.Length <= symout.Length && numSyms <= SYMBOL_VALUES
    requires Sum(freqs) < HIGH_VALUES && symout as object != lens
    modifies lens, symout
    ensures numUsedSyms <= numSyms && SortedSymbols(freqs, symout[..numUsedSyms])
    ensures forall s :: 0 <= s < numSyms ==> lens[s] == if freqs[s] == 0 then 0 else old(lens[s])
  {
    hide Segments, Count, Counted, SortedSymbols, Sum;
    ghost var bk := Buckets(freqs);
    forall s | 0 <= s < numSyms ensures freqs[s] < HIGH_VALUES {
      ElementBound(freqs, s);
    }
    var counters := new nat[numSyms];
    CountFrequencies(numSyms, freqs, counters);
    numUsedSyms := MakeCumulative(numSyms, counters, bk);
    FirstBound(bk, numSyms);
    PlaceSymbols(numSyms, freqs, lens, counters, symout);
    ghost var a := symout[..];
    SegmentsCounted(freqs, a, numUsedSyms);
    FirstMonotone(bk, numSyms - 1, numSyms);
    HeapSort.HeapSort(symout, counters[numSyms - 2], counters[numSyms - 1] - counters[numSyms - 2]);
    LastSorted(freqs, a, symout[..], counters[numSyms - 2], numUsedSyms);
  }
}
