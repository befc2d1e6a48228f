/** Heapsort of a stretch of an array; heap indices count from 1 at `base`. */
module HeapSort {
  import opened Packed

  /** Element i of the heap that starts at base. */
  ghost function At(a: seq<int>, base: nat, i: nat): int
    requires 1 <= i && base + i <= |a|
  {
    a[base + i - 1]
  }

  /** Every node from `from` on is at least as large as its children. */
  ghost predicate HeapFrom(a: seq<int>, base: nat, length: nat, from: nat) {
    && base + length <= |a| && from >= 1
    && forall j :: 2 * from <= j <= length ==> At(a, base, j / 2) >= At(a, base, j)
  }

  /** The heap property but for node p, whose children are not above p's parent. */
  ghost predicate HeapBut(a: seq<int>, base: nat, length: nat, from: nat, p: nat) {
    && base + length <= |a| && 1 <= from <= p <= length
    && (forall j :: 2 * from <= j <= length && j / 2 != p ==> At(a, base, j / 2) >= At(a, base, j))
    && (p >= 2 * from ==> forall j :: 2 * from <= j <= length && j / 2 == p ==> At(a, base, p / 2) >= At(a, base, j))
  }

  ghost function Exchange(a: seq<int>, i: nat, j: nat): (r: seq<int>)
    requires i < |a| && j < |a|
    ensures |r| == |a|
  {
    a[i := a[j]][j := a[i]]
  }

  lemma ExchangeMultiset(a: seq<int>, i: nat, j: nat)
    requires i < |a| && j < |a|
    ensures multiset(Exchange(a, i, j)) == multiset(a)
  {
  }

  /** b is a with the elements from lo to hi rearranged. */
  ghost predicate Rearranged(a: seq<int>, b: seq<int>, lo: nat, hi: nat) {
    && lo <= hi <= |a| == |b|
    && multiset(b) == multiset(a)
    && forall k :: 0 <= k < |a| && !(lo <= k < hi) ==> b[k] == a[k]
  }

  lemma ExchangeRearranges(a: seq<int>, b: seq<int>, lo: nat, hi: nat, i: nat, j: nat)
    requires Rearranged(a, b, lo, hi) && lo <= i < hi && lo <= j < hi
    ensures Rearranged(a, Exchange(b, i, j), lo, hi)
  {
    ExchangeMultiset(b, i, j);
  }

  /** Moving the larger child c of p up moves the exception down to c. */
  lemma Sink(a: seq<int>, base: nat, length: nat, from: nat, p: nat, c: nat)
    requires HeapBut(a, base, length, from, p)
    requires c / 2 == p && 2 <= c <= length && At(a, base, p) < At(a, base, c)
    requires forall j :: 2 <= j <= length && j / 2 == p ==> At(a, base, j) <= At(a, base, c)
    ensures HeapBut(Exchange(a, base + p - 1, base + c - 1), base, length, from, c)
  {
    var b := Exchange(a, base + p - 1, base + c - 1);
    forall j | 2 * from <= j <= length && j / 2 != c ensures At(b, base, j / 2) >= At(b, base, j) {
      if j / 2 == p {
        assert At(a, base, j) <= At(a, base, c);
      } else if j == p {
        assert At(a, base, p / 2) >= At(a, base, c);
      } else {
        assert At(a, base, j / 2) >= At(a, base, j);
      }
    }
    forall j | 2 * from <= j <= length && j / 2 == c ensures At(b, base, c / 2) >= At(b, base, j) {
      assert At(a, base, j / 2) >= At(a, base, j);
    }
  }

  lemma Settle(a: seq<int>, base: nat, length: nat, from: nat, p: nat)
    requires HeapBut(a, base, length, from, p)
    requires forall j :: 2 <= j <= length && j / 2 == p ==> At(a, base, j) <= At(a, base, p)
    ensures HeapFrom(a, base, length, from)
  {
  }

  lemma {:induction false} RootIsMax(a: seq<int>, base: nat, length: nat, j: nat)
    requires HeapFrom(a, base, length, 1) && 1 <= j <= length
    ensures At(a, base, 1) >= At(a, base, j)
  {
    if j > 1 {
      RootIsMax(a, base, length, j / 2);
    }
  }

  /** One turn of the sift-down loop on the heap with the hole filled. */
  lemma SinkStep(was: seq<int>, f: seq<int>, base: nat, length: nat, from: nat, p: nat, c: nat)
    returns (r: seq<int>)
    requires HeapBut(f, base, length, from, p) && Rearranged(was, f, base, base + length)
    requires base + length <= |f| && 1 <= p < c <= length && (c == 2 * p || c == 2 * p + 1)
    requires f[base + p - 1] < f[base + c - 1]
    requires f[base + 2 * p - 1] <= f[base + c - 1]
    requires 2 * p + 1 <= length ==> f[base + 2 * p] <= f[base + c - 1]
    ensures HeapBut(r, base, length, from, c) && Rearranged(was, r, base, base + length)
    ensures |r| == |f| && r[base + p - 1] == f[base + c - 1] && r[base + c - 1] == f[base + p - 1]
    ensures forall k :: 0 <= k < |f| && k != base + p - 1 && k != base + c - 1 ==> r[k] == f[k]
  {
    hide Rearranged, HeapBut;
    r := Exchange(f, base + p - 1, base + c - 1);
    ExchangeRearranges(was, f, base, base + length, base + p - 1, base + c - 1);
    forall j | 2 <= j <= length && j / 2 == p ensures At(f, base, j) <= At(f, base, c) {
      assert j == 2 * p || j == 2 * p + 1;
    }
    Sink(f, base, length, from, p, c);
  }

  lemma SettleStep(f: seq<int>, base: nat, length: nat, from: nat, p: nat)
    requires HeapBut(f, base, length, from, p)
    requires base + length <= |f| && 1 <= p <= length
    requires 2 * p <= length ==> f[base + 2 * p - 1] <= f[base + p - 1]
    requires 2 * p + 1 <= length ==> f[base + 2 * p] <= f[base + p - 1]
    ensures HeapFrom(f, base, length, from)
  {
    Settle(f, base, length, from, p);
  }

  method HeapifySubtree(A: array<u32>, base: nat, length: nat, subtreeIdx: nat)
    requires base + length <= A.Length && 1 <= subtreeIdx <= length
    requires HeapFrom(A[..], base, length, subtreeIdx + 1)
    modifies A
    ensures HeapFrom(A[..], base, length, subtreeIdx)
    ensures Rearranged(old(A[..]), A[..], base, base + length)
  {
    hide HeapFrom, HeapBut, Rearranged;
    ghost var was := A[..];
    var v := A[base + subtreeIdx - 1];
    var parentIdx := subtreeIdx;
    var childIdx := 2 * parentIdx;
    // The heap with v put into the hole at parentIdx.
    ghost var filled: seq<int> := was;
    Start(filled, base, length, subtreeIdx);
    while childIdx <= length
      invariant subtreeIdx <= parentIdx <= length && childIdx == 2 * parentIdx
      invariant |filled| == A.Length && filled[base + parentIdx - 1] == v
      invariant forall k :: 0 <= k < A.Length && k != base + parentIdx - 1 ==> A[k] == filled[k]
      invariant HeapBut(filled, base, length, subtreeIdx, parentIdx)
      invariant Rearranged(was, filled, base, base + length)
      decreases length - parentIdx
    {
      if childIdx < length && A[base + childIdx] > A[base + childIdx - 1] {
        childIdx := childIdx + 1;
      }
      if v >= A[base + childIdx - 1] {
        break;
      }
      filled := SinkStep(was, filled, base, length, subtreeIdx, parentIdx, childIdx);
      A[base + parentIdx - 1] := A[base + childIdx - 1];
      parentIdx := childIdx;
      childIdx := 2 * parentIdx;
    }
    SettleStep(filled, base, length, subtreeIdx, parentIdx);
    A[base + parentIdx - 1] := v;
    assert A[..] == filled;
  }

  lemma Start(a: seq<int>, base: nat, length: nat, from: nat)
    requires base + length <= |a| && 1 <= from <= length && HeapFrom(a, base, length, from + 1)
    ensures HeapBut(a, base, length, from, from) && Rearranged(a, a, base, base + length)
  {
  }

  method HeapifyArray(A: array<u32>, base: nat, length: nat)
    requires base + length <= A.Length
    modifies A
    ensures length >= 1 ==> HeapFrom(A[..], base, length, 1)
    ensures Rearranged(old(A[..]), A[..], base, base + length)
  {
    var subtreeIdx := length / 2;
    while subtreeIdx >= 1
      invariant 0 <= subtreeIdx <= length / 2
      invariant HeapFrom(A[..], base, length, subtreeIdx + 1)
      invariant Rearranged(old(A[..]), A[..], base, base + length)
    {
      HeapifySubtree(A, base, length, subtreeIdx);
      subtreeIdx := subtreeIdx - 1;
    }
  }

  ghost predicate SortedFrom(a: seq<int>, lo: nat, hi: nat) {
    lo <= hi <= |a| && forall j, k :: lo <= j < k < hi ==> a[j] <= a[k]
  }

  /** A heap of the smallest elements, then the largest ones in order. */
  ghost predicate Partly(a: seq<int>, base: nat, length: nat, m: nat) {
    && base + length <= |a| && m <= length
    && (m >= 1 ==> HeapFrom(a, base, m, 1))
    && SortedFrom(a, base + m, base + length)
    && forall j, k :: base <= j < base + m <= k < base + length ==> a[j] <= a[k]
  }

  /** Moving the root behind the heap keeps everything but the heap property of the new root. */
  lemma TakeRoot(a: seq<int>, base: nat, length: nat, m: nat)
    requires Partly(a, base, length, m) && m >= 2
    ensures var b := Exchange(a, base + m - 1, base);
      && HeapFrom(b, base, m - 1, 2)
      && SortedFrom(b, base + m - 1, base + length)
      && forall j, k :: base <= j < base + m - 1 <= k < base + length ==> b[j] <= b[k]
  {
    forall j | 1 <= j <= m ensures At(a, base, j) <= a[base] {
      RootIsMax(a, base, m, j);
    }
    assert forall j :: base <= j < base + m ==> a[j] == At(a, base, j - base + 1);
  }

  lemma {:induction false} MultisetSlices(a: seq<int>, b: seq<int>, lo: nat, hi: nat)
    requires Rearranged(a, b, lo, hi)
    ensures multiset(a[lo..hi]) == multiset(b[lo..hi])
  {
    assert a[..lo] == b[..lo] && a[hi..] == b[hi..];
    ThreeParts(a, lo, hi);
    ThreeParts(b, lo, hi);
    SameRest(multiset(a[..lo]), multiset(a[hi..]), multiset(a[lo..hi]), multiset(b[lo..hi]));
  }

  lemma ThreeParts(a: seq<int>, lo: nat, hi: nat)
    requires lo <= hi <= |a|
    ensures multiset(a) == multiset(a[..lo]) + multiset(a[lo..hi]) + multiset(a[hi..])
  {
    assert a == a[..lo] + a[lo..hi] + a[hi..];
  }

  lemma SameRest(x: multiset<int>, y: multiset<int>, u: multiset<int>, v: multiset<int>)
    requires x + u + y == x + v + y
    ensures u == v
  {
    forall z ensures u[z] == v[z] {
      assert (x + u + y)[z] == (x + v + y)[z];
    }
  }

  lemma RearrangedTrans(a: seq<int>, b: seq<int>, c: seq<int>, lo: nat, mid: nat, hi: nat)
    requires Rearranged(a, b, lo, hi) && mid <= hi && Rearranged(b, c, lo, mid)
    ensures Rearranged(a, c, lo, hi)
  {
  }

  /** Rearranging a stretch keeps its elements below what is above all of them. */
  lemma StillBelow(a: seq<int>, b: seq<int>, lo: nat, mid: nat, hi: nat)
    requires Rearranged(a, b, lo, mid) && mid <= hi <= |a|
    requires SortedFrom(a, mid, hi)
    requires forall j, k :: lo <= j < mid <= k < hi ==> a[j] <= a[k]
    ensures SortedFrom(b, mid, hi)
    ensures forall j, k :: lo <= j < mid <= k < hi ==> b[j] <= b[k]
  {
    MultisetSlices(a, b, lo, mid);
    forall j, k | lo <= j < mid <= k < hi ensures b[j] <= b[k] {
      assert b[j] in multiset(b[lo..mid]) by {
        assert b[lo..mid][j - lo] == b[j];
      }
      assert b[j] in a[lo..mid];
    }
  }

  /** One turn of the sorting loop: `a` before it, `b` with the root moved behind the heap, `c` at
      the end. */
  lemma SortStep(was: seq<int>, a: seq<int>, b: seq<int>, c: seq<int>, base: nat, length: nat, m: nat)
    requires Partly(a, base, length, m) && m >= 2 && Rearranged(was, a, base, base + length)
    requires b == Exchange(a, base + m - 1, base)
    requires Rearranged(b, c, base, base + m - 1) && HeapFrom(c, base, m - 1, 1)
    ensures Partly(c, base, length, m - 1) && Rearranged(was, c, base, base + length)
  {
    hide HeapFrom, Rearranged;
    TakeRoot(a, base, length, m);
    ExchangeRearranges(was, a, base, base + length, base + m - 1, base);
    RearrangedTrans(was, b, c, base, base + m - 1, base + length);
    StillBelow(b, c, base, base + m - 1, base + length);
  }

  /** Sorts A[base .. base + length]. */
  method HeapSort(A: array<u32>, base: nat, length: nat)
    requires base + length <= A.Length
    modifies A
    ensures SortedFrom(A[..], base, base + length)
    ensures Rearranged(old(A[..]), A[..], base, base + length)
  {
    hide HeapFrom, Rearranged;
    HeapifyArray(A, base, length);
    ghost var was := old(A[..]);
    var m := length;
    while m >= 2
      invariant 0 <= m <= length
      invariant Partly(A[..], base, length, m)
      invariant Rearranged(was, A[..], base, base + length)
    {
      ghost var a := A[..];
      var tmp := A[base + m - 1];
      A[base + m - 1] := A[base];
      A[base] := tmp;
      ghost var b := A[..];
      assert b == Exchange(a, base + m - 1, base);
      TakeRoot(a, base, length, m);
      HeapifySubtree(A, base, m - 1, 1);
      SortStep(was, a, b, A[..], base, length, m);
      m := m - 1;
    }
  }
}
