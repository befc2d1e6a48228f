/** From the tree to the number of codewords of each length, with a limit on the length. */
module LengthCounts {
  import opened Arith
  import opened Packed
  import opened HuffmanTree
  import opened TreeDepths

  /** The part of the code space of 2^(|c| - 1) used by c[l] codewords of each length l. */
  function Codespace(c: seq<nat>): nat {
    if c == [] then 0 else 2 * Codespace(c[..|c| - 1]) + c[|c| - 1]
  }

  /** The counts after a codeword of length d became an inner node: two codewords of length d + 1. */
  function SplitAt(c: seq<nat>, d: nat): (r: seq<nat>)
    requires d + 1 < |c| && c[d] > 0
    ensures |r| == |c|
  {
    c[d := c[d] - 1][d + 1 := c[d + 1] + 2]
  }

  lemma SplitIs(c: seq<nat>, r: seq<nat>, d: nat)
    requires d + 1 < |c| == |r| && c[d] > 0 && r[d] == c[d] - 1 && r[d + 1] == c[d + 1] + 2
    requires forall k :: 0 <= k < |c| && k != d && k != d + 1 ==> r[k] == c[k]
    ensures r == SplitAt(c, d)
  {
  }

  lemma {:induction false} SplitKeepsCodespace(c: seq<nat>, d: nat)
    requires d + 1 < |c| && c[d] > 0
    ensures Codespace(SplitAt(c, d)) == Codespace(c)
  {
    var r, m := SplitAt(c, d), |c| - 1;
    if d + 1 == m {
      assert r[..m][..m - 1] == c[..m][..m - 1];
      assert Codespace(r[..m]) == 2 * Codespace(c[..m][..m - 1]) + c[d] - 1;
      assert Codespace(c[..m]) == 2 * Codespace(c[..m][..m - 1]) + c[d];
    } else {
      assert r[..m] == SplitAt(c[..m], d);
      SplitKeepsCodespace(c[..m], d);
    }
  }

  lemma {:induction false} SumUpdate(c: seq<nat>, k: nat, v: nat)
    requires k < |c|
    ensures Sum(c[k := v]) + c[k] == Sum(c) + v
  {
    if k == 0 {
      assert c[0 := v][1..] == c[1..];
    } else {
      assert c[k := v][1..] == c[1..][k - 1 := v];
      SumUpdate(c[1..], k - 1, v);
    }
  }

  lemma SplitAddsOne(c: seq<nat>, d: nat)
    requires d + 1 < |c| && c[d] > 0
    ensures Sum(SplitAt(c, d)) == Sum(c) + 1
  {
    SumUpdate(c, d, c[d] - 1);
    SumUpdate(c[d := c[d] - 1], d + 1, c[d + 1] + 2);
  }

  lemma {:induction false} ZeroCodespace(c: seq<nat>)
    requires forall k :: 0 <= k < |c| ==> c[k] == 0
    ensures Codespace(c) == 0 && Sum(c) == 0
  {
    if c != [] {
      ZeroCodespace(c[..|c| - 1]);
      assert c == c[..|c| - 1] + [0];
      SumAppend(c[..|c| - 1], [0]);
    }
  }

  /** A full code space with fewer than 2^max codewords has one shorter than max. */
  lemma ShorterExists(c: seq<nat>, max: nat)
    requires |c| == max + 1 && Codespace(c) == Pow2(max) && Sum(c) < Pow2(max)
    ensures exists k :: 0 <= k < max && c[k] > 0
  {
    assert c == c[..max] + [c[max]];
    SumAppend(c[..max], [c[max]]);
    assert Sum([c[max]]) == c[max];
    if forall k :: 0 <= k < max ==> c[k] == 0 {
      ZeroCodespace(c[..max]);
    }
  }

  lemma {:induction false} InitialCounts(max: nat)
    requires max >= 1
    ensures var c := seq(max + 1, k => if k == 1 then 2 else 0);
      Codespace(c) == Pow2(max) && Sum(c) == 2
    decreases max
  {
    var c := seq(max + 1, k => if k == 1 then 2 else 0);
    var c' := c[..max];
    assert c == c' + [c[max]];
    SumAppend(c', [c[max]]);
    assert Sum([c[max]]) == c[max];
    if max == 1 {
      assert c' == [0] && Codespace(c'[..0]) == 0;
    } else {
      assert c' == seq(max, k => if k == 1 then 2 else 0);
      InitialCounts(max - 1);
    }
  }

  // ---- exact counts while no depth reaches the limit

  ghost function Marks(s: seq<nat>, d: nat): (r: seq<nat>)
    ensures |r| == |s| && forall k :: 0 <= k < |s| ==> r[k] == if s[k] == d then 1 else 0
  {
    seq(|s|, k requires 0 <= k < |s| => if s[k] == d then 1 else 0)
  }

  /** How many elements of s equal d. */
  ghost function Count(s: seq<nat>, d: nat): nat {
    Sum(Marks(s, d))
  }

  /** The counts are those of the frontier before step e. */
  ghost predicate Tracks(f: seq<nat>, g: Merge, e: nat, c: seq<nat>) {
    && Tree(f, g) && e < |f| && g.i[e] <= |f| && g.b[e] <= e
    && forall d :: 0 <= d < |c| ==>
         c[d] == Frontier(f, g, Marks(LeafDepths(g), d), Marks(NodeDepths(g), d), e)
  }

  lemma MarkStep(f: seq<nat>, g: Merge, e: nat, d: nat)
    requires Tree(f, g) && e < |f| - 1
    requires g.i[e] <= |f| && g.b[e] <= e && g.i[e + 1] <= |f| && g.b[e + 1] <= e
    ensures var lv, nv := Marks(LeafDepths(g), d), Marks(NodeDepths(g), d);
      Frontier(f, g, lv, nv, e) + nv[e]
      == Frontier(f, g, lv, nv, e + 1) + if Depth(g.p, e) + 1 == d then 2 else 0
  {
    hide Sorted, Parents, LeafParents, Steps, Depth, Frontier;
    var lv, nv := Marks(LeafDepths(g), d), Marks(NodeDepths(g), d);
    var v := if Depth(g.p, e) + 1 == d then 1 else 0;
    ChildDepths(f, g, e);
    forall k | g.i[e] <= k < g.i[e + 1] ensures lv[k] == v {
      assert LeafDepths(g)[k] == Depth(g.p, e) + 1;
    }
    forall k | g.b[e] <= k < g.b[e + 1] ensures nv[k] == v {
      assert NodeDepths(g)[k] == Depth(g.p, e) + 1;
    }
    ShareStep(f, g, lv, nv, e, v);
    FrontierStep(f, g, lv, nv, e);
  }

  /** Node e, still counted as a codeword after step e, is among the counted ones. */
  lemma TrackedIsPositive(f: seq<nat>, g: Merge, e: nat, c: seq<nat>)
    requires Tree(f, g) && e < |f| - 1 && g.b[e + 1] <= e
    requires Tracks(f, g, e + 1, c) && Depth(g.p, e) < |c|
    ensures c[Depth(g.p, e)] > 0
  {
    var d := Depth(g.p, e);
    var nv := Marks(NodeDepths(g), d);
    assert NodeDepths(g)[e] == d && nv[e] == 1;
    SliceLast(nv, g.b[e + 1], e);
  }

  lemma TrackStep(f: seq<nat>, g: Merge, e: nat, c: seq<nat>)
    requires Tree(f, g) && e < |f| - 1
    requires g.i[e] <= |f| && g.b[e] <= e && g.i[e + 1] <= |f| && g.b[e + 1] <= e
    requires Tracks(f, g, e + 1, c) && Depth(g.p, e) + 1 < |c|
    ensures c[Depth(g.p, e)] > 0 && Tracks(f, g, e, SplitAt(c, Depth(g.p, e)))
  {
    hide Steps, Step, Depth, Frontier, Sorted;
    TrackedIsPositive(f, g, e, c);
    var D := Depth(g.p, e);
    forall d | 0 <= d < |c|
      ensures SplitAt(c, D)[d] == Frontier(f, g, Marks(LeafDepths(g), d), Marks(NodeDepths(g), d), e)
    {
      MarkStep(f, g, e, d);
      assert NodeDepths(g)[e] == D;
    }
  }

  lemma TrackRoot(f: seq<nat>, g: Merge, max: nat)
    requires Tree(f, g) && max >= 1
    ensures Tracks(f, g, |f| - 2, seq(max + 1, k => if k == 1 then 2 else 0))
  {
    var n := |f|;
    StageRange(f, g, n - 2);
    StageRange(f, g, n - 1);
    forall d | 0 <= d < max + 1
      ensures (if d == 1 then 2 else 0)
           == Frontier(f, g, Marks(LeafDepths(g), d), Marks(NodeDepths(g), d), n - 2)
    {
      var lv, nv := Marks(LeafDepths(g), d), Marks(NodeDepths(g), d);
      MarkStep(f, g, n - 2, d);
      assert lv[n..] == [] && nv[n - 2..n - 1] == [nv[n - 2]];
      assert Sum([nv[n - 2]]) == nv[n - 2];
      assert NodeDepths(g)[n - 2] == 0;
    }
  }

  lemma TracksLeaves(f: seq<nat>, g: Merge, c: seq<nat>)
    requires Tracks(f, g, 0, c)
    ensures forall d :: 0 <= d < |c| ==> c[d] == Count(LeafDepths(g), d)
  {
    forall d | 0 <= d < |c| ensures c[d] == Count(LeafDepths(g), d) {
      var lv, nv := Marks(LeafDepths(g), d), Marks(NodeDepths(g), d);
      assert lv[0..] == lv && nv[0..0] == [];
    }
  }

  // ---- the method

  /** After the nodes from e on have been visited. */
  ghost predicate Visited(f: seq<nat>, g: Merge, e: nat, c: seq<nat>, max: nat) {
    && Tree(f, g) && e < |f| - 1 && |c| == max + 1
    && c[0] == 0 && Codespace(c) == Pow2(max) && Sum(c) == |f| - e
    && (Depth(g.p, e) < max ==> Tracks(f, g, e, c))
  }

  lemma VisitRoot(f: seq<nat>, g: Merge, max: nat)
    requires Tree(f, g) && max >= 1
    ensures Visited(f, g, |f| - 2, seq(max + 1, k => if k == 1 then 2 else 0), max)
  {
    InitialCounts(max);
    TrackRoot(f, g, max);
  }

  /** Visiting node e, whose codeword length is d: its depth, or less when that reaches the limit. */
  lemma Visit(f: seq<nat>, g: Merge, e: nat, c: seq<nat>, max: nat, d: nat)
    requires e < |f| - 2 && Visited(f, g, e + 1, c, max) && 0 < d < max && c[d] > 0
    requires Depth(g.p, e) < max ==> d == Depth(g.p, e)
    ensures Visited(f, g, e, SplitAt(c, d), max)
  {
    hide Tracks, Depth, Codespace, Steps, Sorted, Parents, LeafParents;
    SplitKeepsCodespace(c, d);
    SplitAddsOne(c, d);
    if Depth(g.p, e) < max {
      VisitTracks(f, g, e, c, max);
    }
  }

  lemma VisitTracks(f: seq<nat>, g: Merge, e: nat, c: seq<nat>, max: nat)
    requires e < |f| - 2 && Visited(f, g, e + 1, c, max) && Depth(g.p, e) < max && c[Depth(g.p, e)] > 0
    ensures Tracks(f, g, e, SplitAt(c, Depth(g.p, e)))
  {
    hide Tracks, Codespace, Steps;
    DepthMonotone(g.p, e, e + 1);
    StageRange(f, g, e);
    StageRange(f, g, e + 1);
    TrackStep(f, g, e, c);
  }

  /** Where the visited node's codeword is taken from: never an empty length, never length 0. */
  lemma Available(f: seq<nat>, g: Merge, e: nat, c: seq<nat>, max: nat)
    requires e < |f| - 2 && Visited(f, g, e + 1, c, max) && |f| <= Pow2(max)
    ensures 0 < Depth(g.p, e)
    ensures Depth(g.p, e) < max ==> c[Depth(g.p, e)] > 0
    ensures exists k :: 0 < k < max && c[k] > 0
  {
    if Depth(g.p, e) < max {
      DepthMonotone(g.p, e, e + 1);
      StageRange(f, g, e + 1);
      TrackedIsPositive(f, g, e, c);
    }
    ShorterExists(c, max);
  }

  /** The visited nodes hold their depths, the others still their parents. */
  ghost predicate DepthsFrom(a: seq<u32>, was: seq<u32>, g: Merge, node: nat, root: nat) {
    && |a| == |was| && node <= root == |g.p| && root < |a| && Parents(g.p, root + 1)
    && (forall k :: 0 <= k < |a| ==> Sym(a[k]) == Sym(was[k]))
    && (forall k :: 0 <= k < node ==> Hi(a[k]) == g.p[k])
    && (forall k :: node <= k <= root ==> Hi(a[k]) == Depth(g.p, k))
    && (forall k :: root < k < |a| ==> a[k] == was[k])
  }

  lemma {:induction false} DepthBound(p: seq<nat>, j: nat)
    requires j <= |p| && Parents(p, |p| + 1)
    ensures Depth(p, j) <= |p| - j
    decreases |p| - j
  {
    if j < |p| {
      DepthBound(p, p[j]);
    }
  }

  lemma DepthsInit(was: seq<u32>, f: seq<nat>, g: Merge, root: nat, v: u32)
    requires Tree(f, g) && root == |f| - 2 && root < |was|
    requires forall k :: 0 <= k < root ==> Hi(was[k]) == g.p[k]
    requires Hi(v) == 0 && Sym(v) == Sym(was[root])
    ensures DepthsFrom(was[root := v], was, g, root, root)
  {
  }

  lemma ParentVisited(a: seq<u32>, was: seq<u32>, g: Merge, node: nat, root: nat)
    requires node < root && root <= SYMBOL_VALUES && DepthsFrom(a, was, g, node + 1, root)
    ensures |a| == |was| && root < |a| && root == |g.p| && Parents(g.p, |g.p| + 1)
    ensures node < Hi(a[node]) <= root && Hi(a[Hi(a[node])]) + 1 == Depth(g.p, node) <= root
  {
    DepthBound(g.p, node);
  }

  lemma DepthsNext(a: seq<u32>, was: seq<u32>, g: Merge, node: nat, root: nat, v: u32)
    requires node < root && DepthsFrom(a, was, g, node + 1, root)
    requires Hi(v) == Depth(g.p, node) && Sym(v) == Sym(a[node])
    ensures DepthsFrom(a[node := v], was, g, node, root)
  {
  }

  lemma DepthsFinal(a: seq<u32>, was: seq<u32>, g: Merge, root: nat)
    requires DepthsFrom(a, was, g, 0, root)
    ensures |a| == |was| && forall k :: 0 <= k < |a| ==> Sym(a[k]) == Sym(was[k])
    ensures forall k :: root < k < |a| ==> a[k] == was[k]
  {
  }

  method ComputeLengthCounts(A: array<u32>, rootIdx: nat, lenCounts: array<nat>, maxLen: nat, ghost f: seq<nat>,
                             ghost g: Merge)
    requires Tree(f, g) && rootIdx == |f| - 2 && |f| <= SYMBOL_VALUES && rootIdx < A.Length
    requires 1 <= maxLen < lenCounts.Length && |f| <= Pow2(maxLen)
    requires forall k :: 0 <= k < rootIdx ==> Hi(A[k]) == g.p[k]
    requires A as object != lenCounts
    modifies A, lenCounts
    ensures forall k :: 0 <= k < A.Length ==> Sym(A[k]) == old(Sym(A[k]))
    ensures forall k :: rootIdx < k < A.Length ==> A[k] == old(A[k])
    ensures Visited(f, g, 0, lenCounts[..maxLen + 1], maxLen)
  {
    hide Tree, Tracks, Visited, Depth, Parents, LeafParents, Codespace, Sum, Pow2, Hi, Sym, Pack, DepthsFrom, SplitAt;
    ghost var was := A[..];
    for len := 0 to maxLen + 1
      invariant forall k :: 0 <= k < len ==> lenCounts[k] == 0
      invariant A[..] == was
    {
      lenCounts[len] := 0;
    }
    lenCounts[1] := 2;
    assert lenCounts[..maxLen + 1] == seq(maxLen + 1, k => if k == 1 then 2 else 0);
    VisitRoot(f, g, maxLen);

    A[rootIdx] := Pack(0, Sym(A[rootIdx]));
    assert A[..] == was[rootIdx := A[rootIdx]];
    DepthsInit(was, f, g, rootIdx, A[rootIdx]);
    var node := rootIdx;
    while node > 0
      invariant node <= rootIdx
      invariant Visited(f, g, node, lenCounts[..maxLen + 1], maxLen)
      invariant DepthsFrom(A[..], was, g, node, rootIdx)
    {
      node := node - 1;
      ghost var a, c := A[..], lenCounts[..maxLen + 1];
      ParentVisited(a, was, g, node, rootIdx);
      Available(f, g, node, c, maxLen);
      var parent := Hi(A[node]);
      var parentDepth := Hi(A[parent]);
      var depth := parentDepth + 1;
      A[node] := Pack(depth, Sym(A[node]));
      assert A[..] == a[node := A[node]];
      DepthsNext(a, was, g, node, rootIdx, A[node]);
      if depth >= maxLen {
        depth := maxLen;
        depth := depth - 1;
        while lenCounts[depth] == 0
          invariant 0 < depth < maxLen
          invariant exists k :: 0 < k <= depth && lenCounts[k] > 0
          decreases depth
        {
          depth := depth - 1;
        }
      }
      lenCounts[depth] := lenCounts[depth] - 1;
      lenCounts[depth + 1] := lenCounts[depth + 1] + 2;
      SplitIs(c, lenCounts[..maxLen + 1], depth);
      Visit(f, g, node, c, maxLen, depth);
    }
    DepthsFinal(A[..], was, g, rootIdx);
  }
}
