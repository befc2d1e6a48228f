/** Depths in a merge tree.  Before step e the roots of the forest are the leaves from i[e] and
    the nodes b[e] .. e - 1: the frontier.  Sums over the frontier change by one node and its two
    children at each step. */
module TreeDepths {
  import opened Arith
  import opened Packed
  import opened HuffmanTree
  import opened Optimal

  /** Depth of node j when p holds the parents of all nodes but the root |p|. */
  ghost function Depth(p: seq<nat>, j: nat): nat
    requires j <= |p| && Parents(p, |p| + 1)
    decreases |p| - j
  {
    if j == |p| then 0 else 1 + Depth(p, p[j])
  }

  lemma {:induction false} DepthMonotone(p: seq<nat>, j: nat, k: nat)
    requires j <= k <= |p| && Parents(p, |p| + 1)
    ensures Depth(p, j) >= Depth(p, k)
    decreases |p| - j
  {
    if k < |p| {
      DepthMonotone(p, p[j], p[k]);
    }
  }

  ghost function NodeDepths(g: Merge): (d: seq<nat>)
    requires Parents(g.p, |g.p| + 1)
    ensures |d| == |g.p| + 1 && forall k :: 0 <= k < |d| ==> d[k] == Depth(g.p, k)
  {
    seq(|g.p| + 1, k requires 0 <= k < |g.p| + 1 => Depth(g.p, k))
  }

  ghost function LeafDepths(g: Merge): (d: seq<nat>)
    requires Parents(g.p, |g.p| + 1) && LeafParents(g.lp, |g.p| + 1)
    ensures |d| == |g.lp| && forall k :: 0 <= k < |d| ==> d[k] == 1 + Depth(g.p, g.lp[k])
  {
    seq(|g.lp|, k requires 0 <= k < |g.lp| => 1 + Depth(g.p, g.lp[k]))
  }

  /** More frequent symbols are never deeper. */
  lemma LeafDepthsDecrease(f: seq<nat>, g: Merge, j: nat, k: nat)
    requires Tree(f, g) && j <= k < |f|
    ensures LeafDepths(g)[j] >= LeafDepths(g)[k]
  {
    DepthMonotone(g.p, g.lp[j], g.lp[k]);
  }

  // ---- sums over the frontier

  ghost predicate Valued(f: seq<nat>, g: Merge, lv: seq<nat>, nv: seq<nat>) {
    Tree(f, g) && |lv| == |f| && |nv| == |f| - 1
  }

  ghost function Frontier(f: seq<nat>, g: Merge, lv: seq<nat>, nv: seq<nat>, e: nat): nat
    requires Valued(f, g, lv, nv) && e < |f|
    requires g.i[e] <= |f| && g.b[e] <= e
  {
    Sum(lv[g.i[e]..]) + Sum(nv[g.b[e]..e])
  }

  /** The values of the two children of node e. */
  ghost function Children(f: seq<nat>, g: Merge, lv: seq<nat>, nv: seq<nat>, e: nat): nat
    requires Valued(f, g, lv, nv) && e < |f| - 1 && Step(f, g, e)
  {
    var i, b := g.i[e], g.b[e];
    if g.i[e + 1] == i + 2 then lv[i] + lv[i + 1]
    else if g.b[e + 1] == b + 2 then nv[b] + nv[b + 1]
    else lv[i] + nv[b]
  }

  /** Stages advance: pointers stay in range. */
  lemma {:induction false} StageRange(f: seq<nat>, g: Merge, e: nat)
    requires Tree(f, g) && e < |f|
    ensures g.i[e] <= |f| && g.b[e] <= e
    ensures g.b[e] <= |f| - 2 && (e > 0 ==> g.b[e] < e)
    ensures g.i[e] + g.b[e] == 2 * e
  {
    if e > 0 {
      StageRange(f, g, e - 1);
      assert Step(f, g, e - 1);
    }
  }

  lemma SliceOne(s: seq<nat>, lo: nat, hi: nat)
    requires lo < hi <= |s|
    ensures Sum(s[lo..hi]) == s[lo] + Sum(s[lo + 1..hi])
  {
    assert s[lo..hi][1..] == s[lo + 1..hi];
  }

  lemma SliceLast(s: seq<nat>, lo: nat, hi: nat)
    requires lo <= hi < |s|
    ensures Sum(s[lo..hi + 1]) == Sum(s[lo..hi]) + s[hi]
  {
    assert s[lo..hi + 1] == s[lo..hi] + [s[hi]];
    SumAppend(s[lo..hi], [s[hi]]);
    assert Sum([s[hi]]) == s[hi];
  }

  /** The frontier before step e is the one after it with node e replaced by its children. */
  lemma FrontierStep(f: seq<nat>, g: Merge, lv: seq<nat>, nv: seq<nat>, e: nat)
    requires Valued(f, g, lv, nv) && e < |f| - 1 && Step(f, g, e)
    requires g.i[e] <= |f| && g.b[e] <= e && g.i[e + 1] <= |f| && g.b[e + 1] <= e
    ensures Frontier(f, g, lv, nv, e) + nv[e] == Frontier(f, g, lv, nv, e + 1) + Children(f, g, lv, nv, e)
  {
    var i, b := g.i[e], g.b[e];
    if g.i[e + 1] == i + 2 {
      SumTwo(lv, i);
      SliceLast(nv, b, e);
    } else if g.b[e + 1] == b + 2 {
      SliceOne(nv, b, e);
      SliceOne(nv, b + 1, e);
      SliceLast(nv, b + 2, e);
    } else {
      SumOne(lv, i);
      SliceOne(nv, b, e);
      SliceLast(nv, b + 1, e);
    }
  }

  /** What a step adds to the frontier sum is the same for all steps that follow the tree. */
  ghost predicate Conserves(f: seq<nat>, g: Merge, lv: seq<nat>, nv: seq<nat>, more: seq<nat>) {
    && Valued(f, g, lv, nv) && |more| == |f| - 1
    && forall e :: 0 <= e < |f| - 1 ==> Step(f, g, e) && Children(f, g, lv, nv, e) == nv[e] + more[e]
  }

  lemma FrontierEnd(f: seq<nat>, g: Merge, lv: seq<nat>, nv: seq<nat>, more: seq<nat>)
    requires Valued(f, g, lv, nv) && |more| == |f| - 1 && g.i[|f| - 1] == |f| && g.b[|f| - 1] == |f| - 2
    ensures Frontier(f, g, lv, nv, |f| - 1) == nv[|f| - 2] + Sum(more[|f| - 1..])
  {
    hide Steps, Sorted, Parents, LeafParents;
    var n := |f|;
    assert lv[n..] == [] && nv[n - 2..n - 1] == [nv[n - 2]] && more[n - 1..] == [];
    assert Sum([nv[n - 2]]) == nv[n - 2];
  }

  lemma {:induction false} FrontierSum(f: seq<nat>, g: Merge, lv: seq<nat>, nv: seq<nat>, more: seq<nat>, e: nat)
    requires Conserves(f, g, lv, nv, more) && e < |f|
    requires g.i[e] <= |f| && g.b[e] <= e
    ensures Frontier(f, g, lv, nv, e) == nv[|f| - 2] + Sum(more[e..])
    decreases |f| - e
  {
    hide Steps, Sorted, Parents, LeafParents, Sum, Frontier, Children;
    StageRange(f, g, e);
    if e == |f| - 1 {
      FrontierEnd(f, g, lv, nv, more);
    } else {
      StageRange(f, g, e + 1);
      FrontierStep(f, g, lv, nv, e);
      FrontierSum(f, g, lv, nv, more, e + 1);
      SumOne(more, e);
    }
  }

  /** Summed over all leaves: the root's value and everything the steps add. */
  lemma LeafSum(f: seq<nat>, g: Merge, lv: seq<nat>, nv: seq<nat>, more: seq<nat>)
    requires Conserves(f, g, lv, nv, more)
    ensures Sum(lv) == nv[|f| - 2] + Sum(more)
  {
    FrontierSum(f, g, lv, nv, more, 0);
    assert lv[0..] == lv && nv[0..0] == [] && more[0..] == more;
  }

  // ---- the cost of the tree

  ghost function Products(w: seq<nat>, d: seq<nat>): (r: seq<nat>)
    requires |w| == |d|
    ensures |r| == |w| && forall k :: 0 <= k < |w| ==> r[k] == Times(w[k], d[k])
  {
    seq(|w|, k requires 0 <= k < |w| => Times(w[k], d[k]))
  }

  /** The two children of node e are one deeper than e. */
  lemma ChildDepths(f: seq<nat>, g: Merge, e: nat)
    requires Tree(f, g) && e < |f| - 1
    ensures Step(f, g, e)
    ensures forall k :: g.i[e] <= k < g.i[e + 1] ==> LeafDepths(g)[k] == Depth(g.p, e) + 1
    ensures forall k :: g.b[e] <= k < g.b[e + 1] ==> NodeDepths(g)[k] == Depth(g.p, e) + 1
  {
    hide Sorted, Inv;
    StageRange(f, g, e);
    StageRange(f, g, e + 1);
  }

  lemma CostStep(f: seq<nat>, g: Merge, ld: seq<nat>, nd: seq<nat>, e: nat)
    requires Tree(f, g) && e < |f| - 1 && Step(f, g, e) && |ld| == |f| && |nd| == |f| - 1
    requires forall k :: g.i[e] <= k < g.i[e + 1] ==> ld[k] == nd[e] + 1
    requires forall k :: g.b[e] <= k < g.b[e + 1] ==> nd[k] == nd[e] + 1
    ensures Children(f, g, Products(f, ld), Products(g.w, nd), e) == Products(g.w, nd)[e] + g.w[e]
  {
    var i, b, d := g.i[e], g.b[e], nd[e];
    if g.i[e + 1] == i + 2 {
      TimesAdd(f[i], f[i + 1], d + 1);
    } else if g.b[e + 1] == b + 2 {
      TimesAdd(g.w[b], g.w[b + 1], d + 1);
    } else {
      TimesAdd(f[i], g.w[b], d + 1);
    }
  }

  /** The weighted path length of the tree is the sum of the weights of its inner nodes. */
  lemma PathLength(f: seq<nat>, g: Merge)
    requires Tree(f, g)
    ensures Sum(Products(f, LeafDepths(g))) == Sum(g.w)
  {
    var ld, nd := LeafDepths(g), NodeDepths(g);
    forall e | 0 <= e < |f| - 1
      ensures Step(f, g, e)
      ensures Children(f, g, Products(f, ld), Products(g.w, nd), e) == Products(g.w, nd)[e] + g.w[e]
    {
      ChildDepths(f, g, e);
      CostStep(f, g, ld, nd, e);
    }
    LeafSum(f, g, Products(f, ld), Products(g.w, nd), g.w);
  }

  // ---- the Kraft sum of the tree

  ghost function Shares(l: seq<nat>, d: nat): (r: seq<nat>)
    requires forall k :: 0 <= k < |l| ==> l[k] <= d
    ensures |r| == |l| && forall k :: 0 <= k < |l| ==> r[k] == Pow2(d - l[k])
  {
    seq(|l|, k requires 0 <= k < |l| => Pow2(d - l[k]))
  }

  lemma {:induction false} SumZeros(n: nat)
    ensures Sum(seq(n, _ => 0)) == 0
  {
    if n > 0 {
      assert seq(n, _ => 0)[1..] == seq(n - 1, _ => 0);
      SumZeros(n - 1);
    }
  }

  lemma NodeDepthBound(f: seq<nat>, g: Merge, d: nat, e: nat)
    requires Tree(f, g) && e < |f| - 1
    requires forall k :: 0 <= k < |f| ==> LeafDepths(g)[k] <= d
    ensures Depth(g.p, e) < d
  {
    // Node 0 is the deepest, and its children are the leaves 0 and 1.
    DepthMonotone(g.p, 0, e);
    ChildDepths(f, g, 0);
    assert LeafDepths(g)[0] == Depth(g.p, 0) + 1;
  }

  lemma ShareStep(f: seq<nat>, g: Merge, lv: seq<nat>, nv: seq<nat>, e: nat, v: nat)
    requires Valued(f, g, lv, nv) && e < |f| - 1 && Step(f, g, e)
    requires forall k :: g.i[e] <= k < g.i[e + 1] ==> lv[k] == v
    requires forall k :: g.b[e] <= k < g.b[e + 1] ==> nv[k] == v
    ensures Children(f, g, lv, nv, e) == 2 * v
  {
  }

  lemma KraftStep(f: seq<nat>, g: Merge, d: nat, e: nat)
    requires Tree(f, g) && e < |f| - 1
    requires forall k :: 0 <= k < |f| ==> LeafDepths(g)[k] <= d
    requires forall k :: 0 <= k < |f| - 1 ==> NodeDepths(g)[k] < d
    ensures Step(f, g, e)
    ensures Children(f, g, Shares(LeafDepths(g), d), Shares(NodeDepths(g), d), e)
         == Shares(NodeDepths(g), d)[e]
  {
    hide Sorted, Parents, LeafParents, Steps;
    ChildDepths(f, g, e);
    assert NodeDepths(g)[e] == Depth(g.p, e);
    var v := Pow2(d - (Depth(g.p, e) + 1));
    forall k | g.i[e] <= k < g.i[e + 1] ensures Shares(LeafDepths(g), d)[k] == v {
      assert LeafDepths(g)[k] == Depth(g.p, e) + 1;
    }
    forall k | g.b[e] <= k < g.b[e + 1] ensures Shares(NodeDepths(g), d)[k] == v {
      assert NodeDepths(g)[k] == Depth(g.p, e) + 1;
    }
    ShareStep(f, g, Shares(LeafDepths(g), d), Shares(NodeDepths(g), d), e, v);
  }

  lemma NodesFit(f: seq<nat>, g: Merge, d: nat)
    requires Tree(f, g)
    requires forall k :: 0 <= k < |f| ==> LeafDepths(g)[k] <= d
    ensures forall e :: 0 <= e < |f| - 1 ==> NodeDepths(g)[e] < d
  {
    hide Sorted, Steps;
    forall e | 0 <= e < |f| - 1 ensures NodeDepths(g)[e] < d {
      NodeDepthBound(f, g, d, e);
    }
  }

  /** The share of a node is that of its children. */
  lemma SharesConserved(f: seq<nat>, g: Merge, d: nat)
    requires Tree(f, g)
    requires forall k :: 0 <= k < |f| ==> LeafDepths(g)[k] <= d
    requires forall e :: 0 <= e < |f| - 1 ==> NodeDepths(g)[e] < d
    ensures Conserves(f, g, Shares(LeafDepths(g), d), Shares(NodeDepths(g), d), seq(|f| - 1, _ => 0))
  {
    hide Step, Sorted, Children, Pow2, Steps;
    forall e | 0 <= e < |f| - 1
      ensures Step(f, g, e)
      ensures Children(f, g, Shares(LeafDepths(g), d), Shares(NodeDepths(g), d), e) == Shares(NodeDepths(g), d)[e]
    {
      KraftStep(f, g, d, e);
    }
  }

  /** The leaf depths of a merge tree fill the code space exactly. */
  lemma TreeKraft(f: seq<nat>, g: Merge, d: nat)
    requires Tree(f, g)
    requires forall k :: 0 <= k < |f| ==> LeafDepths(g)[k] <= d
    ensures Sum(Shares(LeafDepths(g), d)) == Pow2(d)
  {
    hide Steps, Sorted, Conserves, Sum, Pow2, Parents, LeafParents;
    NodesFit(f, g, d);
    SharesConserved(f, g, d);
    LeafSum(f, g, Shares(LeafDepths(g), d), Shares(NodeDepths(g), d), seq(|f| - 1, _ => 0));
    SumZeros(|f| - 1);
  }

  // ---- optimality

  ghost function Assign(f: seq<nat>, l: seq<nat>): (s: Assignment)
    requires |f| == |l|
    ensures |s| == |f| && forall k :: 0 <= k < |f| ==> s[k] == Item(f[k], l[k])
  {
    seq(|f|, k requires 0 <= k < |f| => Item(f[k], l[k]))
  }

  lemma {:induction false} AssignCost(f: seq<nat>, l: seq<nat>)
    requires |f| == |l|
    ensures Cost(Assign(f, l)) == Sum(Products(f, l))
  {
    if f != [] {
      AssignCost(f[1..], l[1..]);
      assert Assign(f, l)[1..] == Assign(f[1..], l[1..]);
      assert Products(f, l)[1..] == Products(f[1..], l[1..]);
    }
  }

  lemma AllWithin(s: Assignment, d: nat)
    requires forall k :: 0 <= k < |s| ==> s[k].l <= d
    ensures Within(s, d)
  {
  }

  lemma FirstShare(s: Assignment, shares: seq<nat>, d: nat)
    requires s != [] && Within(s, d) && Within(s[1..], d) && |shares| == |s|
    ensures s[0].l <= d && Kraft(s, d) == Pow2(d - s[0].l) + Kraft(s[1..], d)
    ensures Sum(shares) == shares[0] + Sum(shares[1..])
  {
  }

  lemma {:induction false} AssignKraft(f: seq<nat>, l: seq<nat>, d: nat)
    requires |f| == |l| && forall k :: 0 <= k < |l| ==> l[k] <= d
    ensures Within(Assign(f, l), d) && Kraft(Assign(f, l), d) == Sum(Shares(l, d))
  {
    if f != [] {
      hide Pow2, Within, Kraft, Sum;
      AssignKraft(f[1..], l[1..], d);
      var s, shares := Assign(f, l), Shares(l, d);
      assert s[1..] == Assign(f[1..], l[1..]);
      assert shares[1..] == Shares(l[1..], d);
      AllWithin(s, d);
      FirstShare(s, shares, d);
    }
  }

  lemma {:induction false} AssignWeights(f: seq<nat>, l: seq<nat>)
    requires |f| == |l|
    ensures Weights(Assign(f, l)) == multiset(f)
  {
    if f != [] {
      AssignWeights(f[1..], l[1..]);
      assert Assign(f, l)[1..] == Assign(f[1..], l[1..]);
      assert f == [f[0]] + f[1..];
    }
  }

  /** The weights of the frontier before step e. */
  ghost function Roots(f: seq<nat>, g: Merge, e: nat): multiset<nat>
    requires Tree(f, g) && e < |f| && g.i[e] <= |f| && g.b[e] <= e
  {
    multiset(f[g.i[e]..]) + multiset(g.w[g.b[e]..e])
  }

  lemma PeelOne(s: seq<nat>, lo: nat, hi: nat)
    requires lo < hi <= |s|
    ensures multiset(s[lo..hi]) == multiset{s[lo]} + multiset(s[lo + 1..hi])
  {
    assert s[lo..hi] == [s[lo]] + s[lo + 1..hi];
  }

  lemma PeelLast(s: seq<nat>, lo: nat, hi: nat)
    requires lo <= hi < |s|
    ensures multiset(s[lo..hi + 1]) == multiset(s[lo..hi]) + multiset{s[hi]}
  {
    assert s[lo..hi + 1] == s[lo..hi] + [s[hi]];
  }

  lemma SliceAbove(s: seq<nat>, lo: nat, hi: nat, x: nat)
    requires lo <= hi <= |s| && Sorted(s) && (lo < hi ==> x <= s[lo])
    ensures forall z :: z in multiset(s[lo..hi]) ==> x <= z
  {
    forall z | z in multiset(s[lo..hi]) ensures x <= z {
      assert z in s[lo..hi];
    }
  }

  lemma JoinIsGreedy(fs: multiset<nat>, ws: multiset<nat>, m: multiset<nat>, m': multiset<nat>, x: nat, y: nat)
    requires m == multiset{x} + (multiset{y} + (fs + ws))
    requires m' == fs + (ws + multiset{x + y})
    requires forall z :: z in fs ==> x <= z && y <= z
    requires forall z :: z in ws ==> x <= z && y <= z
    ensures GreedyStep(m, m', x + y)
  {
    assert Lightest(m, x, y, fs + ws);
    assert m' == multiset{x + y} + (fs + ws);
  }

  lemma RootsNext(f: seq<nat>, g: Merge, e: nat, fs: multiset<nat>, ws: multiset<nat>)
    requires Tree(f, g) && e < |f| - 1 && g.i[e + 1] <= |f| && g.b[e + 1] <= e
    requires fs == multiset(f[g.i[e + 1]..]) && ws == multiset(g.w[g.b[e + 1]..e])
    ensures Roots(f, g, e + 1) == fs + (ws + multiset{g.w[e]})
  {
    PeelLast(g.w, g.b[e + 1], e);
  }

  lemma RootsAbove(f: seq<nat>, g: Merge, e: nat, x: nat, fs: multiset<nat>, ws: multiset<nat>)
    requires Tree(f, g) && e < |f| - 1 && g.i[e + 1] <= |f| && g.b[e + 1] <= e
    requires fs == multiset(f[g.i[e + 1]..]) && ws == multiset(g.w[g.b[e + 1]..e])
    requires g.i[e + 1] < |f| ==> x <= f[g.i[e + 1]]
    requires g.b[e + 1] < e ==> x <= g.w[g.b[e + 1]]
    ensures forall z :: z in fs ==> x <= z
    ensures forall z :: z in ws ==> x <= z
  {
    assert f[g.i[e + 1]..] == f[g.i[e + 1]..|f|];
    SliceAbove(f, g.i[e + 1], |f|, x);
    SliceAbove(g.w, g.b[e + 1], e, x);
  }

  /** x and y are gone from the frontier after step e and are below everything left. */
  lemma RootsJoin(f: seq<nat>, g: Merge, e: nat, x: nat, y: nat, fs: multiset<nat>, ws: multiset<nat>)
    requires Tree(f, g) && e < |f| - 1
    requires g.i[e] <= |f| && g.b[e] <= e && g.i[e + 1] <= |f| && g.b[e + 1] <= e
    requires fs == multiset(f[g.i[e + 1]..]) && ws == multiset(g.w[g.b[e + 1]..e])
    requires g.w[e] == x + y
    requires g.i[e + 1] < |f| ==> x <= f[g.i[e + 1]] && y <= f[g.i[e + 1]]
    requires g.b[e + 1] < e ==> x <= g.w[g.b[e + 1]] && y <= g.w[g.b[e + 1]]
    requires Roots(f, g, e) == multiset{x} + (multiset{y} + (fs + ws))
    ensures GreedyStep(Roots(f, g, e), Roots(f, g, e + 1), x + y)
  {
    hide Step, Steps, Parents, LeafParents, GreedyStep, Lightest, Roots, Sorted;
    RootsNext(f, g, e, fs, ws);
    RootsAbove(f, g, e, x, fs, ws);
    RootsAbove(f, g, e, y, fs, ws);
    JoinIsGreedy(fs, ws, Roots(f, g, e), Roots(f, g, e + 1), x, y);
  }

  lemma Regroup(a: multiset<nat>, b: multiset<nat>, x: nat, y: nat)
    ensures (multiset{x} + (multiset{y} + a)) + b == multiset{x} + (multiset{y} + (a + b))
    ensures a + (multiset{x} + (multiset{y} + b)) == multiset{x} + (multiset{y} + (a + b))
    ensures (multiset{x} + a) + (multiset{y} + b) == multiset{x} + (multiset{y} + (a + b))
  {
  }

  lemma LeavesFirst(f: seq<nat>, g: Merge, e: nat)
    requires Tree(f, g) && e < |f| && g.i[e] + 2 <= |f| && g.b[e] <= e
    ensures Roots(f, g, e) == multiset{f[g.i[e]]} + (multiset{f[g.i[e] + 1]}
                              + (multiset(f[g.i[e] + 2..]) + multiset(g.w[g.b[e]..e])))
  {
    hide Sorted, Parents, LeafParents, Steps;
    var i, n := g.i[e], |f|;
    assert f[i..] == f[i..n] && f[i + 2..] == f[i + 2..n];
    PeelOne(f, i, n);
    PeelOne(f, i + 1, n);
    Regroup(multiset(f[i + 2..]), multiset(g.w[g.b[e]..e]), f[i], f[i + 1]);
  }

  lemma RootsTwoLeaves(f: seq<nat>, g: Merge, e: nat)
    requires Tree(f, g) && e < |f| - 1 && TwoLeaves(f, g, e)
    requires g.i[e] <= |f| && g.b[e] <= e && g.i[e + 1] <= |f| && g.b[e + 1] <= e
    ensures GreedyStep(Roots(f, g, e), Roots(f, g, e + 1), g.w[e])
  {
    hide Sorted, Parents, LeafParents, GreedyStep, Lightest, Steps, Roots;
    var i := g.i[e];
    LeavesFirst(f, g, e);
    LeafOrder(f, g, i);
    RootsJoin(f, g, e, f[i], f[i + 1], multiset(f[i + 2..]), multiset(g.w[g.b[e]..e]));
  }

  lemma NodesFirst(f: seq<nat>, g: Merge, e: nat)
    requires Tree(f, g) && e < |f| && g.i[e] <= |f| && g.b[e] + 2 <= e
    ensures Roots(f, g, e) == multiset{g.w[g.b[e]]} + (multiset{g.w[g.b[e] + 1]}
                              + (multiset(f[g.i[e]..]) + multiset(g.w[g.b[e] + 2..e])))
  {
    hide Sorted, Parents, LeafParents, Steps;
    var b := g.b[e];
    PeelOne(g.w, b, e);
    PeelOne(g.w, b + 1, e);
    Regroup(multiset(f[g.i[e]..]), multiset(g.w[b + 2..e]), g.w[b], g.w[b + 1]);
  }

  lemma RootsTwoNodes(f: seq<nat>, g: Merge, e: nat)
    requires Tree(f, g) && e < |f| - 1 && TwoNodes(f, g, e)
    requires g.i[e] <= |f| && g.b[e] <= e && g.i[e + 1] <= |f| && g.b[e + 1] <= e
    ensures GreedyStep(Roots(f, g, e), Roots(f, g, e + 1), g.w[e])
  {
    hide Sorted, Parents, LeafParents, GreedyStep, Lightest, Steps, Roots;
    var b := g.b[e];
    NodesFirst(f, g, e);
    NodeOrder(f, g, b);
    RootsJoin(f, g, e, g.w[b], g.w[b + 1], multiset(f[g.i[e]..]), multiset(g.w[b + 2..e]));
  }

  lemma RootsLeafAndNode(f: seq<nat>, g: Merge, e: nat)
    requires Tree(f, g) && e < |f| - 1 && LeafAndNode(f, g, e)
    requires g.i[e] <= |f| && g.b[e] <= e && g.i[e + 1] <= |f| && g.b[e + 1] <= e
    ensures GreedyStep(Roots(f, g, e), Roots(f, g, e + 1), g.w[e])
  {
    hide Sorted, Parents, LeafParents, GreedyStep, Lightest, Steps;
    var i, b, n := g.i[e], g.b[e], |f|;
    assert f[i..] == f[i..n] && f[i + 1..] == f[i + 1..n];
    PeelOne(f, i, n);
    PeelOne(g.w, b, e);
    Regroup(multiset(f[i + 1..]), multiset(g.w[b + 1..e]), f[i], g.w[b]);
    LeafOrder(f, g, i);
    NodeOrder(f, g, b);
    RootsJoin(f, g, e, f[i], g.w[b], multiset(f[i + 1..]), multiset(g.w[b + 1..e]));
  }

  lemma RootsStep(f: seq<nat>, g: Merge, e: nat)
    requires Tree(f, g) && e < |f| - 1
    requires g.i[e] <= |f| && g.b[e] <= e && g.i[e + 1] <= |f| && g.b[e + 1] <= e
    ensures GreedyStep(Roots(f, g, e), Roots(f, g, e + 1), g.w[e])
  {
    hide Sorted, Parents, LeafParents, GreedyStep, TwoLeaves, TwoNodes, LeafAndNode;
    assert Step(f, g, e);
    if TwoLeaves(f, g, e) {
      RootsTwoLeaves(f, g, e);
    } else if TwoNodes(f, g, e) {
      RootsTwoNodes(f, g, e);
    } else {
      RootsLeafAndNode(f, g, e);
    }
  }

  lemma LeafOrder(f: seq<nat>, g: Merge, i: nat)
    requires Tree(f, g)
    ensures i + 1 < |f| ==> f[i] <= f[i + 1]
    ensures i + 2 < |f| ==> f[i + 1] <= f[i + 2]
  {
  }

  lemma NodeOrder(f: seq<nat>, g: Merge, b: nat)
    requires Tree(f, g)
    ensures b + 1 < |g.w| ==> g.w[b] <= g.w[b + 1]
    ensures b + 2 < |g.w| ==> g.w[b + 1] <= g.w[b + 2]
  {
  }

  lemma TreeIsGreedy(f: seq<nat>, g: Merge)
    requires Tree(f, g)
    ensures LowerBound(multiset(f), Sum(g.w))
  {
    forall e | 0 <= e < |f| ensures g.i[e] <= |f| && g.b[e] <= e {
      StageRange(f, g, e);
    }
    var ms := seq(|f|, e requires 0 <= e < |f| => Roots(f, g, e));
    forall k | 0 <= k < |f| - 1 ensures GreedyStep(ms[k], ms[k + 1], g.w[k]) {
      StageRange(f, g, k + 1);
      RootsStep(f, g, k);
    }
    GreedyIsOptimal(ms, g.w);
    assert f[0..] == f && g.w[0..0] == [];
  }

  /** A merge tree has minimum weighted path length among all codes for its leaves: among all
      lengths l that satisfy the Kraft inequality, hence among all binary trees. */
  lemma TreeIsOptimal(f: seq<nat>, g: Merge, l: seq<nat>, d: nat)
    requires Tree(f, g) && |l| == |f|
    requires forall k :: 0 <= k < |l| ==> l[k] <= d
    requires Sum(Shares(l, d)) <= Pow2(d)
    ensures Sum(Products(f, LeafDepths(g))) <= Sum(Products(f, l))
  {
    hide Tree, Depth, Weights, Cost, Kraft, Times, Sum;
    PathLength(f, g);
    TreeIsGreedy(f, g);
    AssignWeights(f, l);
    AssignKraft(f, l, d);
    AssignCost(f, l);
    assert IsCode(Assign(f, l), d);
  }
}
