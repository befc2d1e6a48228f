/** The in-place construction of the non-leaf nodes of a Huffman tree. */
module HuffmanTree {
  import opened Arith
  import opened Packed
  import Optimal

  /** The history of a merge: before step e the leaves from i[e] and the nodes from b[e] still
      need a parent; step e makes node e of weight w[e].  lp and p are the parents of leaves and
      of nodes. */
  datatype Merge = Merge(i: seq<nat>, b: seq<nat>, lp: seq<nat>, p: seq<nat>, w: seq<nat>)

  /** All five histories reach up to step e. */
  ghost predicate Shape(n: nat, g: Merge, e: nat) {
    && |g.i| == |g.b| == e + 1 && |g.w| == e
    && g.i[0] == g.b[0] == 0
    && |g.lp| == g.i[e] <= n && |g.p| == g.b[e] && (if e == 0 then g.b[e] == 0 else g.b[e] < e)
    && g.i[e] + g.b[e] == 2 * e
  }

  ghost predicate TwoLeaves(f: seq<nat>, g: Merge, e: nat)
    requires e + 1 < |g.i| == |g.b| && e < |g.w|
  {
    var i, b := g.i[e], g.b[e];
    && g.i[e + 1] == i + 2 <= |g.lp| <= |f| && g.b[e + 1] == b <= e
    && g.lp[i] == g.lp[i + 1] == e
    && g.w[e] == f[i] + f[i + 1]
    && (b < e ==> f[i + 1] <= g.w[b])
  }

  ghost predicate TwoNodes(f: seq<nat>, g: Merge, e: nat)
    requires e + 1 < |g.i| == |g.b| && e < |g.w|
  {
    var i, b := g.i[e], g.b[e];
    && g.i[e + 1] == i <= |f| && g.b[e + 1] == b + 2 <= |g.p| && b + 2 <= e
    && g.p[b] == g.p[b + 1] == e
    && g.w[e] == g.w[b] + g.w[b + 1]
    && (i < |f| ==> g.w[b + 1] <= f[i])
  }

  ghost predicate LeafAndNode(f: seq<nat>, g: Merge, e: nat)
    requires e + 1 < |g.i| == |g.b| && e < |g.w|
  {
    var i, b := g.i[e], g.b[e];
    && g.i[e + 1] == i + 1 <= |g.lp| <= |f| && g.b[e + 1] == b + 1 <= |g.p| && b < e
    && g.lp[i] == g.p[b] == e
    && g.w[e] == f[i] + g.w[b]
    && (i + 1 < |f| ==> g.w[b] <= f[i + 1])
    && (b + 1 < e ==> f[i] <= g.w[b + 1])
  }

  /** Step e joins two nodes of least weight. */
  ghost predicate Step(f: seq<nat>, g: Merge, e: nat)
    requires e + 1 < |g.i| == |g.b| && e < |g.w|
  {
    TwoLeaves(f, g, e) || TwoNodes(f, g, e) || LeafAndNode(f, g, e)
  }

  ghost predicate Steps(f: seq<nat>, g: Merge, e: nat)
    requires Shape(|f|, g, e)
  {
    forall k :: 0 <= k < e ==> Step(f, g, k)
  }

  /** Parents come after their children, in the order of the children. */
  ghost predicate Parents(p: seq<nat>, e: nat) {
    && (forall k :: 0 <= k < |p| ==> k < p[k] < e)
    && Sorted(p)
  }

  ghost predicate LeafParents(lp: seq<nat>, e: nat) {
    && (forall k :: 0 <= k < |lp| ==> lp[k] < e)
    && Sorted(lp)
  }

  /** A finished merge of the sorted frequencies f. */
  ghost predicate Tree(f: seq<nat>, g: Merge) {
    && |f| >= 2 && Shape(|f|, g, |f| - 1) && Steps(f, g, |f| - 1)
    && |g.lp| == |f| && |g.p| == |f| - 2
    && Sorted(f) && Sorted(g.w)
    && Parents(g.p, |f| - 1) && LeafParents(g.lp, |f| - 1)
  }

  // ---- one step of the history

  function AddTwoLeaves(g: Merge, e: nat, w: nat): Merge
    requires |g.i| == |g.b| == e + 1
  {
    Merge(g.i + [g.i[e] + 2], g.b + [g.b[e]], g.lp + [e, e], g.p, g.w + [w])
  }

  function AddTwoNodes(g: Merge, e: nat, w: nat): Merge
    requires |g.i| == |g.b| == e + 1
  {
    Merge(g.i + [g.i[e]], g.b + [g.b[e] + 2], g.lp, g.p + [e, e], g.w + [w])
  }

  function AddLeafAndNode(g: Merge, e: nat, w: nat): Merge
    requires |g.i| == |g.b| == e + 1
  {
    Merge(g.i + [g.i[e] + 1], g.b + [g.b[e] + 1], g.lp + [e], g.p + [e], g.w + [w])
  }

  /** h continues g. */
  ghost predicate Extends(g: Merge, h: Merge) {
    g.i <= h.i && g.b <= h.b && g.lp <= h.lp && g.p <= h.p && g.w <= h.w
  }

  lemma StepsExtend(f: seq<nat>, g: Merge, h: Merge, e: nat)
    requires Shape(|f|, g, e) && Shape(|f|, h, e + 1) && Steps(f, g, e) && Extends(g, h) && Step(f, h, e)
    ensures Steps(f, h, e + 1)
  {
    forall k | 0 <= k < e + 1 ensures Step(f, h, k) {
      if k < e {
        StepExtends(f, g, h, e, k);
      }
    }
  }

  lemma StepExtends(f: seq<nat>, g: Merge, h: Merge, e: nat, k: nat)
    requires k < e && Shape(|f|, g, e) && Shape(|f|, h, e + 1) && Step(f, g, k) && Extends(g, h)
    ensures Step(f, h, k)
  {
    assert h.i[k] == g.i[k] && h.i[k + 1] == g.i[k + 1];
    assert h.b[k] == g.b[k] && h.b[k + 1] == g.b[k + 1];
    assert h.w[k] == g.w[k];
  }

  // ---- the loop invariant of BuildTree

  /** What the next two lightest nodes are worth at least. */
  ghost predicate Floor(f: seq<nat>, g: Merge, e: nat, top: nat)
    requires Shape(|f|, g, e)
  {
    && (e > 0 ==> g.w[e - 1] <= 2 * top)
    && (g.i[e] < |f| ==> top <= f[g.i[e]])
    && (g.b[e] < e ==> top <= g.w[g.b[e]])
  }

  ghost function Remaining(f: seq<nat>, g: Merge, e: nat): nat
    requires Shape(|f|, g, e)
  {
    Sum(f[g.i[e]..]) + Sum(g.w[g.b[e]..])
  }

  ghost predicate Inv(f: seq<nat>, g: Merge, e: nat, top: nat) {
    && Shape(|f|, g, e) && Steps(f, g, e)
    && Sorted(f) && Sorted(g.w)
    && Parents(g.p, e) && LeafParents(g.lp, e)
    && Floor(f, g, e, top)
    && Remaining(f, g, e) == Sum(f)
  }

  lemma {:induction false} SumTwo(s: seq<nat>, k: nat)
    requires k + 1 < |s|
    ensures Sum(s[k..]) == s[k] + s[k + 1] + Sum(s[k + 2..])
  {
    assert s[k..][1..] == s[k + 1..];
    assert s[k + 1..][1..] == s[k + 2..];
  }

  lemma SumOne(s: seq<nat>, k: nat)
    requires k < |s|
    ensures Sum(s[k..]) == s[k] + Sum(s[k + 1..])
  {
    assert s[k..][1..] == s[k + 1..];
  }

  lemma SumPush(s: seq<nat>, k: nat, x: nat)
    requires k <= |s|
    ensures Sum((s + [x])[k..]) == Sum(s[k..]) + x
  {
    assert (s + [x])[k..] == s[k..] + [x];
    SumAppend(s[k..], [x]);
    assert Sum([x]) == x;
  }

  lemma SortedPush(s: seq<nat>, x: nat)
    requires Sorted(s) && (s != [] ==> s[|s| - 1] <= x)
    ensures Sorted(s + [x])
  {
  }

  /** After step e no parent is larger than e, so e itself can be appended. */
  lemma ParentsPush(p: seq<nat>, e: nat, more: seq<nat>)
    requires Parents(p, e) && |p| + |more| <= e && forall k :: 0 <= k < |more| ==> more[k] == e
    ensures Parents(p + more, e + 1)
  {
  }

  lemma LeafParentsPush(lp: seq<nat>, e: nat, more: seq<nat>)
    requires LeafParents(lp, e) && forall k :: 0 <= k < |more| ==> more[k] == e
    ensures LeafParents(lp + more, e + 1)
  {
  }

  /** A step whose two children weigh at least `top` each. */
  lemma DoStep(f: seq<nat>, g: Merge, e: nat, h: Merge, top: nat, top': nat, lm: seq<nat>, pm: seq<nat>)
    requires Inv(f, g, e, top)
    requires Shape(|f|, h, e + 1) && Extends(g, h) && Step(f, h, e) && Floor(f, h, e + 1, top')
    requires h.lp == g.lp + lm && h.p == g.p + pm && h.w == g.w + [h.w[e]]
    requires forall k :: 0 <= k < |lm| ==> lm[k] == e
    requires forall k :: 0 <= k < |pm| ==> pm[k] == e
    requires 2 * top <= h.w[e] && Remaining(f, h, e + 1) == Sum(f)
    ensures Inv(f, h, e + 1, top')
  {
    StepsExtend(f, g, h, e);
    SortedPush(g.w, h.w[e]);
    ParentsPush(g.p, e, pm);
    LeafParentsPush(g.lp, e, lm);
  }

  lemma TwoLeavesSum(f: seq<nat>, g: Merge, e: nat, h: Merge)
    requires Shape(|f|, g, e) && Shape(|f|, h, e + 1) && g.i[e] + 1 < |f|
    requires h == AddTwoLeaves(g, e, f[g.i[e]] + f[g.i[e] + 1])
    ensures Remaining(f, h, e + 1) == Remaining(f, g, e) && h.w[e] <= Remaining(f, g, e)
  {
    SumTwo(f, g.i[e]);
    SumPush(g.w, g.b[e], h.w[e]);
  }

  lemma DoTwoLeaves(f: seq<nat>, g: Merge, e: nat, top: nat) returns (h: Merge, top': nat)
    requires Inv(f, g, e, top)
    requires g.i[e] + 1 < |f| && (g.b[e] == e || f[g.i[e] + 1] <= g.w[g.b[e]])
    ensures h == AddTwoLeaves(g, e, f[g.i[e]] + f[g.i[e] + 1])
    ensures Inv(f, h, e + 1, top') && Shape(|f|, h, e + 1) && Extends(g, h) && h.w[e] <= Sum(f)
  {
    h := AddTwoLeaves(g, e, f[g.i[e]] + f[g.i[e] + 1]);
    top' := f[g.i[e] + 1];
    TwoLeavesSum(f, g, e, h);
    assert TwoLeaves(f, h, e);
    DoStep(f, g, e, h, top, top', [e, e], []);
  }

  lemma TwoNodesSum(f: seq<nat>, g: Merge, e: nat, h: Merge)
    requires Shape(|f|, g, e) && Shape(|f|, h, e + 1) && g.b[e] + 1 < e
    requires h == AddTwoNodes(g, e, g.w[g.b[e]] + g.w[g.b[e] + 1])
    ensures Remaining(f, h, e + 1) == Remaining(f, g, e) && h.w[e] <= Remaining(f, g, e)
  {
    SumTwo(g.w, g.b[e]);
    SumPush(g.w, g.b[e] + 2, h.w[e]);
  }

  lemma DoTwoNodes(f: seq<nat>, g: Merge, e: nat, top: nat) returns (h: Merge, top': nat)
    requires Inv(f, g, e, top)
    requires g.b[e] + 2 <= e && (g.i[e] >= |f| || g.w[g.b[e] + 1] < f[g.i[e]])
    ensures h == AddTwoNodes(g, e, g.w[g.b[e]] + g.w[g.b[e] + 1])
    ensures Inv(f, h, e + 1, top') && Shape(|f|, h, e + 1) && Extends(g, h) && h.w[e] <= Sum(f)
  {
    h := AddTwoNodes(g, e, g.w[g.b[e]] + g.w[g.b[e] + 1]);
    top' := g.w[g.b[e] + 1];
    TwoNodesSum(f, g, e, h);
    assert TwoNodes(f, h, e);
    DoStep(f, g, e, h, top, top', [], [e, e]);
  }

  lemma LeafAndNodeSum(f: seq<nat>, g: Merge, e: nat, h: Merge)
    requires Shape(|f|, g, e) && Shape(|f|, h, e + 1) && g.i[e] < |f| && g.b[e] < e
    requires h == AddLeafAndNode(g, e, f[g.i[e]] + g.w[g.b[e]])
    ensures Remaining(f, h, e + 1) == Remaining(f, g, e) && h.w[e] <= Remaining(f, g, e)
  {
    SumOne(f, g.i[e]);
    SumOne(g.w, g.b[e]);
    SumPush(g.w, g.b[e] + 1, h.w[e]);
  }

  lemma DoLeafAndNode(f: seq<nat>, g: Merge, e: nat, top: nat) returns (h: Merge, top': nat)
    requires Inv(f, g, e, top) && e < |f| - 1
    requires !(g.i[e] + 1 < |f| && (g.b[e] == e || f[g.i[e] + 1] <= g.w[g.b[e]]))
    requires !(g.b[e] + 2 <= e && (g.i[e] >= |f| || g.w[g.b[e] + 1] < f[g.i[e]]))
    ensures g.i[e] < |f| && g.b[e] < e
    ensures h == AddLeafAndNode(g, e, f[g.i[e]] + g.w[g.b[e]])
    ensures Inv(f, h, e + 1, top') && Shape(|f|, h, e + 1) && Extends(g, h) && h.w[e] <= Sum(f)
  {
    var x, y := f[g.i[e]], g.w[g.b[e]];
    h := AddLeafAndNode(g, e, x + y);
    top' := if x <= y then y else x;
    LeafAndNodeSum(f, g, e, h);
    assert LeafAndNode(f, h, e);
    DoStep(f, g, e, h, top, top', [e], [e]);
  }

  lemma InvInit(f: seq<nat>)
    requires Sorted(f)
    ensures Inv(f, Merge([0], [0], [], [], []), 0, 0)
  {
    assert f[0..] == f;
  }

  lemma InvIsTree(f: seq<nat>, g: Merge, top: nat)
    requires |f| >= 2 && Inv(f, g, |f| - 1, top)
    ensures Tree(f, g)
  {
  }

  /** The array between steps: parents, then weights of nodes, and at the end the leaves that
      still need a parent.  `was` is the array on entry. */
  ghost predicate Layout(a: seq<u32>, was: seq<u32>, n: nat, g: Merge, e: nat) {
    && Shape(n, g, e) && |a| == |was| && n <= |a|
    && (forall k :: 0 <= k < |a| ==> Sym(a[k]) == Sym(was[k]))
    && (forall k :: 0 <= k < g.b[e] ==> Hi(a[k]) == g.p[k])
    && (forall k :: g.b[e] <= k < e ==> Hi(a[k]) == g.w[k])
    && (forall k :: g.i[e] <= k < |a| ==> a[k] == was[k])
  }

  /** The children of node e have got e as their parent; nothing else differs from `a`. */
  ghost predicate Parented(a: seq<u32>, mid: seq<u32>, from: nat, to: nat, e: nat) {
    && |mid| == |a| && from <= to <= |a|
    && (forall k :: 0 <= k < |a| ==> Sym(mid[k]) == Sym(a[k]))
    && (forall k :: from <= k < to ==> Hi(mid[k]) == e)
    && (forall k :: 0 <= k < |a| && !(from <= k < to) ==> mid[k] == a[k])
  }

  lemma LayoutNext(a: seq<u32>, mid: seq<u32>, was: seq<u32>, n: nat, g: Merge, h: Merge, e: nat, v: u32)
    requires Layout(a, was, n, g, e) && Shape(n, h, e + 1) && Extends(g, h) && e < |a|
    requires g.i[e] <= h.i[e + 1] && g.b[e] <= h.b[e + 1] <= |a|
    requires Parented(a, mid, g.b[e], h.b[e + 1], e)
    requires forall k :: g.b[e] <= k < h.b[e + 1] ==> h.p[k] == e
    requires Hi(v) == h.w[e] && Sym(v) == Sym(mid[e])
    ensures Layout(mid[e := v], was, n, h, e + 1)
  {
  }

  lemma LayoutInit(was: seq<u32>, n: nat)
    requires n <= |was|
    ensures Layout(was, was, n, Merge([0], [0], [], [], []), 0)
  {
  }

  lemma LayoutShape(a: seq<u32>, was: seq<u32>, n: nat, g: Merge, e: nat)
    requires Layout(a, was, n, g, e)
    ensures Shape(n, g, e)
  {
  }

  lemma LayoutRead(a: seq<u32>, was: seq<u32>, n: nat, g: Merge, e: nat)
    requires Layout(a, was, n, g, e) && e < n
    ensures Shape(n, g, e) && |a| == |was| && n <= |a|
    ensures forall k :: g.i[e] <= k < n ==> Hi(a[k]) == His(was[..n])[k]
    ensures forall k :: g.b[e] <= k < e ==> Hi(a[k]) == g.w[k]
  {
  }

  lemma LayoutFinal(a: seq<u32>, was: seq<u32>, n: nat, g: Merge)
    requires n >= 2 && Layout(a, was, n, g, n - 1) && g.b[n - 1] == n - 2
    ensures |a| == |was|
    ensures forall k :: 0 <= k < |a| ==> Sym(a[k]) == Sym(was[k])
    ensures forall k :: n <= k < |a| ==> a[k] == was[k]
    ensures forall k :: 0 <= k < n - 2 ==> Hi(a[k]) == g.p[k]
  {
  }

  method SetParent(A: array<u32>, k: nat, e: nat)
    requires k < A.Length && e < HIGH_VALUES
    modifies A
    ensures Parented(old(A[..]), A[..], k, k + 1, e)
  {
    A[k] := Pack(e, Sym(A[k]));
  }

  lemma ParentedNone(a: seq<u32>, b: nat, e: nat)
    requires b <= |a|
    ensures Parented(a, a, b, b, e)
  {
  }

  lemma ParentedTwice(a: seq<u32>, mid: seq<u32>, c: seq<u32>, b: nat, e: nat)
    requires Parented(a, mid, b, b + 1, e) && Parented(mid, c, b + 1, b + 2, e)
    ensures Parented(a, c, b, b + 2, e)
  {
  }

  /** Gives the two lightest nodes the parent e and returns their joint weight. */
  method TakeTwo(A: array<u32>, symCount: nat, i: nat, b: nat, e: nat, ghost was: seq<u32>, ghost g: Merge,
                 ghost top: nat)
    returns (i': nat, b': nat, newFreq: nat, ghost h: Merge, ghost top': nat)
    requires 2 <= symCount <= |was| == A.Length && symCount <= SYMBOL_VALUES && e < symCount - 1
    requires Inv(His(was[..symCount]), g, e, top) && Layout(A[..], was, symCount, g, e)
    requires |g.i| == |g.b| == e + 1 && i == g.i[e] && b == g.b[e]
    modifies A
    ensures Inv(His(was[..symCount]), h, e + 1, top')
    ensures Shape(symCount, h, e + 1) && i' == h.i[e + 1] && b' == h.b[e + 1]
    ensures Extends(g, h) && i <= i' && b <= b' <= e
    ensures forall k :: b <= k < b' ==> h.p[k] == e
    ensures newFreq == h.w[e] <= Sum(His(was[..symCount]))
    ensures Parented(old(A[..]), A[..], b, b', e)
  {
    hide Inv, Layout, Hi, Sym, Pack, His, Sum, Extends, Parented;
    var lastIdx := symCount - 1;
    ghost var f, a := His(was[..symCount]), A[..];
    LayoutRead(A[..], was, symCount, g, e);
    if i + 1 <= lastIdx && (b == e || Hi(A[i + 1]) <= Hi(A[b])) {
      h, top' := DoTwoLeaves(f, g, e, top);
      newFreq := Hi(A[i]) + Hi(A[i + 1]);
      i', b' := i + 2, b;
      ParentedNone(a, b, e);
    } else if b + 2 <= e && (i > lastIdx || Hi(A[b + 1]) < Hi(A[i])) {
      h, top' := DoTwoNodes(f, g, e, top);
      newFreq := Hi(A[b]) + Hi(A[b + 1]);
      SetParent(A, b, e);
      ghost var mid := A[..];
      SetParent(A, b + 1, e);
      ParentedTwice(a, mid, A[..], b, e);
      i', b' := i, b + 2;
    } else {
      h, top' := DoLeafAndNode(f, g, e, top);
      newFreq := Hi(A[i]) + Hi(A[b]);
      SetParent(A, b, e);
      i', b' := i + 1, b + 1;
    }
  }

  method BuildTree(A: array<u32>, symCount: nat) returns (ghost g: Merge)
    requires 2 <= symCount <= A.Length && symCount <= SYMBOL_VALUES
    requires Sorted(His(A[..symCount])) && Sum(His(A[..symCount])) < HIGH_VALUES
    modifies A
    ensures Tree(His(old(A[..symCount])), g)
    ensures forall k :: 0 <= k < A.Length ==> Sym(A[k]) == old(Sym(A[k]))
    ensures forall k :: symCount <= k < A.Length ==> A[k] == old(A[k])
    ensures forall k :: 0 <= k < symCount - 2 ==> Hi(A[k]) == g.p[k]
  {
    hide Inv, Layout, Hi, Sym, Pack, His, Sum, Extends;
    ghost var was := A[..];
    ghost var f := His(was[..symCount]);
    assert A[..symCount] == was[..symCount];
    ghost var top := 0;
    g := Merge([0], [0], [], [], []);
    var i, b, e := 0, 0, 0;
    InvInit(f);
    LayoutInit(was, symCount);
    while e < symCount - 1
      invariant 0 <= e <= symCount - 1
      invariant |g.i| == |g.b| == e + 1 && i == g.i[e] && b == g.b[e]
      invariant Inv(f, g, e, top)
      invariant Layout(A[..], was, symCount, g, e)
    {
      ghost var a, g0, b0 := A[..], g, b;
      var newFreq;
      i, b, newFreq, g, top := TakeTwo(A, symCount, i, b, e, was, g, top);
      ghost var mid := A[..];
      A[e] := Pack(newFreq, Sym(A[e]));
      assert A[..] == mid[e := A[e]];
      LayoutShape(a, was, symCount, g0, e);
      LayoutNext(a, mid, was, symCount, g0, g, e, A[e]);
      e := e + 1;
    }
    InvIsTree(f, g, top);
    LayoutFinal(A[..], was, symCount, g);
  }
}
