/** The trees of the binary tree matchfinder in memory: a table with two children for each position of
    the window, reused as the window moves. */
module BtMemory {
  import opened BitBuffer
  import opened MatchCommon
  import opened BtTrees

  /** Where the children of the position are. */
  function LeftOf(e: Pos): (i: nat)
    ensures i < 2 * WINDOW_SIZE
  {
    2 * Slot(e)
  }

  function RightOf(e: Pos): (i: nat)
    ensures i < 2 * WINDOW_SIZE
  {
    2 * Slot(e) + 1
  }

  /** Which two entries belong to a position of the input. */
  ghost function Ring(base: int, p: int): int {
    (p - base) % WINDOW_SIZE
  }

  ghost predicate Owns(base: int, t: Tree, i: int) {
    t.Node? && (i / 2 == Ring(base, t.pos) || Owns(base, t.left, i) || Owns(base, t.right, i))
  }

  /** The table holds the tree whose root is e; positions up to the cutoff are gone. */
  ghost predicate Holds(m: seq<Pos>, base: int, cutoff: int, e: Pos, t: Tree)
    requires |m| == 2 * WINDOW_SIZE
    decreases t
  {
    if base + e <= cutoff then t.Leaf?
    else
      && t.Node? && t.pos == base + e
      && Holds(m, base, cutoff, m[LeftOf(e)], t.left) && Holds(m, base, cutoff, m[RightOf(e)], t.right)
  }

  lemma RingOf(base: int, e: Pos)
    ensures Slot(e) == Ring(base, base + e) && LeftOf(e) / 2 == RightOf(e) / 2 == Ring(base, base + e)
  {
  }

  /** Writing elsewhere does not change the tree. */
  lemma {:induction false} HoldsStill(m: seq<Pos>, m': seq<Pos>, base: int, cutoff: int, e: Pos, t: Tree)
    requires |m| == |m'| == 2 * WINDOW_SIZE && Holds(m, base, cutoff, e, t)
    requires forall i :: 0 <= i < |m| && Owns(base, t, i) ==> m'[i] == m[i]
    ensures Holds(m', base, cutoff, e, t)
    decreases t
  {
    if t.Node? {
      RingOf(base, e);
      HoldsStill(m, m', base, cutoff, m[LeftOf(e)], t.left);
      HoldsStill(m, m', base, cutoff, m[RightOf(e)], t.right);
    }
  }

  lemma {:induction false} HoldsInWindow(m: seq<Pos>, base: int, cutoff: int, e: Pos, t: Tree, y: nat)
    requires |m| == 2 * WINDOW_SIZE && Holds(m, base, cutoff, e, t) && y in Positions(t)
    ensures y > cutoff
    decreases t
  {
    if y != t.pos {
      if y in Positions(t.left) {
        HoldsInWindow(m, base, cutoff, m[LeftOf(e)], t.left, y);
      } else {
        HoldsInWindow(m, base, cutoff, m[RightOf(e)], t.right, y);
      }
    }
  }

  lemma {:induction false} OwnedBy(base: int, t: Tree, i: int) returns (y: nat)
    requires Owns(base, t, i)
    ensures y in Positions(t) && i / 2 == Ring(base, y)
  {
    if i / 2 == Ring(base, t.pos) {
      y := t.pos;
    } else if Owns(base, t.left, i) {
      y := OwnedBy(base, t.left, i);
    } else {
      y := OwnedBy(base, t.right, i);
    }
  }

  lemma {:induction false} Owner(base: int, t: Tree, y: nat, i: int)
    requires y in Positions(t) && i / 2 == Ring(base, y)
    ensures Owns(base, t, i)
  {
    if y != t.pos {
      if y in Positions(t.left) {
        Owner(base, t.left, y, i);
      } else {
        Owner(base, t.right, y, i);
      }
    }
  }

  /** All positions are in one window. */
  ghost predicate InWindow(t: Tree, cutoff: int) {
    forall y :: y in Positions(t) ==> cutoff < y < cutoff + WINDOW_SIZE
  }

  lemma RingsDiffer(base: int, x: int, y: int)
    requires x != y && -WINDOW_SIZE < x - y < WINDOW_SIZE
    ensures Ring(base, x) != Ring(base, y)
  {
  }

  /** Trees without a common position have no entry in common. */
  lemma Separate(base: int, cutoff: int, t: Tree, u: Tree, i: int)
    requires InWindow(t, cutoff) && InWindow(u, cutoff) && Positions(t) !! Positions(u)
    ensures !(Owns(base, t, i) && Owns(base, u, i))
  {
    if Owns(base, t, i) && Owns(base, u, i) {
      var x := OwnedBy(base, t, i);
      var y := OwnedBy(base, u, i);
      RingsDiffer(base, x, y);
    }
  }

  // ---- what the way down leaves in the table

  /** All positions can be stored relative to the base. */
  ghost predicate Near(base: int, t: Tree) {
    forall y :: y in Positions(t) ==> -WINDOW_SIZE <= y - base < WINDOW_SIZE
  }

  lemma NearParts(base: int, t: Tree)
    requires t.Node? && Near(base, t)
    ensures Near(base, t.left) && Near(base, t.right) && -WINDOW_SIZE <= t.pos - base < WINDOW_SIZE
  {
    assert t.pos in Positions(t);
  }

  /** The table after the search from the root of t, with the two pending links pl and pg. */
  ghost function Descend(data: seq<u8>, m: seq<Pos>, base: int, t: Tree, pl: nat, pg: nat, cur: nat, maxLen: nat,
                         niceLen: nat, depth: nat): (m': seq<Pos>)
    requires |m| == 2 * WINDOW_SIZE && pl < |m| && pg < |m| && Before(data, t, cur, maxLen) && niceLen <= maxLen
    requires Near(base, t)
    ensures |m'| == |m|
    decreases t
  {
    if t.Leaf? || depth == 0 then m[pl := DEAD][pg := DEAD]
    else
      NearParts(base, t);
      var e: Pos := t.pos - base;
      var k := Common(data, t.pos, cur, maxLen);
      if k >= niceLen then m[pl := m[LeftOf(e)]][pg := m[RightOf(e)]]
      else if data[t.pos + k] < data[cur + k] then
        Descend(data, m[pl := e], base, t.right, RightOf(e), pg, cur, maxLen, niceLen, depth - 1)
      else
        Descend(data, m[pg := e], base, t.left, pl, LeftOf(e), cur, maxLen, niceLen, depth - 1)
  }

  /** The root and the two subtrees have no entry in common. */
  lemma PartsSeparate(data: seq<u8>, n: nat, base: int, cutoff: int, t: Tree)
    requires t.Node? && Ordered(data, n, t) && InWindow(t, cutoff)
    ensures forall i {:trigger Owns(base, t.left, i)} {:trigger Owns(base, t.right, i)} ::
      && !(Owns(base, t.left, i) && Owns(base, t.right, i))
      && (Owns(base, t.left, i) || Owns(base, t.right, i) ==> i / 2 != Ring(base, t.pos))
    ensures InWindow(t.left, cutoff) && InWindow(t.right, cutoff)
  {
    hide Leq, Ring;
    assert t.pos in Positions(t);
    var root := Tree.Node(t.pos, Leaf, Leaf);
    assert Positions(Leaf) == {} && Positions(root) == {t.pos};
    forall i {:trigger Owns(base, t.left, i)} {:trigger Owns(base, t.right, i)}
      ensures !(Owns(base, t.left, i) && Owns(base, t.right, i))
      ensures Owns(base, t.left, i) || Owns(base, t.right, i) ==> i / 2 != Ring(base, t.pos)
    {
      Separate(base, cutoff, t.left, t.right, i);
      Separate(base, cutoff, t.left, root, i);
      Separate(base, cutoff, t.right, root, i);
    }
  }

  /** The pending links hold the two trees, and nothing else has changed. */
  ghost predicate SplitHeld(m: seq<Pos>, m': seq<Pos>, base: int, cutoff: int, t: Tree, pl: nat, pg: nat, a: Tree,
                            b: Tree) {
    && |m| == |m'| == 2 * WINDOW_SIZE && pl < |m| && pg < |m|
    && Holds(m', base, cutoff, m'[pl], a) && Holds(m', base, cutoff, m'[pg], b)
    && forall i :: 0 <= i < |m| && i != pl && i != pg && !Owns(base, t, i) ==> m'[i] == m[i]
  }

  /** The links are no part of the tree. */
  ghost predicate Pending(base: int, t: Tree, pl: nat, pg: nat) {
    pl < 2 * WINDOW_SIZE && pg < 2 * WINDOW_SIZE && pl != pg && !Owns(base, t, pl) && !Owns(base, t, pg)
  }

  lemma HeldRight(data: seq<u8>, n: nat, m: seq<Pos>, m': seq<Pos>, base: int, cutoff: int, e: Pos, t: Tree, pl: nat,
                  pg: nat, a: Tree, b: Tree)
    requires |m| == 2 * WINDOW_SIZE && Holds(m, base, cutoff, e, t) && t.Node? && Ordered(data, n, t)
    requires InWindow(t, cutoff)
    requires Pending(base, t, pl, pg) && SplitHeld(m[pl := e], m', base, cutoff, t.right, RightOf(e), pg, a, b)
    ensures SplitHeld(m, m', base, cutoff, t, pl, pg, Tree.Node(t.pos, t.left, a), b)
  {
    hide Leq, Ring, Ordered, InWindow;
    RingOf(base, e);
    PartsSeparate(data, n, base, cutoff, t);
    HoldsStill(m, m', base, cutoff, m[LeftOf(e)], t.left);
  }

  lemma HeldLeft(data: seq<u8>, n: nat, m: seq<Pos>, m': seq<Pos>, base: int, cutoff: int, e: Pos, t: Tree, pl: nat,
                 pg: nat, a: Tree, b: Tree)
    requires |m| == 2 * WINDOW_SIZE && Holds(m, base, cutoff, e, t) && t.Node? && Ordered(data, n, t)
    requires InWindow(t, cutoff)
    requires Pending(base, t, pl, pg) && SplitHeld(m[pg := e], m', base, cutoff, t.left, pl, LeftOf(e), a, b)
    ensures SplitHeld(m, m', base, cutoff, t, pl, pg, a, Tree.Node(t.pos, b, t.right))
  {
    hide Leq, Ring, Ordered, InWindow;
    RingOf(base, e);
    PartsSeparate(data, n, base, cutoff, t);
    HoldsStill(m, m', base, cutoff, m[RightOf(e)], t.right);
  }

  /** One step down: the subtree is still there, and the new links are no part of it. */
  lemma StepDown(data: seq<u8>, n: nat, m: seq<Pos>, base: int, cutoff: int, e: Pos, t: Tree, pl: nat, pg: nat)
    requires |m| == 2 * WINDOW_SIZE && Holds(m, base, cutoff, e, t) && t.Node? && Ordered(data, n, t)
    requires InWindow(t, cutoff)
    requires Pending(base, t, pl, pg)
    ensures Pending(base, t.right, RightOf(e), pg) && Pending(base, t.left, pl, LeftOf(e)) && pl != RightOf(e)
    ensures m[pl := e][RightOf(e)] == m[RightOf(e)] && Holds(m[pl := e], base, cutoff, m[RightOf(e)], t.right)
    ensures m[pg := e][LeftOf(e)] == m[LeftOf(e)] && Holds(m[pg := e], base, cutoff, m[LeftOf(e)], t.left)
    ensures InWindow(t.left, cutoff) && InWindow(t.right, cutoff)
  {
    hide Leq, Ring, Ordered, InWindow;
    RingOf(base, e);
    PartsSeparate(data, n, base, cutoff, t);
    HoldsStill(m, m[pl := e], base, cutoff, m[RightOf(e)], t.right);
    HoldsStill(m, m[pg := e], base, cutoff, m[LeftOf(e)], t.left);
  }

  /** A match of niceLen bytes: its children are taken over. */
  lemma HeldAt(m: seq<Pos>, base: int, cutoff: int, e: Pos, t: Tree, pl: nat, pg: nat)
    requires |m| == 2 * WINDOW_SIZE && Holds(m, base, cutoff, e, t) && t.Node? && Pending(base, t, pl, pg)
    ensures SplitHeld(m, m[pl := m[LeftOf(e)]][pg := m[RightOf(e)]], base, cutoff, t, pl, pg, t.left, t.right)
  {
    hide Ring;
    RingOf(base, e);
    var m' := m[pl := m[LeftOf(e)]][pg := m[RightOf(e)]];
    HoldsStill(m, m', base, cutoff, m[LeftOf(e)], t.left);
    HoldsStill(m, m', base, cutoff, m[RightOf(e)], t.right);
  }

  /** To the right: if the way down from the right subtree splits it, the tree is split. */
  lemma DescendRight(data: seq<u8>, m: seq<Pos>, base: int, cutoff: int, e: Pos, t: Tree, pl: nat, pg: nat, cur: nat,
                     maxLen: nat, niceLen: nat, depth: nat)
    requires |m| == 2 * WINDOW_SIZE && Holds(m, base, cutoff, e, t) && Ordered(data, niceLen, t) && InWindow(t, cutoff)
    requires Pending(base, t, pl, pg) && Before(data, t, cur, maxLen) && niceLen <= maxLen && Near(base, t)
    requires t.Node? && depth > 0 && Near(base, t.right)
    requires var k := Common(data, t.pos, cur, maxLen); k < niceLen && data[t.pos + k] < data[cur + k]
    requires var (a, b) := Split(data, t.right, cur, maxLen, niceLen, depth - 1);
      SplitHeld(m[pl := e], Descend(data, m[pl := e], base, t.right, RightOf(e), pg, cur, maxLen, niceLen, depth - 1),
                base, cutoff, t.right, RightOf(e), pg, a, b)
    ensures var (a, b) := Split(data, t, cur, maxLen, niceLen, depth);
      SplitHeld(m, Descend(data, m, base, t, pl, pg, cur, maxLen, niceLen, depth), base, cutoff, t, pl, pg, a, b)
  {
    hide Leq, Ring, InWindow, Common, SplitHeld, Owns, Near, Positions, Ordered, Slot;
    var (a, b) := Split(data, t.right, cur, maxLen, niceLen, depth - 1);
    HeldRight(data, niceLen, m, Descend(data, m[pl := e], base, t.right, RightOf(e), pg, cur, maxLen, niceLen,
                                        depth - 1),
              base, cutoff, e, t, pl, pg, a, b);
  }

  lemma DescendLeft(data: seq<u8>, m: seq<Pos>, base: int, cutoff: int, e: Pos, t: Tree, pl: nat, pg: nat, cur: nat,
                    maxLen: nat, niceLen: nat, depth: nat)
    requires |m| == 2 * WINDOW_SIZE && Holds(m, base, cutoff, e, t) && Ordered(data, niceLen, t) && InWindow(t, cutoff)
    requires Pending(base, t, pl, pg) && Before(data, t, cur, maxLen) && niceLen <= maxLen && Near(base, t)
    requires t.Node? && depth > 0 && Near(base, t.left)
    requires var k := Common(data, t.pos, cur, maxLen); k < niceLen && data[t.pos + k] > data[cur + k]
    requires var (a, b) := Split(data, t.left, cur, maxLen, niceLen, depth - 1);
      SplitHeld(m[pg := e], Descend(data, m[pg := e], base, t.left, pl, LeftOf(e), cur, maxLen, niceLen, depth - 1),
                base, cutoff, t.left, pl, LeftOf(e), a, b)
    ensures var (a, b) := Split(data, t, cur, maxLen, niceLen, depth);
      SplitHeld(m, Descend(data, m, base, t, pl, pg, cur, maxLen, niceLen, depth), base, cutoff, t, pl, pg, a, b)
  {
    hide Leq, Ring, InWindow, Common, SplitHeld, Owns, Near, Positions, Ordered, Slot;
    var (a, b) := Split(data, t.left, cur, maxLen, niceLen, depth - 1);
    HeldLeft(data, niceLen, m, Descend(data, m[pg := e], base, t.left, pl, LeftOf(e), cur, maxLen, niceLen, depth - 1),
             base, cutoff, e, t, pl, pg, a, b);
  }

  /** Where the way ends. */
  lemma DescendEnds(data: seq<u8>, m: seq<Pos>, base: int, cutoff: int, e: Pos, t: Tree, pl: nat, pg: nat, cur: nat,
                    maxLen: nat, niceLen: nat, depth: nat)
    requires |m| == 2 * WINDOW_SIZE && Holds(m, base, cutoff, e, t) && base + DEAD <= cutoff
    requires Pending(base, t, pl, pg) && Before(data, t, cur, maxLen) && niceLen <= maxLen && Near(base, t)
    requires t.Leaf? || depth == 0 || Common(data, t.pos, cur, maxLen) >= niceLen
    ensures var (a, b) := Split(data, t, cur, maxLen, niceLen, depth);
      SplitHeld(m, Descend(data, m, base, t, pl, pg, cur, maxLen, niceLen, depth), base, cutoff, t, pl, pg, a, b)
  {
    hide Leq, Ring, InWindow, Common, SplitHeld, Owns, Near, Positions, Ordered, Slot;
    if t.Leaf? || depth == 0 {
      HeldNone(m, base, cutoff, t, pl, pg);
    } else {
      HeldAt(m, base, cutoff, e, t, pl, pg);
    }
  }

  /** The way down through the table splits the tree. */
  lemma {:induction false} DescendSplits(data: seq<u8>, m: seq<Pos>, base: int, cutoff: int, e: Pos, t: Tree, pl: nat,
                                         pg: nat, cur: nat, maxLen: nat, niceLen: nat, depth: nat)
    requires |m| == 2 * WINDOW_SIZE && Holds(m, base, cutoff, e, t) && Ordered(data, niceLen, t) && InWindow(t, cutoff)
    requires Pending(base, t, pl, pg) && Before(data, t, cur, maxLen) && niceLen <= maxLen && base + DEAD <= cutoff
    requires Near(base, t)
    ensures var (a, b) := Split(data, t, cur, maxLen, niceLen, depth);
      SplitHeld(m, Descend(data, m, base, t, pl, pg, cur, maxLen, niceLen, depth), base, cutoff, t, pl, pg, a, b)
    decreases t
  {
    hide Leq, Ring, InWindow, Common, SplitHeld, Owns, Near, Positions, Split, Descend, Slot;
    if t.Leaf? || depth == 0 || Common(data, t.pos, cur, maxLen) >= niceLen {
      DescendEnds(data, m, base, cutoff, e, t, pl, pg, cur, maxLen, niceLen, depth);
      return;
    }
    var k := Common(data, t.pos, cur, maxLen);
    StepDown(data, niceLen, m, base, cutoff, e, t, pl, pg);
    NearParts(base, t);
    if data[t.pos + k] < data[cur + k] {
      DescendSplits(data, m[pl := e], base, cutoff, m[RightOf(e)], t.right, RightOf(e), pg, cur, maxLen, niceLen,
                    depth - 1);
      DescendRight(data, m, base, cutoff, e, t, pl, pg, cur, maxLen, niceLen, depth);
    } else {
      DescendSplits(data, m[pg := e], base, cutoff, m[LeftOf(e)], t.left, pl, LeftOf(e), cur, maxLen, niceLen,
                    depth - 1);
      DescendLeft(data, m, base, cutoff, e, t, pl, pg, cur, maxLen, niceLen, depth);
    }
  }

  lemma HeldNone(m: seq<Pos>, base: int, cutoff: int, t: Tree, pl: nat, pg: nat)
    requires |m| == 2 * WINDOW_SIZE && pl < |m| && pg < |m| && pl != pg && base + DEAD <= cutoff
    ensures SplitHeld(m, m[pl := DEAD][pg := DEAD], base, cutoff, t, pl, pg, Leaf, Leaf)
  {
  }

  // ---- the window moves on, and slides

  lemma {:induction false} PruneHolds(m: seq<Pos>, base: int, cutoff: int, cutoff': int, e: Pos, t: Tree)
    requires |m| == 2 * WINDOW_SIZE && Holds(m, base, cutoff, e, t) && cutoff <= cutoff'
    ensures Holds(m, base, cutoff', e, Prune(t, cutoff'))
    decreases t
  {
    if t.Node? {
      PruneHolds(m, base, cutoff, cutoff', m[LeftOf(e)], t.left);
      PruneHolds(m, base, cutoff, cutoff', m[RightOf(e)], t.right);
    }
  }

  /** Sliding all entries changes none of the trees. */
  lemma {:induction false} SlideHolds(m: seq<Pos>, m': seq<Pos>, base: int, cutoff: int, e: Pos, t: Tree)
    requires |m| == |m'| == 2 * WINDOW_SIZE && Holds(m, base, cutoff, e, t) && cutoff >= base
    requires forall i :: 0 <= i < |m| ==> m'[i] == Slid(m[i])
    ensures Holds(m', base + WINDOW_SIZE, cutoff, Slid(e), t)
    decreases t
  {
    if t.Node? {
      assert Slot(Slid(e)) == Slot(e);
      SlideHolds(m, m', base, cutoff, m[LeftOf(e)], t.left);
      SlideHolds(m, m', base, cutoff, m[RightOf(e)], t.right);
    }
  }
}
