/** All trees of the binary tree matchfinder together. */
module BtForest {
  import opened BitBuffer
  import opened MatchCommon
  import opened BtTrees
  import opened BtMemory

  /** The table holds the ordered tree at root, with positions from behind the cutoff and before upTo. */
  ghost predicate TreeOk(data: seq<u8>, n: nat, m: seq<Pos>, base: int, cutoff: int, upTo: int, root: Pos, t: Tree)
    requires |m| == 2 * WINDOW_SIZE
  {
    && Holds(m, base, cutoff, root, t) && Ordered(data, n, t)
    && forall y :: y in Positions(t) ==> cutoff < y < upTo
  }

  ghost predicate AllOk(data: seq<u8>, n: nat, m: seq<Pos>, roots: seq<Pos>, base: int, cutoff: int, upTo: int,
                        trees: seq<Tree>)
    requires |m| == 2 * WINDOW_SIZE
  {
    |roots| == |trees| && forall h :: 0 <= h < |trees| ==> TreeOk(data, n, m, base, cutoff, upTo, roots[h], trees[h])
  }

  ghost predicate Disjoint(trees: seq<Tree>) {
    forall g, h :: 0 <= g < h < |trees| ==> Positions(trees[g]) !! Positions(trees[h])
  }

  // ---- a new root

  /** A tree of another bucket is not touched. */
  lemma OtherStays(data: seq<u8>, n: nat, m: seq<Pos>, m': seq<Pos>, base: int, cutoff: int, cur: nat, root: Pos,
                   u: Tree, t: Tree, pl: nat, pg: nat, a: Tree, b: Tree)
    requires |m| == 2 * WINDOW_SIZE && TreeOk(data, n, m, base, cutoff, cur, root, u) && cutoff == cur - WINDOW_SIZE
    requires InWindow(t, cutoff) && Positions(t) !! Positions(u)
    requires SplitHeld(m, m', base, cutoff, t, pl, pg, a, b) && pl / 2 == pg / 2 == Ring(base, cur)
    ensures TreeOk(data, n, m', base, cutoff, cur + 1, root, u)
  {
    hide Leq, Ring, Ordered;
    assert InWindow(u, cutoff);
    forall i | 0 <= i < |m| && Owns(base, u, i) ensures m'[i] == m[i] {
      Separate(base, cutoff, t, u, i);
      if i == pl || i == pg {
        NotOwned(base, cutoff, u, cur, i);
      }
    }
    HoldsStill(m, m', base, cutoff, root, u);
  }

  /** The entries of a new position belong to no tree. */
  lemma NotOwned(base: int, cutoff: int, t: Tree, cur: nat, i: int)
    requires InWindow(t, cutoff) && cutoff == cur - WINDOW_SIZE && i / 2 == Ring(base, cur)
    ensures !Owns(base, t, i)
  {
    hide Ring;
    if Owns(base, t, i) {
      var y := OwnedBy(base, t, i);
      RingsDiffer(base, y, cur);
    }
  }

  /** The new tree. */
  lemma RootHolds(data: seq<u8>, n: nat, m: seq<Pos>, m': seq<Pos>, base: int, cutoff: int, cur: nat, root: Pos,
                  t: Tree, e: Pos, a: Tree, b: Tree)
    requires |m| == 2 * WINDOW_SIZE && TreeOk(data, n, m, base, cutoff, cur, root, t) && base + e == cur > cutoff
    requires SplitHeld(m, m', base, cutoff, t, LeftOf(e), RightOf(e), a, b)
    requires Ordered(data, n, Tree.Node(cur, a, b)) && Positions(Tree.Node(cur, a, b)) <= Positions(t) + {cur}
    ensures TreeOk(data, n, m', base, cutoff, cur + 1, e, Tree.Node(cur, a, b))
  {
    hide Leq, Ordered, Owns;
  }

  /** Inserting a position at the root of one tree keeps all of them. */
  lemma InsertedOk(data: seq<u8>, n: nat, m: seq<Pos>, m': seq<Pos>, roots: seq<Pos>, base: int, cutoff: int, cur: nat,
                   trees: seq<Tree>, h: nat, e: Pos, a: Tree, b: Tree)
    requires |m| == |m'| == 2 * WINDOW_SIZE && AllOk(data, n, m, roots, base, cutoff, cur, trees) && Disjoint(trees)
    requires cutoff == cur - WINDOW_SIZE && base + e == cur && h < |trees|
    requires SplitHeld(m, m', base, cutoff, trees[h], LeftOf(e), RightOf(e), a, b)
    requires Ordered(data, n, Tree.Node(cur, a, b)) && Positions(Tree.Node(cur, a, b)) <= Positions(trees[h]) + {cur}
    ensures AllOk(data, n, m', roots[h := e], base, cutoff, cur + 1, trees[h := Tree.Node(cur, a, b)])
    ensures Disjoint(trees[h := Tree.Node(cur, a, b)])
  {
    hide Leq, Ordered, Owns, SplitHeld, Ring, Holds, Positions;
    var t := Tree.Node(cur, a, b);
    var roots', trees' := roots[h := e], trees[h := t];
    RingOf(base, e);
    forall g | 0 <= g < |trees'|
      ensures TreeOk(data, n, m', base, cutoff, cur + 1, roots'[g], trees'[g])
    {
      assert TreeOk(data, n, m, base, cutoff, cur, roots[g], trees[g]);
      assert TreeOk(data, n, m, base, cutoff, cur, roots[h], trees[h]);
      if g == h {
        RootHolds(data, n, m, m', base, cutoff, cur, roots[h], trees[h], e, a, b);
      } else {
        OtherStays(data, n, m, m', base, cutoff, cur, roots[g], trees[g], trees[h], LeftOf(e), RightOf(e), a, b);
      }
    }
    InsertedDisjoint(data, n, m, roots, base, cutoff, cur, trees, h, t);
  }

  lemma InsertedDisjoint(data: seq<u8>, n: nat, m: seq<Pos>, roots: seq<Pos>, base: int, cutoff: int, cur: nat,
                         trees: seq<Tree>, h: nat, t: Tree)
    requires |m| == 2 * WINDOW_SIZE && AllOk(data, n, m, roots, base, cutoff, cur, trees) && Disjoint(trees)
    requires h < |trees| && Positions(t) <= Positions(trees[h]) + {cur}
    ensures Disjoint(trees[h := t])
  {
    hide Ordered, Holds, Positions;
    forall g | 0 <= g < |trees| && g != h ensures Positions(trees[g]) !! Positions(t) {
      assert TreeOk(data, n, m, base, cutoff, cur, roots[g], trees[g]);
      assert Positions(trees[g]) !! Positions(trees[h]);
    }
  }

  // ---- the window moves on

  ghost function Pruned(trees: seq<Tree>, cutoff: int): (r: seq<Tree>)
    ensures |r| == |trees| && forall h :: 0 <= h < |r| ==> r[h] == Prune(trees[h], cutoff)
  {
    seq(|trees|, h requires 0 <= h < |trees| => Prune(trees[h], cutoff))
  }

  lemma PrunedOk(data: seq<u8>, n: nat, m: seq<Pos>, roots: seq<Pos>, base: int, cutoff: int, cutoff': int, upTo: int,
                 trees: seq<Tree>)
    requires |m| == 2 * WINDOW_SIZE && AllOk(data, n, m, roots, base, cutoff, upTo, trees) && Disjoint(trees)
    requires cutoff <= cutoff'
    ensures AllOk(data, n, m, roots, base, cutoff', upTo, Pruned(trees, cutoff')) && Disjoint(Pruned(trees, cutoff'))
  {
    hide Leq, Ordered, Holds, Positions, Prune;
    forall h | 0 <= h < |trees|
      ensures TreeOk(data, n, m, base, cutoff', upTo, roots[h], Prune(trees[h], cutoff'))
      ensures Positions(Prune(trees[h], cutoff')) <= Positions(trees[h])
    {
      assert TreeOk(data, n, m, base, cutoff, upTo, roots[h], trees[h]);
      PruneHolds(m, base, cutoff, cutoff', roots[h], trees[h]);
      PrunePositions(data, n, trees[h], cutoff');
    }
    forall g, h | 0 <= g < h < |trees|
      ensures Positions(Prune(trees[g], cutoff')) !! Positions(Prune(trees[h], cutoff'))
    {
      assert Positions(trees[g]) !! Positions(trees[h]);
    }
  }

  lemma ShorterOk(data: seq<u8>, n: nat, n': nat, m: seq<Pos>, roots: seq<Pos>, base: int, cutoff: int, upTo: int,
                  trees: seq<Tree>)
    requires |m| == 2 * WINDOW_SIZE && AllOk(data, n, m, roots, base, cutoff, upTo, trees) && n' <= n
    ensures AllOk(data, n', m, roots, base, cutoff, upTo, trees)
  {
    hide Leq, Ordered, Holds;
    forall h | 0 <= h < |trees| ensures TreeOk(data, n', m, base, cutoff, upTo, roots[h], trees[h]) {
      assert TreeOk(data, n, m, base, cutoff, upTo, roots[h], trees[h]);
      OrderedShorter(data, n, n', trees[h]);
    }
  }

  lemma SlideOk(data: seq<u8>, n: nat, m: seq<Pos>, m': seq<Pos>, roots: seq<Pos>, roots': seq<Pos>, base: int,
                cutoff: int, upTo: int, trees: seq<Tree>)
    requires |m| == |m'| == 2 * WINDOW_SIZE && AllOk(data, n, m, roots, base, cutoff, upTo, trees) && cutoff >= base
    requires |roots'| == |roots| && forall h :: 0 <= h < |roots| ==> roots'[h] == Slid(roots[h])
    requires forall i :: 0 <= i < |m| ==> m'[i] == Slid(m[i])
    ensures AllOk(data, n, m', roots', base + WINDOW_SIZE, cutoff, upTo, trees)
  {
    hide Leq, Ordered, Holds;
    forall h | 0 <= h < |trees| ensures TreeOk(data, n, m', base + WINDOW_SIZE, cutoff, upTo, roots'[h], trees[h]) {
      assert TreeOk(data, n, m, base, cutoff, upTo, roots[h], trees[h]);
      SlideHolds(m, m', base, cutoff, roots[h], trees[h]);
    }
  }

  // ---- the way down

  /** What the search needs to know about the node it is at. */
  ghost predicate Going(data: seq<u8>, m: seq<Pos>, base: int, cutoff: int, e: Pos, t: Tree, pl: nat, pg: nat, cur: nat,
                        maxLen: nat, niceLen: nat) {
    && |m| == 2 * WINDOW_SIZE && niceLen <= maxLen && base + DEAD <= cutoff
    && Holds(m, base, cutoff, e, t) && Ordered(data, niceLen, t) && InWindow(t, cutoff) && Near(base, t)
    && Before(data, t, cur, maxLen) && Pending(base, t, pl, pg)
  }

  lemma GoingDown(data: seq<u8>, m: seq<Pos>, base: int, cutoff: int, e: Pos, t: Tree, pl: nat, pg: nat, cur: nat,
                  maxLen: nat, niceLen: nat)
    requires Going(data, m, base, cutoff, e, t, pl, pg, cur, maxLen, niceLen) && base + e > cutoff
    ensures t.Node? && t.pos == base + e < cur && t.pos in Positions(t) && pl != RightOf(e)
    ensures m[pl := e][RightOf(e)] == m[RightOf(e)] && m[pg := e][LeftOf(e)] == m[LeftOf(e)]
    ensures Going(data, m[pl := e], base, cutoff, m[RightOf(e)], t.right, RightOf(e), pg, cur, maxLen, niceLen)
    ensures Going(data, m[pg := e], base, cutoff, m[LeftOf(e)], t.left, pl, LeftOf(e), cur, maxLen, niceLen)
  {
    hide Leq, Ring, InWindow, Owns, Near;
    StepDown(data, niceLen, m, base, cutoff, e, t, pl, pg);
    NearParts(base, t);
  }

  lemma Gone(data: seq<u8>, m: seq<Pos>, base: int, cutoff: int, e: Pos, t: Tree, pl: nat, pg: nat, cur: nat,
             maxLen: nat, niceLen: nat)
    requires Going(data, m, base, cutoff, e, t, pl, pg, cur, maxLen, niceLen)
    ensures t.Leaf? <==> base + e <= cutoff
    ensures pl < |m| && pg < |m| && pl != pg
  {
    hide Ordered, InWindow, Owns, Near, Before;
  }

  /** All positions of t lie between a and b, as far as these are known to agree with cur. */
  ghost predicate Bounds(data: seq<u8>, n: nat, t: Tree, cur: nat, la: nat, a: nat, lb: nat, b: nat) {
    && la <= n && lb <= n
    && (la > 0 ==> Agree(data, a, cur, la) && AllAbove(data, n, t, a))
    && (lb > 0 ==> Agree(data, b, cur, lb) && AllBelow(data, n, t, b))
  }

  /** So they agree with cur on what both bounds agree on: comparing can start behind. */
  lemma BoundsAgree(data: seq<u8>, n: nat, t: Tree, cur: nat, la: nat, a: nat, lb: nat, b: nat, y: nat, len: nat)
    requires Bounds(data, n, t, cur, la, a, lb, b) && y in Positions(t) && y <= |data| && cur <= |data|
    requires len == if la < lb then la else lb
    ensures Agree(data, y, cur, len)
  {
    hide Leq, Agree, Positions;
    if len > 0 {
      AgreeShorter(data, a, cur, la, len);
      AgreeShorter(data, b, cur, lb, len);
      Between(data, n, a, y, b, cur, len);
    } else {
      AgreeNothing(data, y, cur);
    }
  }

  lemma AgreeNothing(data: seq<u8>, y: nat, cur: nat)
    requires y <= |data| && cur <= |data|
    ensures Agree(data, y, cur, 0)
  {
  }

  lemma BoundsRight(data: seq<u8>, n: nat, t: Tree, cur: nat, la: nat, a: nat, lb: nat, b: nat, k: nat)
    requires Bounds(data, n, t, cur, la, a, lb, b) && t.Node? && Ordered(data, n, t) && k <= n
    requires Agree(data, t.pos, cur, k)
    ensures Bounds(data, n, t.right, cur, k, t.pos, lb, b) && Bounds(data, n, t.left, cur, la, a, k, t.pos)
  {
    hide Leq, Agree;
  }

  /** The trees after p has been inserted into one of them. */
  ghost function Grown(data: seq<u8>, trees: seq<Tree>, h: nat, cur: nat, maxLen: nat, niceLen: nat,
                       depth: nat): seq<Tree>
    requires h < |trees| && Before(data, trees[h], cur, maxLen) && niceLen <= maxLen
  {
    var (a, b) := Split(data, trees[h], cur, maxLen, niceLen, depth);
    Pruned(trees[h := Tree.Node(cur, a, b)], cur + 1 - WINDOW_SIZE)
  }

  /** Before the way down. */
  lemma SetOut(data: seq<u8>, n: nat, m: seq<Pos>, roots: seq<Pos>, base: int, cur: nat, trees: seq<Tree>, h: nat,
               e: Pos, maxLen: nat, niceLen: nat)
    requires |m| == 2 * WINDOW_SIZE && AllOk(data, n, m, roots, base, cur - WINDOW_SIZE, cur, trees) && h < |trees|
    requires base <= cur && base + e == cur && cur + maxLen <= |data| && niceLen <= maxLen && niceLen <= n
    ensures Going(data, m, base, cur - WINDOW_SIZE, roots[h], trees[h], LeftOf(e), RightOf(e), cur, maxLen, niceLen)
    ensures Before(data, trees[h], cur, maxLen) && Near(base, trees[h])
  {
    hide Leq, Owns, Ring;
    var t := trees[h];
    assert TreeOk(data, n, m, base, cur - WINDOW_SIZE, cur, roots[h], t);
    AllBefore(data, t, cur, maxLen);
    OrderedShorter(data, n, niceLen, t);
    RingOf(base, e);
    assert InWindow(t, cur - WINDOW_SIZE);
    NotOwned(base, cur - WINDOW_SIZE, t, cur, LeftOf(e));
    NotOwned(base, cur - WINDOW_SIZE, t, cur, RightOf(e));
  }

  /** After the way down all trees are in order again, with the new position at the root of one. */
  lemma Arrived(data: seq<u8>, n: nat, m: seq<Pos>, roots: seq<Pos>, base: int, cur: nat, trees: seq<Tree>, h: nat,
                e: Pos, maxLen: nat, niceLen: nat, depth: nat)
    requires |m| == 2 * WINDOW_SIZE && AllOk(data, n, m, roots, base, cur - WINDOW_SIZE, cur, trees) && h < |trees|
    requires base <= cur && base + e == cur && cur + maxLen <= |data| && niceLen <= maxLen && niceLen <= n
    requires Disjoint(trees) && Before(data, trees[h], cur, maxLen) && Near(base, trees[h]) && |roots| == |trees|
    ensures var m' := Descend(data, m, base, trees[h], LeftOf(e), RightOf(e), cur, maxLen, niceLen, depth);
      var trees' := Grown(data, trees, h, cur, maxLen, niceLen, depth);
      && AllOk(data, niceLen, m', roots[h := e], base, cur + 1 - WINDOW_SIZE, cur + 1, trees') && Disjoint(trees')
  {
    hide Leq, Owns, Ring, Ordered, Holds, Before, Near, Positions, SplitHeld, Split, Descend, Disjoint, AllOk, Slot;
    SetOut(data, n, m, roots, base, cur, trees, h, e, maxLen, niceLen);
    var cutoff, t := cur - WINDOW_SIZE, trees[h];
    var (a, b) := Split(data, t, cur, maxLen, niceLen, depth);
    var m' := Descend(data, m, base, t, LeftOf(e), RightOf(e), cur, maxLen, niceLen, depth);
    DescendSplits(data, m, base, cutoff, roots[h], t, LeftOf(e), RightOf(e), cur, maxLen, niceLen, depth);
    InsertedOrdered(data, t, cur, maxLen, niceLen, depth);
    ShorterOk(data, n, niceLen, m, roots, base, cutoff, cur, trees);
    InsertedOk(data, niceLen, m, m', roots, base, cutoff, cur, trees, h, e, a, b);
    PrunedOk(data, niceLen, m', roots[h := e], base, cutoff, cutoff + 1, cur + 1, trees[h := Tree.Node(cur, a, b)]);
  }
}
