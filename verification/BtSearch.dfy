/** What the binary tree matchfinder finds at each position, as a function of the input; and that it misses nothing in
    the window as long as its searches are deep enough. */
module BtSearch {
  import opened Arith
  import opened BitBuffer
  import opened MatchCommon
  import opened MatchLimits
  import opened HashTables
  import opened BtTrees
  import opened BtForest
  import opened BtMatchfinder

  // ---- the trees after the first n positions

  /** All positions lie before n. */
  ghost predicate Below(trees: seq<Tree>, n: nat) {
    forall h, y :: 0 <= h < |trees| && y in Positions(trees[h]) ==> y < n
  }

  lemma {:induction false} SplitWithin(data: seq<u8>, t: Tree, cur: nat, maxLen: nat, niceLen: nat, depth: nat)
    requires Before(data, t, cur, maxLen) && niceLen <= maxLen
    ensures var (a, b) := Split(data, t, cur, maxLen, niceLen, depth);
      Positions(a) <= Positions(t) && Positions(b) <= Positions(t)
    decreases t
  {
    hide Common;
    if t.Node? && depth > 0 {
      SplitWithin(data, t.left, cur, maxLen, niceLen, depth - 1);
      SplitWithin(data, t.right, cur, maxLen, niceLen, depth - 1);
    }
  }

  lemma {:induction false} PruneWithin(t: Tree, cutoff: int)
    ensures Positions(Prune(t, cutoff)) <= Positions(t)
  {
    if t.Node? {
      PruneWithin(t.left, cutoff);
      PruneWithin(t.right, cutoff);
    }
  }

  lemma GrownBelow(data: seq<u8>, trees: seq<Tree>, h: nat, cur: nat, maxLen: nat, niceLen: nat, depth: nat)
    requires h < |trees| && Below(trees, cur) && Before(data, trees[h], cur, maxLen) && niceLen <= maxLen
    ensures Below(Grown(data, trees, h, cur, maxLen, niceLen, depth), cur + 1)
  {
    hide Split, Before, Prune;
    var (a, b) := Split(data, trees[h], cur, maxLen, niceLen, depth);
    SplitWithin(data, trees[h], cur, maxLen, niceLen, depth);
    var trees' := trees[h := Tree.Node(cur, a, b)];
    forall g | 0 <= g < |trees| ensures Positions(Prune(trees'[g], cur + 1 - WINDOW_SIZE)) <= Positions(trees'[g]) {
      PruneWithin(trees'[g], cur + 1 - WINDOW_SIZE);
    }
  }

  lemma BeforeAll(data: seq<u8>, trees: seq<Tree>, h: nat, cur: nat, maxLen: nat)
    requires h < |trees| && Below(trees, cur) && cur + maxLen <= |data|
    ensures Before(data, trees[h], cur, maxLen)
  {
    AllBefore(data, trees[h], cur, maxLen);
  }

  /** The trees that hold the first n positions, or what is left of them. */
  ghost function Forest(data: seq<u8>, nice: nat, depth: nat, n: nat): (r: seq<Tree>)
    requires n > 0 ==> n - 1 + BT_REQUIRED_NBYTES <= |data|
    ensures |r| == Pow2(TREE_ORDER) && Below(r, n)
  {
    if n == 0 then seq(Pow2(TREE_ORDER), _ => Leaf)
    else
      var p, trees := n - 1, Forest(data, nice, depth, n - 1);
      var h, maxLen := Key(data, TreeFour, p), AdjustMaxLen(|data| - p);
      BeforeAll(data, trees, h, p, maxLen);
      GrownBelow(data, trees, h, p, maxLen, NiceAt(data, p, nice), depth);
      Grown(data, trees, h, p, maxLen, NiceAt(data, p, nice), depth)
  }

  /** The matches at p: one of three bytes, and those on the way down the tree. */
  ghost function MatchesAt(data: seq<u8>, nice: nat, depth: nat, p: nat): seq<LzMatch> {
    if p + BT_REQUIRED_NBYTES > |data| then []
    else
      var trees, maxLen := Forest(data, nice, depth, p), AdjustMaxLen(|data| - p);
      BeforeAll(data, trees, Key(data, TreeFour, p), p, maxLen);
      ThreesAt(data, p) + Found(data, trees[Key(data, TreeFour, p)], p, maxLen, NiceAt(data, p, nice), depth, 3)
  }

  /** Comparing more bytes than niceLen makes no difference to the trees. */
  lemma {:induction false} SplitSame(data: seq<u8>, t: Tree, cur: nat, maxLen: nat, niceLen: nat, depth: nat)
    requires Before(data, t, cur, maxLen) && niceLen <= maxLen
    ensures Before(data, t, cur, niceLen)
    ensures Split(data, t, cur, maxLen, niceLen, depth) == Split(data, t, cur, niceLen, niceLen, depth)
    decreases t
  {
    hide Common;
    if t.Node? {
      SplitSame(data, t.left, cur, maxLen, niceLen, if depth == 0 then 0 else depth - 1);
      SplitSame(data, t.right, cur, maxLen, niceLen, if depth == 0 then 0 else depth - 1);
      CommonShorter(data, t.pos, cur, maxLen, niceLen);
    }
  }

  lemma GrownSame(data: seq<u8>, trees: seq<Tree>, h: nat, cur: nat, maxLen: nat, niceLen: nat, depth: nat)
    requires h < |trees| && Before(data, trees[h], cur, maxLen) && niceLen <= maxLen
    ensures Before(data, trees[h], cur, niceLen)
    ensures Grown(data, trees, h, cur, maxLen, niceLen, depth) == Grown(data, trees, h, cur, niceLen, niceLen, depth)
  {
    hide Split, Before;
    SplitSame(data, trees[h], cur, maxLen, niceLen, depth);
  }

  /** One more position in the trees, however many bytes are compared. */
  lemma ForestMore(data: seq<u8>, nice: nat, depth: nat, p: nat)
    requires p + BT_REQUIRED_NBYTES <= |data|
    ensures var trees, h := Forest(data, nice, depth, p), Key(data, TreeFour, p);
      var maxLen, niceLen := AdjustMaxLen(|data| - p), NiceAt(data, p, nice);
      && Before(data, trees[h], p, maxLen) && Before(data, trees[h], p, niceLen)
      && Forest(data, nice, depth, p + 1) == Grown(data, trees, h, p, maxLen, niceLen, depth)
      && Forest(data, nice, depth, p + 1) == Grown(data, trees, h, p, niceLen, niceLen, depth)
  {
    hide Before, Grown, Key;
    var trees, h := Forest(data, nice, depth, p), Key(data, TreeFour, p);
    BeforeAll(data, trees, h, p, AdjustMaxLen(|data| - p));
    GrownSame(data, trees, h, p, AdjustMaxLen(|data| - p), NiceAt(data, p, nice), depth);
  }

  // ---- the trees are ordered, and hold positions in the window that have their hash

  ghost predicate Fits(data: seq<u8>, n: nat, h: nat, t: Tree) {
    forall y :: y in Positions(t) ==> n - WINDOW_SIZE < y < n && Key(data, TreeFour, y) == h
  }

  lemma NothingThere(data: seq<u8>, m: nat, n: nat, h: nat)
    ensures Ordered(data, m, Leaf) && Fits(data, n, h, Leaf)
  {
  }

  /** The tree of the new position, and the others. */
  lemma GrownAt(data: seq<u8>, trees: seq<Tree>, h: nat, cur: nat, maxLen: nat, niceLen: nat, depth: nat, g: nat)
    requires h < |trees| && g < |trees| && Before(data, trees[h], cur, maxLen) && niceLen <= maxLen
    ensures var (a, b) := Split(data, trees[h], cur, maxLen, niceLen, depth);
      Grown(data, trees, h, cur, maxLen, niceLen, depth)[g] ==
      Prune(if g == h then Tree.Node(cur, a, b) else trees[g], cur + 1 - WINDOW_SIZE)
  {
    hide Split, Before, Prune;
  }

  lemma FitsNext(data: seq<u8>, m: nat, n: nat, h: nat, t: Tree)
    requires Ordered(data, m, t) && forall y :: y in Positions(t) ==> y < n && Key(data, TreeFour, y) == h
    ensures Ordered(data, m, Prune(t, n - WINDOW_SIZE)) && Fits(data, n, h, Prune(t, n - WINDOW_SIZE))
  {
    hide Ordered, Key, Prune;
    PrunePositions(data, m, t, n - WINDOW_SIZE);
  }

  lemma {:induction false} ForestFits(data: seq<u8>, nice: nat, depth: nat, n: nat, g: nat)
    requires (n > 0 ==> n - 1 + BT_REQUIRED_NBYTES <= |data|) && g < Pow2(TREE_ORDER) && n <= |data|
    ensures var t := Forest(data, nice, depth, n)[g]; Ordered(data, NiceAt(data, n, nice), t) && Fits(data, n, g, t)
    decreases n
  {
    hide Ordered, Fits, Key, Grown, Before, Split, Prune, Below;
    if n == 0 {
      NothingThere(data, NiceAt(data, 0, nice), 0, g);
      return;
    }
    var p, trees := n - 1, Forest(data, nice, depth, n - 1);
    var h, maxLen, niceLen := Key(data, TreeFour, p), AdjustMaxLen(|data| - p), NiceAt(data, p, nice);
    BeforeAll(data, trees, h, p, maxLen);
    GrownAt(data, trees, h, p, maxLen, niceLen, depth, g);
    ForestFits(data, nice, depth, p, g);
    var (a, b) := Split(data, trees[h], p, maxLen, niceLen, depth);
    if g == h {
      InsertedOrdered(data, trees[h], p, maxLen, niceLen, depth);
      FitsMore(data, p, h, trees[h], Tree.Node(p, a, b));
      FitsNext(data, niceLen, n, g, Tree.Node(p, a, b));
    } else {
      FitsMore(data, p, g, trees[g], trees[g]);
      FitsNext(data, niceLen, n, g, trees[g]);
    }
    OrderedShorter(data, niceLen, NiceAt(data, n, nice), Forest(data, nice, depth, n)[g]);
  }

  lemma FitsMore(data: seq<u8>, p: nat, h: nat, t: Tree, t': Tree)
    requires Fits(data, p, h, t)
    requires Positions(t') <= Positions(t) || (h == Key(data, TreeFour, p) && Positions(t') <= Positions(t) + {p})
    ensures forall y :: y in Positions(t') ==> y < p + 1 && Key(data, TreeFour, y) == h
  {
    hide Key;
  }

  // ---- a list that is not longer than the searches are deep makes a tree that is no higher

  lemma {:induction false} HeightAtMost(data: seq<u8>, n: nat, t: Tree)
    requires Ordered(data, n, t)
    ensures Height(t) <= |Positions(t)|
  {
    hide Ordered;
    if t.Node? {
      OrderedApart(data, n, t);
      HeightAtMost(data, n, t.left);
      HeightAtMost(data, n, t.right);
      SizeOfThree(t.pos, Positions(t.left), Positions(t.right));
    }
  }

  lemma OrderedApart(data: seq<u8>, n: nat, t: Tree)
    requires t.Node? && Ordered(data, n, t)
    ensures Ordered(data, n, t.left) && Ordered(data, n, t.right)
    ensures Positions(t.left) !! Positions(t.right) && t.pos !in Positions(t.left) && t.pos !in Positions(t.right)
  {
    hide Leq;
  }

  lemma SizeOfThree(x: nat, l: set<nat>, r: set<nat>)
    requires l !! r && x !in l && x !in r
    ensures |{x} + l + r| == 1 + |l| + |r|
  {
    assert |l + r| == |l| + |r|;
    assert {x} + l + r == {x} + (l + r);
  }

  lemma {:induction false} FewListed(data: seq<u8>, h: nat, lo: nat, n: nat, s: set<nat>)
    requires forall y :: y in s ==> lo <= y < n && Key(data, TreeFour, y) == h
    ensures |s| <= Listed(data, TreeFour, h, lo, n)
    decreases n
  {
    hide Key;
    if n <= lo {
      assert s == {};
    } else {
      FewListed(data, h, lo, n - 1, s - {n - 1});
    }
  }

  /** No search at a position before n meets more positions than it is deep. */
  ghost predicate DeepEnough(data: seq<u8>, depth: nat, n: nat) {
    forall x: nat :: x < n ==> Listed(data, TreeFour, Key(data, TreeFour, x), Lowest(x), x) <= depth
  }

  lemma NotTooHigh(data: seq<u8>, nice: nat, depth: nat, p: nat)
    requires (p > 0 ==> p - 1 + BT_REQUIRED_NBYTES <= |data|) && p <= |data| && DeepEnough(data, depth, p + 1)
    ensures Height(Forest(data, nice, depth, p)[Key(data, TreeFour, p)]) <= depth
  {
    hide Key, Ordered, Forest, Listed;
    var h := Key(data, TreeFour, p);
    var t := Forest(data, nice, depth, p)[h];
    ForestFits(data, nice, depth, p, h);
    HeightAtMost(data, NiceAt(data, p, nice), t);
    FewListed(data, h, Lowest(p), p, Positions(t));
  }

  // ---- every position is in its tree, or a later one that has as many bytes in common with it as matter

  /** The new position takes the place of at most one, with which it has niceLen bytes in common. */
  lemma {:induction false} SplitKeeps(data: seq<u8>, t: Tree, cur: nat, maxLen: nat, niceLen: nat, depth: nat, y: nat)
    requires Before(data, t, cur, maxLen) && niceLen <= maxLen && Height(t) <= depth && y in Positions(t)
    ensures var (a, b) := Split(data, t, cur, maxLen, niceLen, depth);
      y in Positions(a) || y in Positions(b) || Agree(data, y, cur, niceLen)
    decreases t
  {
    hide Common, Agree;
    var k := Common(data, t.pos, cur, maxLen);
    if k >= niceLen {
      AgreeShorter(data, t.pos, cur, k, niceLen);
    } else {
      var u := if data[t.pos + k] < data[cur + k] then t.right else t.left;
      if y in Positions(u) {
        SplitKeeps(data, u, cur, maxLen, niceLen, depth - 1, y);
      }
    }
  }

  ghost predicate StandsFor(data: seq<u8>, n: nat, y: nat, z: nat) {
    y == z || (z < y && Agree(data, z, y, n))
  }

  lemma StandsForNext(data: seq<u8>, n: nat, y: nat, z: nat, m: nat, x: nat)
    requires StandsFor(data, n, y, z) && m <= n
    ensures StandsFor(data, m, y, z)
    ensures y < x && Agree(data, y, x, m) ==> StandsFor(data, m, x, z)
  {
    hide Agree;
    if y != z {
      AgreeShorter(data, z, y, n, m);
      if Agree(data, y, x, m) {
        AgreeBack(data, z, y, m);
        AgreeThrough(data, y, z, x, m);
      }
    }
  }

  /** What has not been taken away by the new position is still there. */
  lemma StillThere(data: seq<u8>, nice: nat, depth: nat, p: nat, y: nat, g: nat)
    requires p + BT_REQUIRED_NBYTES <= |data| && g < Pow2(TREE_ORDER) && p + 1 - WINDOW_SIZE < y
    requires DeepEnough(data, depth, p + 1) && y in Positions(Forest(data, nice, depth, p)[g])
    ensures y in Positions(Forest(data, nice, depth, p + 1)[g])
      || (g == Key(data, TreeFour, p) && Agree(data, y, p, NiceAt(data, p, nice)))
  {
    hide Key, Grown, Before, Split, Prune, Below, Agree, DeepEnough, Height, Ordered;
    var trees, h := Forest(data, nice, depth, p), Key(data, TreeFour, p);
    var maxLen, niceLen := AdjustMaxLen(|data| - p), NiceAt(data, p, nice);
    BeforeAll(data, trees, h, p, maxLen);
    GrownAt(data, trees, h, p, maxLen, niceLen, depth, g);
    ForestFits(data, nice, depth, p, g);
    if g == h {
      var (a, b) := Split(data, trees[h], p, maxLen, niceLen, depth);
      NotTooHigh(data, nice, depth, p);
      SplitKeeps(data, trees[h], p, maxLen, niceLen, depth, y);
      InsertedOrdered(data, trees[h], p, maxLen, niceLen, depth);
      PrunePositions(data, niceLen, Tree.Node(p, a, b), p + 1 - WINDOW_SIZE);
    } else {
      PrunePositions(data, niceLen, trees[g], p + 1 - WINDOW_SIZE);
    }
  }

  /** The new position is in its tree. */
  lemma NewThere(data: seq<u8>, nice: nat, depth: nat, p: nat)
    requires p + BT_REQUIRED_NBYTES <= |data|
    ensures p in Positions(Forest(data, nice, depth, p + 1)[Key(data, TreeFour, p)])
  {
    hide Key, Grown, Before, Split, Below;
    var trees, h := Forest(data, nice, depth, p), Key(data, TreeFour, p);
    BeforeAll(data, trees, h, p, AdjustMaxLen(|data| - p));
    GrownAt(data, trees, h, p, AdjustMaxLen(|data| - p), NiceAt(data, p, nice), depth, h);
  }

  /** In the tree of z there is z, or a later position that agrees with it on niceLen bytes. */
  lemma {:induction false} Represented(data: seq<u8>, nice: nat, depth: nat, n: nat, z: nat) returns (y: nat)
    requires z < n && n - 1 + BT_REQUIRED_NBYTES <= |data| && n - WINDOW_SIZE < z && DeepEnough(data, depth, n)
    ensures y in Positions(Forest(data, nice, depth, n)[Key(data, TreeFour, z)])
    ensures StandsFor(data, NiceAt(data, n - 1, nice), y, z)
    decreases n
  {
    hide Key, Forest, StandsFor, Listed, Agree, Positions, Below;
    var p := n - 1;
    if z == p {
      NewThere(data, nice, depth, p);
      y := p;
      Itself(data, NiceAt(data, p, nice), z);
    } else {
      y := Represented(data, nice, depth, p, z);
      ForestFits(data, nice, depth, p, Key(data, TreeFour, z));
      StandsForNotBefore(data, NiceAt(data, p - 1, nice), y, z);
      StillThere(data, nice, depth, p, y, Key(data, TreeFour, z));
      StandsForNext(data, NiceAt(data, p - 1, nice), y, z, NiceAt(data, p, nice), p);
      if y !in Positions(Forest(data, nice, depth, n)[Key(data, TreeFour, z)]) {
        NewThere(data, nice, depth, p);
        y := p;
      }
    }
  }

  lemma Itself(data: seq<u8>, n: nat, z: nat)
    ensures StandsFor(data, n, z, z)
  {
  }

  lemma StandsForNotBefore(data: seq<u8>, n: nat, y: nat, z: nat)
    requires StandsFor(data, n, y, z)
    ensures z <= y
  {
  }

  // ---- nothing is missed

  /** The first position of the input goes where the initial hash says. */
  ghost predicate InTree(data: seq<u8>, z: nat, p: nat) {
    z > 0 || Key(data, TreeFour, p) == 0
  }

  lemma SameTree(data: seq<u8>, z: nat, p: nat, maxLen: nat)
    requires z < p && p + maxLen <= |data| && maxLen >= 4 && Common(data, z, p, maxLen) >= 4 && InTree(data, z, p)
    ensures Key(data, TreeFour, z) == Key(data, TreeFour, p)
  {
    hide LzHash, Common;
    if z > 0 {
      AgreeShorter(data, z, p, Common(data, z, p, maxLen), 4);
      assert data[z..z + 4] == data[p..p + 4];
    }
  }

  /** As much of p as z has in common with it, up to niceLen bytes, what stands for z has as well. */
  lemma StandsAsGood(data: seq<u8>, n: nat, niceLen: nat, y: nat, z: nat, p: nat, maxLen: nat)
    requires StandsFor(data, n, y, z) && niceLen <= n && niceLen <= maxLen && y < p && p + maxLen <= |data|
    ensures Common(data, y, p, maxLen) >= Common(data, z, p, maxLen) || Common(data, y, p, maxLen) >= niceLen
  {
    hide Common, Agree;
    var j, k := Common(data, y, p, maxLen), Common(data, z, p, maxLen);
    if y != z && j < k && j < niceLen {
      AgreeAt(data, z, p, k, j);
      AgreeAt(data, z, y, n, j);
    }
  }

  /** If no list is longer than the searches are deep, the last match at p is as long as any with a position in the
      window that has four bytes in common with p, or it has niceLen bytes. */
  lemma LongestInTrees(data: seq<u8>, nice: nat, depth: nat, p: nat, z: nat)
    requires p + BT_REQUIRED_NBYTES <= |data| && nice > 3 && z < p && InReach(z, p) && InTree(data, z, p)
    requires Common(data, z, p, AdjustMaxLen(|data| - p)) >= 4 && DeepEnough(data, depth, p + 1)
    ensures var ms := MatchesAt(data, nice, depth, p);
      var maxLen, niceLen := AdjustMaxLen(|data| - p), NiceAt(data, p, nice);
      && ms != []
      && (ms[|ms| - 1].length >= Common(data, z, p, maxLen) || ms[|ms| - 1].length >= niceLen)
  {
    hide Common, Agree, Key, Forest, ThreesAt, Found, Ordered, Below, Height, StandsFor, Listed;
    var maxLen, niceLen, h := AdjustMaxLen(|data| - p), NiceAt(data, p, nice), Key(data, TreeFour, p);
    var t := Forest(data, nice, depth, p)[h];
    SameTree(data, z, p, maxLen);
    var y := Represented(data, nice, depth, p, z);
    ForestFits(data, nice, depth, p, h);
    NotTooHigh(data, nice, depth, p);
    BeforeAll(data, Forest(data, nice, depth, p), h, p, maxLen);
    NoneLonger(data, t, p, maxLen, niceLen, depth, 3, y);
    StandsAsGood(data, NiceAt(data, p - 1, nice), niceLen, y, z, p, maxLen);
  }
}
