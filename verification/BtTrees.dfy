/** The trees of the binary tree matchfinder, as values: search trees over the bytes that follow each
    position, with the newest position at the root. */
module BtTrees {
  import opened BitBuffer
  import opened MatchCommon

  datatype Tree = Leaf | Node(pos: nat, left: Tree, right: Tree)

  ghost function Positions(t: Tree): set<nat> {
    if t.Leaf? then {} else {t.pos} + Positions(t.left) + Positions(t.right)
  }

  // ---- the order of positions

  /** The first n bytes at x come before those at y in lexicographic order, or are the same. */
  ghost predicate Leq(data: seq<u8>, n: nat, x: nat, y: nat) {
    x + n <= |data| && y + n <= |data| &&
    var k := Common(data, x, y, n); k == n || data[x + k] < data[y + k]
  }

  /** A search tree by the first n bytes; children are older than their parents, and nothing occurs twice. */
  ghost predicate Ordered(data: seq<u8>, n: nat, t: Tree) {
    t.Node? ==>
      && Ordered(data, n, t.left) && Ordered(data, n, t.right) && Positions(t.left) !! Positions(t.right)
      && (forall y :: y in Positions(t.left) ==> y < t.pos && Leq(data, n, y, t.pos))
      && (forall y :: y in Positions(t.right) ==> y < t.pos && Leq(data, n, t.pos, y))
  }

  lemma LeqShorter(data: seq<u8>, n: nat, m: nat, x: nat, y: nat)
    requires m <= n && Leq(data, n, x, y)
    ensures Leq(data, m, x, y)
  {
    hide Common;
    CommonShorter(data, x, y, n, m);
  }

  /** Agreeing up to the smaller of two differences. */
  lemma LeqTransitive(data: seq<u8>, n: nat, x: nat, y: nat, z: nat)
    requires Leq(data, n, x, y) && Leq(data, n, y, z)
    ensures Leq(data, n, x, z)
  {
    hide Common;
    var i, j := Common(data, x, y, n), Common(data, y, z, n);
    var k := if i < j then i else j;
    AgreeShorter(data, x, y, i, k);
    AgreeShorter(data, y, z, j, k);
    if i < j {
      AgreeAt(data, y, z, j, i);
    } else if j < i {
      AgreeAt(data, x, y, i, j);
    }
    CommonIs(data, x, z, n, k);
  }

  /** What lies between two positions that agree with cur agrees with cur as well. */
  lemma Between(data: seq<u8>, n: nat, a: nat, y: nat, b: nat, cur: nat, k: nat)
    requires Leq(data, n, a, y) && Leq(data, n, y, b) && k <= n && Agree(data, a, cur, k) && Agree(data, b, cur, k)
    ensures Agree(data, y, cur, k)
  {
    hide Common, Agree;
    var i, j := Common(data, a, y, n), Common(data, y, b, n);
    if i >= k {
      AgreeShorter(data, a, y, i, k);
      AgreeThrough(data, a, y, cur, k);
    } else if j >= k {
      AgreeShorter(data, y, b, j, k);
      AgreeBack(data, y, b, k);
      AgreeThrough(data, b, y, cur, k);
    } else {
      AgreeAt(data, a, cur, k, if i < j then i else j);
      AgreeAt(data, b, cur, k, if i < j then i else j);
      if i < j {
        AgreeAt(data, y, b, j, i);
      } else if j < i {
        AgreeAt(data, a, y, i, j);
      }
    }
  }

  lemma AgreeBack(data: seq<u8>, x: nat, y: nat, k: nat)
    requires Agree(data, x, y, k)
    ensures Agree(data, y, x, k)
  {
  }

  lemma AgreeThrough(data: seq<u8>, x: nat, y: nat, z: nat, k: nat)
    requires Agree(data, x, y, k) && Agree(data, x, z, k)
    ensures Agree(data, y, z, k)
  {
  }

  // ---- splitting a tree at a new position

  /** The positions of the tree can be compared with cur. */
  ghost predicate Before(data: seq<u8>, t: Tree, cur: nat, maxLen: nat) {
    cur + maxLen <= |data| &&
    (t.Node? ==> t.pos < cur && Before(data, t.left, cur, maxLen) && Before(data, t.right, cur, maxLen))
  }

  /** Two trees: what comes before the bytes at cur, and what comes behind them.  A position that has
      nothing more to tell, with niceLen equal bytes, is dropped; so is what lies deeper than depth. */
  ghost function Split(data: seq<u8>, t: Tree, cur: nat, maxLen: nat, niceLen: nat, depth: nat): (Tree, Tree)
    requires Before(data, t, cur, maxLen) && niceLen <= maxLen
    decreases t
  {
    if t.Leaf? || depth == 0 then (Leaf, Leaf)
    else
      var k := Common(data, t.pos, cur, maxLen);
      if k >= niceLen then (t.left, t.right)
      else if data[t.pos + k] < data[cur + k] then
        var (a, b) := Split(data, t.right, cur, maxLen, niceLen, depth - 1);
        (Tree.Node(t.pos, t.left, a), b)
      else
        var (a, b) := Split(data, t.left, cur, maxLen, niceLen, depth - 1);
        (a, Tree.Node(t.pos, b, t.right))
  }

  /** The matches found on the way down: each position that shares more bytes than any before. */
  ghost function Found(data: seq<u8>, t: Tree, cur: nat, maxLen: nat, niceLen: nat, depth: nat, best: nat): seq<LzMatch>
    requires Before(data, t, cur, maxLen) && niceLen <= maxLen
    decreases t
  {
    if t.Leaf? || depth == 0 then []
    else
      var k := Common(data, t.pos, cur, maxLen);
      var here := if k > best then [LzMatch(k, cur - t.pos)] else [];
      var best' := if k > best then k else best;
      if k >= niceLen then here
      else if data[t.pos + k] < data[cur + k] then here + Found(data, t.right, cur, maxLen, niceLen, depth - 1, best')
      else here + Found(data, t.left, cur, maxLen, niceLen, depth - 1, best')
  }

  /** All positions come before the bytes at cur, or behind them. */
  ghost predicate AllBelow(data: seq<u8>, n: nat, t: Tree, cur: nat) {
    forall y :: y in Positions(t) ==> Leq(data, n, y, cur)
  }

  ghost predicate AllAbove(data: seq<u8>, n: nat, t: Tree, cur: nat) {
    forall y :: y in Positions(t) ==> Leq(data, n, cur, y)
  }

  lemma FirstStep(data: seq<u8>, x: nat, cur: nat, maxLen: nat, n: nat)
    requires x + maxLen <= |data| && cur + maxLen <= |data| && n <= maxLen
    ensures var k := Common(data, x, cur, maxLen);
      && (k >= n ==> Leq(data, n, x, cur) && Leq(data, n, cur, x))
      && (k < n && data[x + k] < data[cur + k] ==> Leq(data, n, x, cur))
      && (k < n && data[x + k] > data[cur + k] ==> Leq(data, n, cur, x))
  {
    hide Common;
    var k := Common(data, x, cur, maxLen);
    CommonShorter(data, x, cur, maxLen, n);
    var m := if k < n then k else n;
    AgreeShorter(data, x, cur, k, m);
    AgreeBack(data, x, cur, m);
    CommonIs(data, cur, x, n, m);
  }

  lemma BelowThrough(data: seq<u8>, n: nat, t: Tree, x: nat, cur: nat)
    requires AllBelow(data, n, t, x) && Leq(data, n, x, cur)
    ensures AllBelow(data, n, t, cur)
  {
    hide Leq;
    forall y | y in Positions(t) ensures Leq(data, n, y, cur) {
      LeqTransitive(data, n, y, x, cur);
    }
  }

  lemma AboveThrough(data: seq<u8>, n: nat, t: Tree, x: nat, cur: nat)
    requires AllAbove(data, n, t, x) && Leq(data, n, cur, x)
    ensures AllAbove(data, n, t, cur)
  {
    hide Leq;
    forall y | y in Positions(t) ensures Leq(data, n, cur, y) {
      LeqTransitive(data, n, cur, x, y);
    }
  }

  /** Two trees on either side of cur, with positions from t. */
  ghost predicate Parted(data: seq<u8>, n: nat, t: Tree, cur: nat, a: Tree, b: Tree) {
    && Ordered(data, n, a) && Ordered(data, n, b)
    && Positions(a) <= Positions(t) && Positions(b) <= Positions(t) && Positions(a) !! Positions(b)
    && AllBelow(data, n, a, cur) && AllAbove(data, n, b, cur)
  }

  lemma PartedRight(data: seq<u8>, n: nat, t: Tree, cur: nat, a: Tree, b: Tree)
    requires t.Node? && Ordered(data, n, t) && Leq(data, n, t.pos, cur) && Parted(data, n, t.right, cur, a, b)
    ensures Parted(data, n, t, cur, Tree.Node(t.pos, t.left, a), b)
  {
    hide Leq;
    BelowThrough(data, n, t.left, t.pos, cur);
  }

  lemma PartedLeft(data: seq<u8>, n: nat, t: Tree, cur: nat, a: Tree, b: Tree)
    requires t.Node? && Ordered(data, n, t) && Leq(data, n, cur, t.pos) && Parted(data, n, t.left, cur, a, b)
    ensures Parted(data, n, t, cur, a, Tree.Node(t.pos, b, t.right))
  {
    hide Leq;
    AboveThrough(data, n, t.right, t.pos, cur);
  }

  lemma PartedAt(data: seq<u8>, n: nat, t: Tree, cur: nat)
    requires t.Node? && Ordered(data, n, t) && Leq(data, n, t.pos, cur) && Leq(data, n, cur, t.pos)
    ensures Parted(data, n, t, cur, t.left, t.right)
  {
    hide Leq;
    BelowThrough(data, n, t.left, t.pos, cur);
    AboveThrough(data, n, t.right, t.pos, cur);
  }

  /** The two trees are ordered, take their positions from the tree, and lie on either side of cur. */
  lemma {:induction false} SplitOrdered(data: seq<u8>, t: Tree, cur: nat, maxLen: nat, niceLen: nat, depth: nat)
    requires Before(data, t, cur, maxLen) && Ordered(data, niceLen, t) && niceLen <= maxLen
    ensures var (a, b) := Split(data, t, cur, maxLen, niceLen, depth); Parted(data, niceLen, t, cur, a, b)
    decreases t
  {
    hide Leq, Common, Parted, Ordered, Positions;
    if t.Leaf? || depth == 0 {
      PartedNone(data, niceLen, t, cur);
      return;
    }
    Subtrees(data, niceLen, t);
    FirstStep(data, t.pos, cur, maxLen, niceLen);
    var k := Common(data, t.pos, cur, maxLen);
    if k >= niceLen {
      PartedAt(data, niceLen, t, cur);
    } else if data[t.pos + k] < data[cur + k] {
      SplitOrdered(data, t.right, cur, maxLen, niceLen, depth - 1);
      var (a, b) := Split(data, t.right, cur, maxLen, niceLen, depth - 1);
      PartedRight(data, niceLen, t, cur, a, b);
    } else {
      SplitOrdered(data, t.left, cur, maxLen, niceLen, depth - 1);
      var (a, b) := Split(data, t.left, cur, maxLen, niceLen, depth - 1);
      PartedLeft(data, niceLen, t, cur, a, b);
    }
  }

  lemma PartedNone(data: seq<u8>, n: nat, t: Tree, cur: nat)
    ensures Parted(data, n, t, cur, Leaf, Leaf)
  {
  }

  /** With cur at the root, the tree is ordered again. */
  lemma InsertedOrdered(data: seq<u8>, t: Tree, cur: nat, maxLen: nat, niceLen: nat, depth: nat)
    requires Before(data, t, cur, maxLen) && Ordered(data, niceLen, t) && niceLen <= maxLen
    ensures var (a, b) := Split(data, t, cur, maxLen, niceLen, depth);
      Ordered(data, niceLen, Tree.Node(cur, a, b)) && Positions(Tree.Node(cur, a, b)) <= Positions(t) + {cur}
  {
    SplitOrdered(data, t, cur, maxLen, niceLen, depth);
  }

  lemma {:induction false} OrderedShorter(data: seq<u8>, n: nat, m: nat, t: Tree)
    requires m <= n && Ordered(data, n, t)
    ensures Ordered(data, m, t)
  {
    hide Leq;
    if t.Node? {
      OrderedShorter(data, n, m, t.left);
      OrderedShorter(data, n, m, t.right);
      forall y | y in Positions(t.left) ensures Leq(data, m, y, t.pos) {
        LeqShorter(data, n, m, y, t.pos);
      }
      forall y | y in Positions(t.right) ensures Leq(data, m, t.pos, y) {
        LeqShorter(data, n, m, t.pos, y);
      }
    }
  }

  // ---- the window moves on

  /** Positions up to the cutoff are gone, and with them what is below them. */
  ghost function Prune(t: Tree, cutoff: int): Tree {
    if t.Leaf? || t.pos <= cutoff then Leaf
    else Tree.Node(t.pos, Prune(t.left, cutoff), Prune(t.right, cutoff))
  }

  /** Exactly the positions behind the cutoff remain, as children are older than their parents. */
  lemma {:induction false} PrunePositions(data: seq<u8>, n: nat, t: Tree, cutoff: int)
    requires Ordered(data, n, t)
    ensures Ordered(data, n, Prune(t, cutoff))
    ensures forall y :: y in Positions(Prune(t, cutoff)) <==> y in Positions(t) && y > cutoff
  {
    hide Leq;
    if t.Node? {
      PrunePositions(data, n, t.left, cutoff);
      PrunePositions(data, n, t.right, cutoff);
    }
  }

  // ---- the matches

  ghost predicate Matching(data: seq<u8>, t: Tree, cur: nat, maxLen: nat, m: LzMatch) {
    && m.length <= maxLen && 0 < m.offset <= cur && cur - m.offset in Positions(t)
    && Agree(data, cur - m.offset, cur, m.length)
  }

  /** Longer and longer, from more than best on. */
  ghost predicate Longer(best: nat, ms: seq<LzMatch>) {
    (forall i :: 0 <= i < |ms| ==> best < ms[i].length)
    && forall i, j :: 0 <= i < j < |ms| ==> ms[i].length < ms[j].length
  }

  /** Farther and farther back, from behind near on. */
  ghost predicate Farther(near: int, ms: seq<LzMatch>) {
    (forall i :: 0 <= i < |ms| ==> near < ms[i].offset)
    && forall i, j :: 0 <= i < j < |ms| ==> ms[i].offset < ms[j].offset
  }

  ghost predicate TrueMatches(data: seq<u8>, t: Tree, cur: nat, maxLen: nat, ms: seq<LzMatch>) {
    forall i :: 0 <= i < |ms| ==> Matching(data, t, cur, maxLen, ms[i])
  }

  lemma SubtreeMatches(data: seq<u8>, t: Tree, u: Tree, cur: nat, maxLen: nat, ms: seq<LzMatch>)
    requires TrueMatches(data, u, cur, maxLen, ms) && Positions(u) <= Positions(t)
    ensures TrueMatches(data, t, cur, maxLen, ms)
  {
    hide Agree;
  }

  lemma FirstMatch(ms: seq<LzMatch>, best: nat, near: int, k: nat, offset: nat)
    requires Longer(k, ms) && Farther(offset, ms) && best < k && near < offset
    ensures var all := [LzMatch(k, offset)] + ms; Longer(best, all) && Farther(near, all)
  {
    var all := [LzMatch(k, offset)] + ms;
    forall i | 0 < i < |all| ensures all[i] == ms[i - 1] {
    }
  }

  lemma Subtrees(data: seq<u8>, n: nat, t: Tree)
    requires t.Node? && Ordered(data, n, t)
    ensures Ordered(data, n, t.left) && forall y :: y in Positions(t.left) ==> y < t.pos && y in Positions(t)
    ensures Ordered(data, n, t.right) && forall y :: y in Positions(t.right) ==> y < t.pos && y in Positions(t)
  {
  }

  /** Found matches are true, longer and longer, and farther and farther back. */
  lemma {:induction false} FoundAreTrue(data: seq<u8>, n: nat, t: Tree, cur: nat, maxLen: nat, niceLen: nat, depth: nat,
                                        best: nat, newer: nat)
    requires Before(data, t, cur, maxLen) && Ordered(data, n, t) && niceLen <= maxLen
    requires newer <= cur && forall y :: y in Positions(t) ==> y < newer
    ensures var ms := Found(data, t, cur, maxLen, niceLen, depth, best);
      TrueMatches(data, t, cur, maxLen, ms) && Longer(best, ms) && Farther(cur - newer, ms)
    decreases t
  {
    hide Leq, Common, Agree, Ordered, TrueMatches, Longer, Farther;
    NoMatches(data, t, cur, maxLen, best, cur - newer);
    if t.Leaf? || depth == 0 {
      return;
    }
    Subtrees(data, n, t);
    var k := Common(data, t.pos, cur, maxLen);
    var best' := if k > best then k else best;
    var here := if k > best then [LzMatch(k, cur - t.pos)] else [];
    var more := [];
    if k < niceLen {
      var u := if data[t.pos + k] < data[cur + k] then t.right else t.left;
      more := Found(data, u, cur, maxLen, niceLen, depth - 1, best');
      FoundAreTrue(data, n, u, cur, maxLen, niceLen, depth - 1, best', t.pos);
      SubtreeMatches(data, t, u, cur, maxLen, more);
    } else {
      NoMatches(data, t, cur, maxLen, best', cur - t.pos);
      assert here + [] == here;
    }
    assert t.pos in Positions(t);
    MoreMatches(data, t, cur, maxLen, best, cur - newer, k, more);
  }

  lemma MoreMatches(data: seq<u8>, t: Tree, cur: nat, maxLen: nat, best: nat, near: int, k: nat, more: seq<LzMatch>)
    requires t.Node? && t.pos < cur && near < cur - t.pos && k <= maxLen && Agree(data, t.pos, cur, k)
    requires TrueMatches(data, t, cur, maxLen, more) && Longer(if k > best then k else best, more)
    requires Farther(cur - t.pos, more)
    ensures var ms := (if k > best then [LzMatch(k, cur - t.pos)] else []) + more;
      TrueMatches(data, t, cur, maxLen, ms) && Longer(best, ms) && Farther(near, ms)
  {
    hide Agree, Longer, Farther;
    if k > best {
      FirstMatch(more, best, near, k, cur - t.pos);
      assert t.pos in Positions(t);
    } else {
      assert [] + more == more;
      FartherStill(more, cur - t.pos, near);
    }
  }

  lemma FartherStill(ms: seq<LzMatch>, near: int, nearer: int)
    requires Farther(near, ms) && nearer < near
    ensures Farther(nearer, ms)
  {
  }

  lemma NoMatches(data: seq<u8>, t: Tree, cur: nat, maxLen: nat, best: nat, near: int)
    ensures TrueMatches(data, t, cur, maxLen, []) && Longer(best, []) && Farther(near, [])
  {
  }

  // ---- nothing is missed

  ghost function Height(t: Tree): nat {
    if t.Leaf? then 0 else 1 + if Height(t.left) > Height(t.right) then Height(t.left) else Height(t.right)
  }

  ghost function BestOf(best: nat, ms: seq<LzMatch>): nat {
    if ms == [] then best else ms[|ms| - 1].length
  }

  /** What lies on the far side of x shares no more bytes with cur than x does. */
  lemma FarSide(data: seq<u8>, n: nat, y: nat, x: nat, cur: nat, maxLen: nat)
    requires x + maxLen <= |data| && cur + maxLen <= |data| && y + maxLen <= |data|
    requires Common(data, x, cur, maxLen) < n <= maxLen
    requires var k := Common(data, x, cur, maxLen);
      if data[x + k] < data[cur + k] then Leq(data, n, y, x) else Leq(data, n, x, y)
    ensures Common(data, y, cur, maxLen) <= Common(data, x, cur, maxLen)
  {
    hide Common, Agree, Leq;
    var k, c := Common(data, x, cur, maxLen), Common(data, y, cur, maxLen);
    if c > k {
      ShareMore(data, n, y, x, cur, k, c);
      if data[x + k] < data[cur + k] {
        LeqAt(data, n, y, x);
      } else {
        LeqAt(data, n, x, y);
      }
    }
  }

  lemma LeqAt(data: seq<u8>, n: nat, x: nat, y: nat)
    requires Leq(data, n, x, y) && Common(data, x, y, n) < n
    ensures data[x + Common(data, x, y, n)] < data[y + Common(data, x, y, n)]
  {
    hide Common;
  }

  lemma ShareMore(data: seq<u8>, n: nat, y: nat, x: nat, cur: nat, k: nat, c: nat)
    requires k < c && k < n && Agree(data, x, cur, k) && Agree(data, y, cur, c) && x + n <= |data| && y + n <= |data|
    requires x + k < |data| && data[x + k] != data[cur + k]
    ensures Common(data, x, y, n) == Common(data, y, x, n) == k && data[y + k] == data[cur + k]
  {
    hide Common, Agree;
    AgreeAt(data, y, cur, c, k);
    AgreeShorter(data, y, cur, c, k);
    AgreeThroughBack(data, x, y, cur, k);
    CommonIs(data, x, y, n, k);
    CommonIs(data, y, x, n, k);
  }

  lemma AgreeThroughBack(data: seq<u8>, x: nat, y: nat, z: nat, k: nat)
    requires Agree(data, x, z, k) && Agree(data, y, z, k)
    ensures Agree(data, x, y, k) && Agree(data, y, x, k)
  {
  }

  lemma {:induction false} BestGrows(data: seq<u8>, t: Tree, cur: nat, maxLen: nat, niceLen: nat, depth: nat, best: nat)
    requires Before(data, t, cur, maxLen) && niceLen <= maxLen
    ensures BestOf(best, Found(data, t, cur, maxLen, niceLen, depth, best)) >= best
    ensures t.Node? && depth > 0 ==>
      BestOf(best, Found(data, t, cur, maxLen, niceLen, depth, best)) >= Common(data, t.pos, cur, maxLen)
    decreases t
  {
    hide Common, Agree, BestOf, Found;
    NoneBetter(best);
    if t.Leaf? || depth == 0 {
      FoundNothing(data, t, cur, maxLen, niceLen, depth, best);
    } else {
      var k := Common(data, t.pos, cur, maxLen);
      var best' := if k > best then k else best;
      FoundStep(data, t, cur, maxLen, niceLen, depth, best);
      if k < niceLen {
        var u := if data[t.pos + k] < data[cur + k] then t.right else t.left;
        BestGrows(data, u, cur, maxLen, niceLen, depth - 1, best');
        BestStep(best, k, cur - t.pos, Found(data, u, cur, maxLen, niceLen, depth - 1, best'));
      } else {
        BestStep(best, k, cur - t.pos, []);
        NoneBetter(best');
      }
    }
  }

  lemma FoundNothing(data: seq<u8>, t: Tree, cur: nat, maxLen: nat, niceLen: nat, depth: nat, best: nat)
    requires Before(data, t, cur, maxLen) && niceLen <= maxLen && (t.Leaf? || depth == 0)
    ensures Found(data, t, cur, maxLen, niceLen, depth, best) == []
  {
  }

  /** What is found at a node, and what below it. */
  lemma FoundStep(data: seq<u8>, t: Tree, cur: nat, maxLen: nat, niceLen: nat, depth: nat, best: nat)
    requires Before(data, t, cur, maxLen) && niceLen <= maxLen && t.Node? && depth > 0
    ensures var k := Common(data, t.pos, cur, maxLen);
      var here := if k > best then [LzMatch(k, cur - t.pos)] else [];
      var best' := if k > best then k else best;
      Found(data, t, cur, maxLen, niceLen, depth, best) ==
        here + (if k >= niceLen then []
                else Found(data, if data[t.pos + k] < data[cur + k] then t.right else t.left, cur, maxLen, niceLen,
                           depth - 1, best'))
  {
    hide Common, Agree;
  }

  lemma NoneBetter(best: nat)
    ensures BestOf(best, []) == best
  {
  }

  /** If the search is deep enough, it ends with a match of niceLen bytes or with the longest that the
      tree has to offer. */
  lemma {:induction false} NoneLonger(data: seq<u8>, t: Tree, cur: nat, maxLen: nat, niceLen: nat, depth: nat,
                                      best: nat, y: nat)
    requires Before(data, t, cur, maxLen) && Ordered(data, niceLen, t) && niceLen <= maxLen
    requires Height(t) <= depth && y in Positions(t) && y < cur
    ensures var longest := BestOf(best, Found(data, t, cur, maxLen, niceLen, depth, best));
      longest >= niceLen || Common(data, y, cur, maxLen) <= longest
    decreases t
  {
    hide Leq, Common, Agree, BestOf, Found;
    var k := Common(data, t.pos, cur, maxLen);
    var best' := if k > best then k else best;
    BestGrows(data, t, cur, maxLen, niceLen, depth, best);
    FoundStep(data, t, cur, maxLen, niceLen, depth, best);
    if k < niceLen {
      var below := data[t.pos + k] < data[cur + k];
      var u := if below then t.right else t.left;
      if y in Positions(u) {
        NoneLonger(data, u, cur, maxLen, niceLen, depth - 1, best', y);
        BestStep(best, k, cur - t.pos, Found(data, u, cur, maxLen, niceLen, depth - 1, best'));
      } else if y != t.pos {
        FarSide(data, niceLen, y, t.pos, cur, maxLen);
      }
    }
  }

  lemma BestStep(best: nat, k: nat, offset: nat, more: seq<LzMatch>)
    ensures BestOf(best, (if k > best then [LzMatch(k, offset)] else []) + more)
      == BestOf(if k > best then k else best, more)
  {
  }

  lemma {:induction false} AllBefore(data: seq<u8>, t: Tree, cur: nat, maxLen: nat)
    requires cur + maxLen <= |data| && forall y :: y in Positions(t) ==> y < cur
    ensures Before(data, t, cur, maxLen)
  {
    if t.Node? {
      assert t.pos in Positions(t);
      AllBefore(data, t.left, cur, maxLen);
      AllBefore(data, t.right, cur, maxLen);
    }
  }

  /** Each match but the last is shorter than niceLen, so that there are not many. */
  lemma {:induction false} FoundFew(data: seq<u8>, t: Tree, cur: nat, maxLen: nat, niceLen: nat, depth: nat, best: nat)
    requires Before(data, t, cur, maxLen) && niceLen <= maxLen && best < niceLen
    ensures |Found(data, t, cur, maxLen, niceLen, depth, best)| <= niceLen - best
    decreases t
  {
    hide Common, Agree;
    if t.Node? && depth > 0 {
      var k := Common(data, t.pos, cur, maxLen);
      if k < niceLen {
        var u := if data[t.pos + k] < data[cur + k] then t.right else t.left;
        FoundFew(data, u, cur, maxLen, niceLen, depth - 1, if k > best then k else best);
      }
    }
  }
}
