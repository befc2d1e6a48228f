/** The binary tree matchfinder: every position becomes the root of a search tree of the earlier ones
    with the same hash, and the way down that this takes finds the matches. */
module BtMatchfinder {
  import opened Arith
  import opened BitBuffer
  import opened MatchCommon
  import opened HashTables
  import opened BtTrees
  import opened BtMemory
  import opened BtForest

  const BT_REQUIRED_NBYTES: nat := 5

  /** The state of the search between two nodes. */
  datatype Way = Way(t: Tree, pl: nat, pg: nat, depth: nat, best: nat)

  /** The rest of the search leads to the table `goal` and, behind `ms`, to the matches `all`. */
  ghost predicate Leads(data: seq<u8>, m: seq<Pos>, base: int, cur: nat, maxLen: nat, niceLen: nat, w: Way,
                        ms: seq<LzMatch>, record: bool, goal: seq<Pos>, all: seq<LzMatch>) {
    && |m| == 2 * WINDOW_SIZE && w.pl < |m| && w.pg < |m| && Before(data, w.t, cur, maxLen) && niceLen <= maxLen
    && Near(base, w.t)
    && Descend(data, m, base, w.t, w.pl, w.pg, cur, maxLen, niceLen, w.depth) == goal
    && (record ==> ms + Found(data, w.t, cur, maxLen, niceLen, w.depth, w.best) == all)
  }

  /** At a node: how the search goes on, given the number of equal bytes k. */
  lemma LeadsOn(data: seq<u8>, m: seq<Pos>, base: int, cur: nat, maxLen: nat, niceLen: nat, w: Way, ms: seq<LzMatch>,
                record: bool, goal: seq<Pos>, all: seq<LzMatch>, e: Pos, k: nat)
    requires Leads(data, m, base, cur, maxLen, niceLen, w, ms, record, goal, all)
    requires w.t.Node? && w.t.pos == base + e && w.depth > 0 && k == Common(data, w.t.pos, cur, maxLen)
    ensures var ms' := if record && k > w.best then ms + [LzMatch(k, cur - w.t.pos)] else ms;
      var best' := if record && k > w.best then k else w.best;
      if k >= niceLen then
        m[w.pl := m[LeftOf(e)]][w.pg := m[RightOf(e)]] == goal && (record ==> ms' == all)
      else if data[w.t.pos + k] < data[cur + k] then
        Leads(data, m[w.pl := e], base, cur, maxLen, niceLen, Way(w.t.right, RightOf(e), w.pg, w.depth - 1, best'), ms',
              record, goal, all)
      else
        Leads(data, m[w.pg := e], base, cur, maxLen, niceLen, Way(w.t.left, w.pl, LeftOf(e), w.depth - 1, best'), ms',
              record, goal, all)
  {
    hide Common, Agree;
    NearParts(base, w.t);
    var here := if k > w.best then [LzMatch(k, cur - w.t.pos)] else [];
    var best' := if k > w.best then k else w.best;
    if k < niceLen {
      var u := if data[w.t.pos + k] < data[cur + k] then w.t.right else w.t.left;
      var more := Found(data, u, cur, maxLen, niceLen, w.depth - 1, best');
      assert ms + (here + more) == (ms + here) + more;
    }
    assert ms + [] == ms;
  }

  /** Nowhere to go: both links end here. */
  lemma LeadsNowhere(data: seq<u8>, m: seq<Pos>, base: int, cur: nat, maxLen: nat, niceLen: nat, w: Way,
                     ms: seq<LzMatch>, record: bool, goal: seq<Pos>, all: seq<LzMatch>)
    requires Leads(data, m, base, cur, maxLen, niceLen, w, ms, record, goal, all) && (w.t.Leaf? || w.depth == 0)
    ensures m[w.pl := DEAD][w.pg := DEAD] == goal && (record ==> ms == all)
  {
    assert ms + [] == ms;
  }

  lemma GoingParts(data: seq<u8>, m: seq<Pos>, base: int, cutoff: int, e: Pos, t: Tree, pl: nat, pg: nat, cur: nat,
                   maxLen: nat, niceLen: nat)
    requires Going(data, m, base, cutoff, e, t, pl, pg, cur, maxLen, niceLen)
    ensures |m| == 2 * WINDOW_SIZE && pl < |m| && pg < |m| && pl != pg && Before(data, t, cur, maxLen)
    ensures niceLen <= maxLen
    ensures Near(base, t) && Ordered(data, niceLen, t) && cur + maxLen <= |data|
  {
    hide Ordered, Near, Holds, InWindow, Owns;
  }

  lemma LeadsStart(data: seq<u8>, m: seq<Pos>, base: int, cur: nat, maxLen: nat, niceLen: nat, w: Way, record: bool)
    requires |m| == 2 * WINDOW_SIZE && w.pl < |m| && w.pg < |m| && Before(data, w.t, cur, maxLen) && niceLen <= maxLen
    requires Near(base, w.t)
    ensures Leads(data, m, base, cur, maxLen, niceLen, w, [], record,
                  Descend(data, m, base, w.t, w.pl, w.pg, cur, maxLen, niceLen, w.depth),
                  Found(data, w.t, cur, maxLen, niceLen, w.depth, w.best))
  {
    hide Before, Near, Descend, Found;
    var all := Found(data, w.t, cur, maxLen, niceLen, w.depth, w.best);
    assert [] + all == all;
  }

  lemma AgreeOneMore(data: seq<u8>, m: nat, p: nat, len: nat)
    requires Agree(data, m, p, len)
    ensures Agree(data, p, m, len)
    ensures m + len < |data| && p + len < |data| && data[m + len] == data[p + len] ==> Agree(data, p, m, len + 1)
  {
    if m + len < |data| && p + len < |data| && data[m + len] == data[p + len] {
      assert data[m..m + len + 1] == data[m..m + len] + [data[m + len]];
      assert data[p..p + len + 1] == data[p..p + len] + [data[p + len]];
    }
  }

  // ---- the most recent positions with the same three bytes

  /** A position is the last of its bucket, or not newer than the one before the last. */
  ghost predicate RecentAt(data: seq<u8>, last: seq<Pos>, former: seq<Pos>, base: int, y: nat) {
    && y + 4 <= |data| && |last| == |former| == Pow2(TREE_ORDER)
    && var h := Key(data, TreeThree, y); y == base + last[h] || (y < base + last[h] && y <= base + former[h])
  }

  ghost predicate Recent(data: seq<u8>, last: seq<Pos>, former: seq<Pos>, base: int, cutoff: int, upTo: int) {
    && |last| == |former| == Pow2(TREE_ORDER)
    && forall y: nat :: cutoff < y < upTo ==> RecentAt(data, last, former, base, y)
  }

  /** So it is for all positions in the window. */
  lemma RecentFrom(data: seq<u8>, last: seq<Pos>, former: seq<Pos>, base: nat, p: nat)
    requires base <= p <= base + WINDOW_SIZE && p + 3 <= |data|
    requires Heads(data, TreeThree, base, p, last) && Formers(data, TreeThree, base, p, former)
    ensures Recent(data, last, former, base, p - WINDOW_SIZE, p)
  {
    hide Key;
    forall y: nat | p - WINDOW_SIZE < y < p ensures RecentAt(data, last, former, base, y) {
      var h := Key(data, TreeThree, y);
      assert Order(TreeThree) == TREE_ORDER;
      assert Latest(data, TreeThree, h, p) >= y;
    }
  }

  /** The bucket depends on three bytes. */
  lemma BucketOfThree(data: seq<u8>, x: nat, y: nat)
    requires x + 4 <= |data| && y + 4 <= |data| && 0 < x && 0 < y && Agree(data, x, y, 3)
    ensures Key(data, TreeThree, x) == Key(data, TreeThree, y)
  {
    hide Value, LzHash;
    ThreeBytes(data, x);
    ThreeBytes(data, y);
  }

  lemma ThreeBytes(data: seq<u8>, x: nat)
    requires x + 4 <= |data|
    ensures Le32(data, x) % 0x100_0000 == Value(data[x..x + 3])
  {
    hide Value;
    var four := data[x..x + 4];
    assert four[..3] == data[x..x + 3] && four == four[..3] + [four[3]];
    ValueAppend(four[..3], [four[3]]);
    ValueBound(four[..3]);
    assert Pow2(8) == 256;
    Pow2Add(8, 8);
    Pow2Add(16, 8);
  }

  // ---- what is found

  /** True matches, longer and longer, and never nearer than the one before. */
  ghost predicate Matches(data: seq<u8>, p: nat, maxLen: nat, ms: seq<LzMatch>) {
    && (forall i :: 0 <= i < |ms| ==>
          && 3 <= ms[i].length <= maxLen && 0 < ms[i].offset < WINDOW_SIZE && ms[i].offset <= p
          && Agree(data, p - ms[i].offset, p, ms[i].length))
    && forall i, j :: 0 <= i < j < |ms| ==> ms[i].length < ms[j].length && ms[i].offset <= ms[j].offset
  }

  /** At most one match of three bytes comes first: with the last position of the bucket, or else with the former. */
  ghost predicate ThreeFirst(data: seq<u8>, p: nat, last: int, former: int, three: seq<LzMatch>) {
    three == [] ||
    (|three| == 1 && three[0].length == 3 && 0 < three[0].offset < WINDOW_SIZE && three[0].offset <= p
     && Agree(data, p - three[0].offset, p, 3)
     && (p - three[0].offset == last || (p - three[0].offset == former && last >= 0 && !Agree(data, last, p, 3))))
  }

  /** The match of three bytes with the last position of the bucket, or else with the former. */
  ghost function ThreeOf(data: seq<u8>, p: nat, last: int, former: int): (three: seq<LzMatch>)
    requires last < p && former < p && p + 3 <= |data|
  {
    if !InReach(last, p) then []
    else if Common(data, last, p, 3) == 3 then [LzMatch(3, p - last)]
    else if InReach(former, p) && Common(data, former, p, 3) == 3 then [LzMatch(3, p - former)]
    else []
  }

  /** The match of three bytes at p, with the last position of its bucket or else with the last but one. */
  ghost function ThreesAt(data: seq<u8>, p: nat): seq<LzMatch>
    requires p + 3 <= |data|
  {
    var h := Key(data, TreeThree, p);
    ThreeOf(data, p, Latest(data, TreeThree, h, p), Second(data, TreeThree, h, p))
  }

  /** The last position with the hash of p gives the match if it has three bytes in common with p, or else the last
      but one. */
  lemma ThreesAtLast(data: seq<u8>, p: nat, y: nat)
    requires p + 3 <= |data| && LastAlike(data, TreeThree, p, p, y) && InReach(y, p)
    ensures Common(data, y, p, 3) == 3 ==> ThreesAt(data, p) == [LzMatch(3, p - y)]
    ensures Common(data, y, p, 3) < 3 ==>
      forall z: nat :: LastAlike(data, TreeThree, p, y, z) && InReach(z, p) && Common(data, z, p, 3) == 3 ==>
        ThreesAt(data, p) == [LzMatch(3, p - z)]
  {
    hide Common, Key, LastAlike, Latest, Second;
    LatestIs(data, TreeThree, p, p, y);
    forall z: nat | LastAlike(data, TreeThree, p, y, z)
      ensures Second(data, TreeThree, Key(data, TreeThree, p), p) == z
    {
      SecondIs(data, TreeThree, p, p, y, z);
    }
  }

  lemma ThreeOfFirst(data: seq<u8>, p: nat, base: nat, y: int, z: int)
    requires y < p && z < p && p + 3 <= |data| && base <= p < base + WINDOW_SIZE
    ensures ThreeFirst(data, p, base + Entry(y, base), base + Entry(z, base), ThreeOf(data, p, y, z))
  {
    hide Common, Entry;
    EntryReach(y, base, p);
    EntryReach(z, base, p);
    if InReach(y, p) {
      CommonAtLeast(data, y, p, 3, 3);
    }
  }

  /** Matches from the tree are not nearer than the match of three bytes. */
  lemma NotNearer(data: seq<u8>, p: nat, last: seq<Pos>, former: seq<Pos>, base: int, three: seq<LzMatch>, y: nat)
    requires p + 5 <= |data| && RecentAt(data, last, former, base, y) && y < p && Agree(data, y, p, 4)
    requires three != []
    requires var h := Key(data, TreeThree, p); ThreeFirst(data, p, base + last[h], base + former[h], three)
    ensures p - y >= three[0].offset
  {
    hide Agree, Key;
    AgreeShorter(data, y, p, 4, 3);
    if y > 0 {
      BucketOfThree(data, y, p);
    }
  }

  lemma AllMatches(data: seq<u8>, p: nat, maxLen: nat, last: seq<Pos>, former: seq<Pos>, base: int, t: Tree,
                   three: seq<LzMatch>, ms: seq<LzMatch>)
    requires p + 5 <= |data| && 3 <= maxLen && Recent(data, last, former, base, p - WINDOW_SIZE, p)
    requires var h := Key(data, TreeThree, p); ThreeFirst(data, p, base + last[h], base + former[h], three)
    requires forall y :: y in Positions(t) ==> p - WINDOW_SIZE < y < p
    requires TrueMatches(data, t, p, maxLen, ms) && Longer(3, ms) && Farther(0, ms)
    ensures Matches(data, p, maxLen, three + ms)
  {
    hide Agree, Key, Positions, RecentAt;
    forall i | 0 <= i < |ms|
      ensures 3 < ms[i].length <= maxLen && 0 < ms[i].offset < WINDOW_SIZE && ms[i].offset <= p
      ensures Agree(data, p - ms[i].offset, p, ms[i].length) && (three != [] ==> three[0].offset <= ms[i].offset)
    {
      assert Matching(data, t, p, maxLen, ms[i]);
      var y := p - ms[i].offset;
      AgreeShorter(data, y, p, ms[i].length, 4);
      assert RecentAt(data, last, former, base, y);
      if three != [] {
        NotNearer(data, p, last, former, base, three, y);
      }
    }
  }

  lemma NoBounds(data: seq<u8>, n: nat, t: Tree, cur: nat)
    ensures Bounds(data, n, t, cur, 0, 0, 0, 0)
  {
  }

  class BtMatchfinder {
    const wordBytes: nat
    const fast: bool
    const hash3a: array<Pos>
    const hash3b: array<Pos>
    const hash4: array<Pos>
    const child: array<Pos>
    var base: nat
    var nextHash3: nat
    var nextHash4: nat
    /** All positions below are inserted, no others. */
    ghost var inserted: nat
    ghost var trees: seq<Tree>

    ghost predicate Shape()
      reads this
    {
      && (wordBytes == 4 || wordBytes == 8)
      && hash3a != hash3b && hash3a != hash4 && hash3a != child && hash3b != hash4 && hash3b != child && hash4 != child
      && hash3a.Length == hash3b.Length == Pow2(TREE_ORDER) && hash4.Length == Pow2(TREE_ORDER)
      && child.Length == 2 * WINDOW_SIZE && nextHash3 < hash3a.Length && nextHash4 < hash4.Length
    }

    /** The number of equal bytes at p and the node, given that `start` are. */
    method Compare(data: seq<u8>, p: nat, m: nat, start: nat, maxLen: nat) returns (equal: bool, len: nat)
      requires (wordBytes == 4 || wordBytes == 8) && p + maxLen <= |data| && m + maxLen <= |data| && start < maxLen
      requires Agree(data, m, p, start)
      ensures len == Common(data, m, p, maxLen) && start <= len
      ensures equal == (len > start)
    {
      hide Agree, Common;
      AgreeOneMore(data, m, p, start);
      len, equal := start, data[m + start] == data[p + start];
      if equal {
        len := LzExtend(data, p, m, len + 1, maxLen, wordBytes, fast);
        LongestIsCommon(data, p, m, len, maxLen);
      } else {
        CommonIs(data, m, p, maxLen, len);
      }
    }

    /** Goes down from the node, records matches if asked to, and makes the two pending links hold what comes
        before p and what comes behind. */
    method Search(data: seq<u8>, p: nat, node0: Pos, pl0: nat, pg0: nat, maxLen: nat, niceLen: nat, depth0: nat,
                  record: bool, cutoff: int, ghost t0: Tree)
      returns (ms: seq<LzMatch>)
      requires Shape() && 3 < niceLen && depth0 >= 1 && cutoff == p - WINDOW_SIZE && base + node0 > cutoff
      requires Going(data, child[..], base, cutoff, node0, t0, pl0, pg0, p, maxLen, niceLen)
      modifies child
      ensures child[..] == Descend(data, old(child[..]), base, t0, pl0, pg0, p, maxLen, niceLen, depth0)
      ensures record ==> ms == Found(data, t0, p, maxLen, niceLen, depth0, 3)
      ensures !record ==> ms == []
    {
      hide Leads, Going, Bounds, Descend, Found, Common, Agree, Before, Near, Holds, Ordered, LeftOf, RightOf;
      GoingParts(data, child[..], base, cutoff, node0, t0, pl0, pg0, p, maxLen, niceLen);
      LeadsStart(data, child[..], base, p, maxLen, niceLen, Way(t0, pl0, pg0, depth0, 3), record);
      NoBounds(data, niceLen, t0, p);
      var node, pl, pg, depth := node0, pl0, pg0, depth0;
      var ltLen, gtLen, len, best: nat := 0, 0, 0, 3;
      ms := [];
      ghost var t, a, b: nat := t0, 0, 0;
      ghost var goal := Descend(data, child[..], base, t0, pl0, pg0, p, maxLen, niceLen, depth0);
      ghost var all := Found(data, t0, p, maxLen, niceLen, depth0, 3);
      while true
        invariant depth >= 1 && base + node > cutoff
        invariant Going(data, child[..], base, cutoff, node, t, pl, pg, p, maxLen, niceLen)
        invariant Leads(data, child[..], base, p, maxLen, niceLen, Way(t, pl, pg, depth, best), ms, record, goal, all)
        invariant Bounds(data, niceLen, t, p, ltLen, a, gtLen, b)
        invariant len == (if ltLen < gtLen then ltLen else gtLen) && ltLen < niceLen && gtLen < niceLen
        invariant record ==> ltLen <= best && gtLen <= best < niceLen
        invariant !record ==> ms == []
        decreases depth
      {
        ghost var m := child[..];
        GoingParts(data, m, base, cutoff, node, t, pl, pg, p, maxLen, niceLen);
        GoingDown(data, m, base, cutoff, node, t, pl, pg, p, maxLen, niceLen);
        BoundsAgree(data, niceLen, t, p, ltLen, a, gtLen, b, t.pos, len);
        var equal;
        equal, len := Compare(data, p, base + node, len, maxLen);
        LeadsOn(data, m, base, p, maxLen, niceLen, Way(t, pl, pg, depth, best), ms, record, goal, all, node, len);
        if equal && (!record || len > best) {
          if record {
            best := len;
            ms := ms + [LzMatch(len, p - (base + node))];
          }
          if len >= niceLen {
            assert m[pl := m[LeftOf(node)]][RightOf(node)] == m[RightOf(node)];
            child[pl] := child[LeftOf(node)];
            child[pg] := child[RightOf(node)];
            return;
          }
        }
        BoundsRight(data, niceLen, t, p, ltLen, a, gtLen, b, len);
        if data[base + node + len] < data[p + len] {
          child[pl] := node;
          assert child[..] == m[pl := node];
          t, a, pl := t.right, t.pos, RightOf(node);
          node := child[pl];
          ltLen := len;
          len := if gtLen < len then gtLen else len;
        } else {
          child[pg] := node;
          assert child[..] == m[pg := node];
          t, b, pg := t.left, t.pos, LeftOf(node);
          node := child[pg];
          gtLen := len;
          len := if ltLen < len then ltLen else len;
        }
        depth := depth - 1;
        if base + node <= cutoff || depth == 0 {
          Gone(data, child[..], base, cutoff, node, t, pl, pg, p, maxLen, niceLen);
          LeadsNowhere(data, child[..], base, p, maxLen, niceLen, Way(t, pl, pg, depth, best), ms, record, goal, all);
          child[pl] := DEAD;
          child[pg] := DEAD;
          return;
        }
      }
    }

    ghost predicate Valid(data: seq<u8>, n: nat)
      reads this, hash3a, hash3b, hash4, child
    {
      && Shape() && |trees| == hash4.Length
      && AllOk(data, n, child[..], hash4[..], base, inserted - WINDOW_SIZE, inserted, trees) && Disjoint(trees)
      && inserted <= base + WINDOW_SIZE
      && Heads(data, TreeThree, base, inserted, hash3a[..]) && Formers(data, TreeThree, base, inserted, hash3b[..])
    }

    /** The hashes belong to the next position. */
    ghost predicate Hashed(data: seq<u8>)
      reads this
    {
      inserted + 4 <= |data| ==>
        nextHash3 == Key(data, TreeThree, inserted) && nextHash4 == Key(data, TreeFour, inserted)
    }

    ghost predicate At(p: nat)
      reads this
    {
      inserted == p && base <= p <= base + WINDOW_SIZE
    }

    constructor (data: seq<u8>, n: nat, wordBytes: nat, fast: bool)
      requires wordBytes == 4 || wordBytes == 8
      ensures Valid(data, n) && At(0) && Hashed(data) && trees == seq(Pow2(TREE_ORDER), _ => Leaf)
      ensures fresh(hash3a) && fresh(hash3b) && fresh(hash4) && fresh(child)
    {
      hide AllOk, Disjoint, Pow2, RecentAt;
      this.wordBytes, this.fast := wordBytes, fast;
      hash3a := new Pos[Pow2(TREE_ORDER)](_ => DEAD);
      hash3b := new Pos[Pow2(TREE_ORDER)](_ => DEAD);
      hash4 := new Pos[Pow2(TREE_ORDER)](_ => DEAD);
      child := new Pos[2 * WINDOW_SIZE];
      base, nextHash3, nextHash4, inserted := 0, 0, 0, 0;
      trees := seq(Pow2(TREE_ORDER), _ => Leaf);
      new;
      NothingPlanted(data, n, child[..], hash4[..], trees);
    }

    /** Moves the window; the trees stay the same if it has been used up. */
    method SlideWindow(data: seq<u8>, ghost n: nat)
      requires Shape()
      modifies this`base, hash3a, hash3b, hash4, child
      ensures Shape() && base == old(base) + WINDOW_SIZE
      ensures old(Valid(data, n) && Hashed(data) && inserted == base + WINDOW_SIZE) ==> Valid(data, n) && Hashed(data)
    {
      hide AllOk, Disjoint, Heads, Formers;
      ghost var a, b, r, m := hash3a[..], hash3b[..], hash4[..], child[..];
      ghost var full := Valid(data, n) && Hashed(data) && inserted == base + WINDOW_SIZE;
      Rebase(hash3a);
      Rebase(hash3b);
      Rebase(hash4);
      Rebase(child);
      base := base + WINDOW_SIZE;
      if full {
        ghost var base0 := base - WINDOW_SIZE;
        SlideOk(data, n, m, child[..], r, hash4[..], base0, base0, inserted, trees);
        HeadsSlide(data, TreeThree, base0, inserted, a, hash3a[..]);
        FormersSlide(data, TreeThree, base0, inserted, b, hash3b[..]);
      }
    }

    predicate EqualThree(data: seq<u8>, m: nat, p: nat)
      requires m <= p && p + 3 <= |data|
      ensures EqualThree(data, m, p) <==> Common(data, m, p, 3) == 3
    {
      CommonAtLeast(data, m, p, 3, 3);
      data[m..m + 3] == data[p..p + 3]
    }

    /** The match of three bytes. */
    method MatchThree(data: seq<u8>, p: nat, last: Pos, former: Pos, ghost y: int, ghost z: int)
      returns (three: seq<LzMatch>)
      requires base <= p < base + WINDOW_SIZE && p + 5 <= |data| && y < p && z < p
      requires last == Entry(y, base) && former == Entry(z, base)
      ensures three == ThreeOf(data, p, y, z)
    {
      hide Common, Agree, EqualThree, Entry;
      EntryReach(y, base, p);
      EntryReach(z, base, p);
      var cutoff := p - WINDOW_SIZE;
      three := [];
      if base + last > cutoff {
        if EqualThree(data, base + last, p) {
          three := [LzMatch(3, p - (base + last))];
        } else if base + former > cutoff && EqualThree(data, base + former, p) {
          three := [LzMatch(3, p - (base + former))];
        }
      }
    }

    /** Makes p the root of a tree, with the earlier positions of that tree on either side. */
    method Reroot(data: seq<u8>, p: nat, h4: nat, maxLen: nat, niceLen: nat, depth: nat, record: bool, ghost n: nat)
      returns (ms: seq<LzMatch>)
      requires Shape() && |trees| == hash4.Length && h4 < hash4.Length && base <= p < base + WINDOW_SIZE
      requires AllOk(data, n, child[..], hash4[..], base, p - WINDOW_SIZE, p, trees) && Disjoint(trees)
      requires p + maxLen <= |data| && 3 < niceLen <= maxLen && niceLen <= n && depth >= 1
      modifies this`trees, hash4, child
      ensures AllOk(data, niceLen, child[..], hash4[..], base, p + 1 - WINDOW_SIZE, p + 1, trees) && Disjoint(trees)
      ensures Before(data, old(trees)[h4], p, maxLen) && |trees| == hash4.Length
      ensures trees == Grown(data, old(trees), h4, p, maxLen, niceLen, depth)
      ensures ms == if record then Found(data, old(trees)[h4], p, maxLen, niceLen, depth, 3) else []
    {
      hide AllOk, Disjoint, Going, Found, Descend, Before, Near, Grown, LeftOf, RightOf;
      ghost var r, m, t := hash4[..], child[..], trees[h4];
      var cutoff, node: Pos, e: Pos := p - WINDOW_SIZE, hash4[h4], p - base;
      hash4[h4] := e;
      assert hash4[..] == r[h4 := e];
      var pl, pg := LeftOf(e), RightOf(e);
      AllSize(data, n, m, r, base, cutoff, p, trees);
      SetOut(data, n, m, r, base, p, trees, h4, e, maxLen, niceLen);
      ms := [];
      if base + node <= cutoff {
        Gone(data, m, base, cutoff, node, t, pl, pg, p, maxLen, niceLen);
        NothingThere(data, m, base, t, pl, pg, p, maxLen, niceLen, depth);
        child[pl] := DEAD;
        child[pg] := DEAD;
      } else {
        ms := Search(data, p, node, pl, pg, maxLen, niceLen, depth, record, cutoff, t);
      }
      Arrived(data, n, m, r, base, p, trees, h4, e, maxLen, niceLen, depth);
      trees := Grown(data, trees, h4, p, maxLen, niceLen, depth);
      AllSize(data, niceLen, child[..], hash4[..], base, cutoff + 1, p + 1, trees);
    }

    /** Puts p into its bucket of positions with the same three bytes, and computes the next hashes. */
    method PushThree(data: seq<u8>, p: nat) returns (last: Pos, former: Pos)
      requires Shape() && base <= p < base + WINDOW_SIZE && p + BT_REQUIRED_NBYTES <= |data|
      requires nextHash3 == Key(data, TreeThree, p)
      requires Heads(data, TreeThree, base, p, hash3a[..]) && Formers(data, TreeThree, base, p, hash3b[..])
      modifies this`nextHash3, this`nextHash4, hash3a, hash3b
      ensures Shape() && nextHash3 == Key(data, TreeThree, p + 1) && nextHash4 == Key(data, TreeFour, p + 1)
      ensures Heads(data, TreeThree, base, p + 1, hash3a[..]) && Formers(data, TreeThree, base, p + 1, hash3b[..])
      ensures var h := Key(data, TreeThree, p);
        last == Entry(Latest(data, TreeThree, h, p), base) && former == Entry(Second(data, TreeThree, h, p), base)
    {
      hide Heads, Formers, LzHash, Le32, Latest, Second, Entry;
      ghost var a, b := hash3a[..], hash3b[..];
      var v, h3 := Le32(data, p + 1), nextHash3;
      nextHash3, nextHash4 := LzHash(v % 0x100_0000, TREE_ORDER), LzHash(v, TREE_ORDER);
      var e: Pos := p - base;
      last, former := hash3a[h3], hash3b[h3];
      hash3a[h3] := e;
      hash3b[h3] := last;
      HeadAt(data, TreeThree, base, p, a);
      FormerAt(data, TreeThree, base, p, b);
      HeadsMore(data, TreeThree, base, p, a);
      FormersMore(data, TreeThree, base, p, b);
      assert hash3a[..] == a[h3 := e] && hash3b[..] == b[h3 := last];
    }

    /** Inserts p and, if asked to, finds matches. */
    method Advance(data: seq<u8>, p: nat, maxLen: nat, niceLen: nat, depth: nat, record: bool, ghost n: nat)
      returns (ms: seq<LzMatch>)
      requires Valid(data, n) && Hashed(data) && At(p) && p < base + WINDOW_SIZE && p + BT_REQUIRED_NBYTES <= |data|
      requires p + maxLen <= |data| && 3 < niceLen <= maxLen && niceLen <= n && depth >= 1
      modifies this`inserted, this`nextHash3, this`nextHash4, this`trees, hash3a, hash3b, hash4, child
      ensures Valid(data, niceLen) && Hashed(data) && At(p + 1)
      ensures Before(data, old(trees[nextHash4]), p, maxLen)
      ensures trees == Grown(data, old(trees), old(nextHash4), p, maxLen, niceLen, depth)
      ensures record ==> Matches(data, p, maxLen, ms) && |ms| <= niceLen - 2
      ensures ms == if record then ThreesAt(data, p) + Found(data, old(trees[nextHash4]), p, maxLen, niceLen, depth, 3)
                    else []
    {
      hide AllOk, Disjoint, Recent, RecentAt, Found, Before, Near, Matches, ThreeFirst, ThreeOf, Grown, Key, LzHash,
        Le32, Heads, Formers, Latest, Second, Entry;
      ghost var a, b, r, m := hash3a[..], hash3b[..], hash4[..], child[..];
      var h4 := nextHash4;
      var last, former := PushThree(data, p);
      ms := [];
      if record {
        ghost var h := Key(data, TreeThree, p);
        ghost var y, z := Latest(data, TreeThree, h, p), Second(data, TreeThree, h, p);
        ms := MatchThree(data, p, last, former, y, z);
        RecentFrom(data, a, b, base, p);
        HeadAt(data, TreeThree, base, p, a);
        FormerAt(data, TreeThree, base, p, b);
        ThreeOfFirst(data, p, base, y, z);
      }
      var more := Reroot(data, p, h4, maxLen, niceLen, depth, record, n);
      if record {
        Merged(data, n, m, r, base, p, old(trees), h4, a, b, maxLen, niceLen, depth, ms);
        ms := ms + more;
      }
      inserted := p + 1;
    }
  }

  /** In the beginning all trees are empty. */
  lemma NothingPlanted(data: seq<u8>, n: nat, m: seq<Pos>, roots: seq<Pos>, trees: seq<Tree>)
    requires |m| == 2 * WINDOW_SIZE && |roots| == |trees|
    requires forall h :: 0 <= h < |roots| ==> roots[h] == DEAD && trees[h] == Leaf
    ensures AllOk(data, n, m, roots, 0, -WINDOW_SIZE, 0, trees) && Disjoint(trees)
  {
  }

  lemma AllSize(data: seq<u8>, n: nat, m: seq<Pos>, roots: seq<Pos>, base: int, cutoff: int, upTo: int,
                trees: seq<Tree>)
    requires |m| == 2 * WINDOW_SIZE && AllOk(data, n, m, roots, base, cutoff, upTo, trees)
    ensures |roots| == |trees|
  {
  }

  lemma NothingThere(data: seq<u8>, m: seq<Pos>, base: int, t: Tree, pl: nat, pg: nat, cur: nat, maxLen: nat,
                     niceLen: nat, depth: nat)
    requires |m| == 2 * WINDOW_SIZE && pl < |m| && pg < |m| && Before(data, t, cur, maxLen) && niceLen <= maxLen
    requires Near(base, t) && t.Leaf?
    ensures Descend(data, m, base, t, pl, pg, cur, maxLen, niceLen, depth) == m[pl := DEAD][pg := DEAD]
    ensures Found(data, t, cur, maxLen, niceLen, depth, 3) == []
  {
  }

  /** All matches at p together. */
  lemma Merged(data: seq<u8>, n: nat, m: seq<Pos>, roots: seq<Pos>, base: int, p: nat, trees: seq<Tree>, h4: nat,
               last: seq<Pos>, former: seq<Pos>, maxLen: nat, niceLen: nat, depth: nat, three: seq<LzMatch>)
    requires |m| == 2 * WINDOW_SIZE && AllOk(data, n, m, roots, base, p - WINDOW_SIZE, p, trees) && h4 < |trees|
    requires p + 5 <= |data| && 3 < niceLen <= maxLen && p + maxLen <= |data| && Before(data, trees[h4], p, maxLen)
    requires Recent(data, last, former, base, p - WINDOW_SIZE, p)
    requires var h := Key(data, TreeThree, p); ThreeFirst(data, p, base + last[h], base + former[h], three)
    ensures var ms := three + Found(data, trees[h4], p, maxLen, niceLen, depth, 3);
      Matches(data, p, maxLen, ms) && |ms| <= niceLen - 2
  {
    hide Recent, Key, Found, Before, Matches, Holds, Ordered, Positions, TrueMatches, Longer, Farther, Agree;
    var t := trees[h4];
    assert TreeOk(data, n, m, base, p - WINDOW_SIZE, p, roots[h4], t);
    FoundAreTrue(data, n, t, p, maxLen, niceLen, depth, 3, p);
    FoundFew(data, t, p, maxLen, niceLen, depth, 3);
    AllMatches(data, p, maxLen, last, former, base, t, three, Found(data, t, p, maxLen, niceLen, depth, 3));
  }
}
