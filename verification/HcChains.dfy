/** What the hash chains matchfinder stores and finds, as functions of the input: its tables hold the latest
    positions with each hash, and a search walks back over the positions with the same hash. */
module HcChains {
  import opened Arith
  import opened BitBuffer
  import opened MatchCommon
  import opened HashTables

  /** The positions in the window link to the ones before them in their lists. */
  ghost predicate Links(data: seq<u8>, base: nat, n: nat, next: seq<Pos>)
    requires n <= base + WINDOW_SIZE
  {
    && |next| == WINDOW_SIZE
    && forall e: Pos :: 0 <= base + e && n - WINDOW_SIZE <= base + e < n ==>
         next[Slot(e)] == Entry(Latest(data, Four, Key(data, Four, base + e), base + e), base)
  }

  lemma LinksSlide(data: seq<u8>, base: nat, n: nat, next: seq<Pos>, next': seq<Pos>)
    requires n <= base + WINDOW_SIZE && Links(data, base, n, next) && |next'| == |next|
    requires forall i :: 0 <= i < |next| ==> next'[i] == Slid(next[i])
    ensures Links(data, base + WINDOW_SIZE, n, next')
  {
    hide Key, Latest, Entry;
    var base' := base + WINDOW_SIZE;
    forall e: Pos | 0 <= base' + e && n - WINDOW_SIZE <= base' + e < n
      ensures next'[Slot(e)] == Entry(Latest(data, Four, Key(data, Four, base' + e), base' + e), base')
    {
      var e': Pos := e + WINDOW_SIZE;
      assert Slot(e') == Slot(e) && base + e' == base' + e;
      EntrySlides(Latest(data, Four, Key(data, Four, base' + e), base' + e), base);
    }
  }

  lemma LinksMore(data: seq<u8>, base: nat, n: nat, next: seq<Pos>)
    requires base <= n < base + WINDOW_SIZE && Links(data, base, n, next)
    ensures Links(data, base, n + 1,
                  next[n - base := Entry(Latest(data, Four, Key(data, Four, n), n), base)])
  {
    hide Key, Latest, Entry;
    var next' := next[n - base := Entry(Latest(data, Four, Key(data, Four, n), n), base)];
    forall e: Pos | 0 <= base + e && n + 1 - WINDOW_SIZE <= base + e < n + 1
      ensures next'[Slot(e)] == Entry(Latest(data, Four, Key(data, Four, base + e), base + e), base)
    {
      if e != n - base {
        assert Slot(e) != n - base;
      }
    }
  }

  // ---- the search

  /** Walks back from y over the positions with the hash of p for better matches.  One of niceLen bytes ends the
      walk. */
  ghost function Walk(data: seq<u8>, p: nat, y: int, depth: nat, best: LzMatch, maxLen: nat, niceLen: nat): LzMatch
    requires p + maxLen <= |data| && y < p
    decreases depth
  {
    if depth == 0 || !InReach(y, p) then best
    else
      var k := Common(data, y, p, maxLen);
      var best' := Better(best, k, p - y);
      if best' != best && k >= niceLen then best'
      else Walk(data, p, Latest(data, Four, Key(data, Four, p), y), depth - 1, best', maxLen, niceLen)
  }

  /** A match of three bytes with the latest position that has the hash of three bytes. */
  ghost function OfThree(data: seq<u8>, p: nat, y: int, bestLen: nat, maxLen: nat): LzMatch
    requires p + maxLen <= |data| && y < p && InReach(y, p)
  {
    if bestLen < 3 && Common(data, y, p, maxLen) >= 3 then LzMatch(3, p - y) else LzMatch(bestLen, 0)
  }

  /** What a search at p finds that is longer than bestLen; LzMatch(bestLen, 0) if it is nothing. */
  ghost function Searched(data: seq<u8>, p: nat, bestLen: nat, maxLen: nat, niceLen: nat, depth: nat): LzMatch
    requires p + maxLen <= |data|
  {
    var none := LzMatch(bestLen, 0);
    var y3 := Latest(data, Three, Key(data, Three, p), p);
    var y4 := Latest(data, Four, Key(data, Four, p), p);
    if maxLen < 5 then none
    else if bestLen < 4 then
      if !InReach(y3, p) then none
      else Walk(data, p, y4, depth, OfThree(data, p, y3, bestLen, maxLen), maxLen, niceLen)
    else if bestLen >= niceLen then none
    else Walk(data, p, y4, depth, none, maxLen, niceLen)
  }

  // ---- what is found is true

  ghost predicate Improves(data: seq<u8>, p: nat, bestLen: nat, maxLen: nat, m: LzMatch) {
    m == LzMatch(bestLen, 0) ||
    (bestLen < m.length <= maxLen && 3 <= m.length && TrueMatch(data, p, m.length, m.offset))
  }

  lemma {:induction false} WalkImproves(data: seq<u8>, p: nat, y: int, depth: nat, bestLen: nat, best: LzMatch,
                                        maxLen: nat, niceLen: nat)
    requires p + maxLen <= |data| && y < p && Improves(data, p, bestLen, maxLen, best)
    ensures Improves(data, p, bestLen, maxLen, Walk(data, p, y, depth, best, maxLen, niceLen))
    decreases depth
  {
    hide Agree, Common, TrueMatch, Better, Key, Latest;
    if depth > 0 && InReach(y, p) {
      var k := Common(data, y, p, maxLen);
      CommonTrue(data, p, y, maxLen, k);
      WalkImproves(data, p, Latest(data, Four, Key(data, Four, p), y), depth - 1, bestLen,
                   Better(best, k, p - y), maxLen, niceLen);
    }
  }

  /** A search finds nothing, or a true match in the window that is longer than bestLen. */
  lemma SearchedTrue(data: seq<u8>, p: nat, bestLen: nat, maxLen: nat, niceLen: nat, depth: nat)
    requires p + maxLen <= |data|
    ensures Improves(data, p, bestLen, maxLen, Searched(data, p, bestLen, maxLen, niceLen, depth))
  {
    hide Agree, Common, TrueMatch, Walk;
    var y3 := Latest(data, Three, Key(data, Three, p), p);
    var y4 := Latest(data, Four, Key(data, Four, p), p);
    WalkImproves(data, p, y4, depth, bestLen, LzMatch(bestLen, 0), maxLen, niceLen);
    if maxLen >= 5 && bestLen < 4 && InReach(y3, p) {
      if Common(data, y3, p, maxLen) >= 3 {
        CommonTrue(data, p, y3, maxLen, 3);
      }
      WalkImproves(data, p, y4, depth, bestLen, OfThree(data, p, y3, bestLen, maxLen), maxLen, niceLen);
    }
  }

  // ---- a search that is deep enough misses nothing

  lemma {:induction false} ListedBack(data: seq<u8>, h: nat, lo: nat, n: nat)
    ensures Listed(data, Four, h, lo, n) == Listed(data, Four, h, lo, Latest(data, Four, h, n) + 1)
    decreases n
  {
    hide Key;
    if n > lo && Key(data, Four, n - 1) != h {
      ListedBack(data, h, lo, n - 1);
    }
  }

  lemma ListedDown(data: seq<u8>, h: nat, lo: nat, y: nat)
    requires lo <= y && Key(data, Four, y) == h
    ensures Listed(data, Four, h, lo, y + 1) == 1 + Listed(data, Four, h, lo, Latest(data, Four, h, y) + 1)
  {
    hide Key, Latest;
    ListedBack(data, h, lo, y);
  }

  /** Nothing at z is longer than the match, or what is as long is farther away. */
  ghost predicate Beats(data: seq<u8>, p: nat, m: LzMatch, z: nat, maxLen: nat)
    requires z < p && p + maxLen <= |data|
  {
    var k := Common(data, z, p, maxLen);
    k < 4 || k < m.length || (k == m.length && m.offset <= p - z)
  }

  lemma {:induction false} WalkGrows(data: seq<u8>, p: nat, y: int, depth: nat, best: LzMatch, maxLen: nat,
                                     niceLen: nat)
    requires p + maxLen <= |data| && y < p
    ensures var m := Walk(data, p, y, depth, best, maxLen, niceLen); m == best || m.length > best.length
    decreases depth
  {
    hide Common, Agree, Better, Key, Latest;
    if depth > 0 && InReach(y, p) {
      var best' := Better(best, Common(data, y, p, maxLen), p - y);
      WalkGrows(data, p, Latest(data, Four, Key(data, Four, p), y), depth - 1, best', maxLen, niceLen);
    }
  }

  /** A walk over the whole list beats every position on it, or has found a match of niceLen bytes. */
  lemma {:induction false} WalkMissesNothing(data: seq<u8>, p: nat, y: int, depth: nat, best: LzMatch, maxLen: nat,
                                             niceLen: nat, z: nat)
    requires p + maxLen <= |data| && y < p && z <= y && InReach(z, p)
    requires Key(data, Four, z) == Key(data, Four, p) && Key(data, Four, y) == Key(data, Four, p)
    requires depth >= Listed(data, Four, Key(data, Four, p), Lowest(p), y + 1)
    requires best.length >= 4 ==> best.offset <= p - y
    ensures var m := Walk(data, p, y, depth, best, maxLen, niceLen);
      (m != best && m.length >= niceLen) || Beats(data, p, m, z, maxLen)
    decreases depth
  {
    hide Common, Agree, Key, Latest, Better;
    var h := Key(data, Four, p);
    var k := Common(data, y, p, maxLen);
    var best' := Better(best, k, p - y);
    var y' := Latest(data, Four, h, y);
    ListedDown(data, h, Lowest(p), y);
    hide Listed;
    if best' == best || k < niceLen {
      WalkGrows(data, p, y', depth - 1, best', maxLen, niceLen);
      if z < y {
        WalkMissesNothing(data, p, y', depth - 1, best', maxLen, niceLen, z);
      }
    }
  }

  /** The first position of the input goes where the initial hashes say: it is in the lists of p if that is where
      p goes. */
  ghost predicate InLists(data: seq<u8>, y: nat, p: nat) {
    y > 0 || (Key(data, Three, p) == 0 && Key(data, Four, p) == 0)
  }

  /** Where four bytes are equal the hashes are, but for the first position. */
  lemma SameKeys(data: seq<u8>, y: nat, p: nat, maxLen: nat)
    requires y < p && p + maxLen <= |data| && maxLen >= 4 && Common(data, y, p, maxLen) >= 4 && InLists(data, y, p)
    ensures Key(data, Three, y) == Key(data, Three, p) && Key(data, Four, y) == Key(data, Four, p)
  {
    if y > 0 {
      SameHashes(data, y, p, maxLen);
    }
  }

  lemma SameHashes(data: seq<u8>, y: nat, p: nat, maxLen: nat)
    requires 0 < y < p && p + maxLen <= |data| && maxLen >= 4 && Common(data, y, p, maxLen) >= 4
    ensures forall kind :: Key(data, kind, y) == Key(data, kind, p)
  {
    hide LzHash, Common;
    AgreeShorter(data, y, p, Common(data, y, p, maxLen), 4);
    assert data[y..y + 4] == data[p..p + 4];
  }

  /** A search that is deep enough for the list finds the longest and then nearest match of at least four bytes in
      the window, unless it stops at one of niceLen bytes. */
  lemma LongestInWindow(data: seq<u8>, p: nat, bestLen: nat, maxLen: nat, niceLen: nat, depth: nat, z: nat)
    requires p + maxLen <= |data| && maxLen >= 5 && (bestLen < 4 || bestLen < niceLen)
    requires z < p && InReach(z, p) && InLists(data, z, p)
    requires depth >= Listed(data, Four, Key(data, Four, p), Lowest(p), p)
    ensures var m := Searched(data, p, bestLen, maxLen, niceLen, depth);
      m.length >= niceLen || Beats(data, p, m, z, maxLen)
  {
    hide Common, Agree, Walk, Key, Latest, Listed;
    if Common(data, z, p, maxLen) >= 4 {
      SameKeys(data, z, p, maxLen);
      var y3 := Latest(data, Three, Key(data, Three, p), p);
      var y4 := Latest(data, Four, Key(data, Four, p), p);
      ListedBack(data, Key(data, Four, p), Lowest(p), p);
      assert z <= y3 && z <= y4;
      var best := if bestLen < 4 then OfThree(data, p, y3, bestLen, maxLen) else LzMatch(bestLen, 0);
      WalkMissesNothing(data, p, y4, depth, best, maxLen, niceLen, z);
    }
  }

  // ---- matches of three bytes

  /** If three bytes are worth having, the last position with their hash gives them, or there is a longer match; and
      no other position gives a match of three bytes. */
  lemma ThreeBytes(data: seq<u8>, p: nat, bestLen: nat, maxLen: nat, niceLen: nat, depth: nat, y: nat)
    requires p + maxLen <= |data| && maxLen >= 5 && bestLen < 3 && LastAlike(data, Three, p, p, y) && InReach(y, p)
    ensures var m := Searched(data, p, bestLen, maxLen, niceLen, depth);
      && (Common(data, y, p, maxLen) >= 3 ==> m.length > 3 || m == LzMatch(3, p - y))
      && (m.length == 3 ==> m.offset == p - y)
  {
    hide Common, Agree, Walk, Key, LastAlike, Latest;
    LatestIs(data, Three, p, p, y);
    WalkGrows(data, p, Latest(data, Four, Key(data, Four, p), p), depth, OfThree(data, p, y, bestLen, maxLen), maxLen,
              niceLen);
    WalkFour(data, p, Latest(data, Four, Key(data, Four, p), p), depth, OfThree(data, p, y, bestLen, maxLen), maxLen,
             niceLen);
  }

  lemma {:induction false} WalkFour(data: seq<u8>, p: nat, y: int, depth: nat, best: LzMatch, maxLen: nat,
                                    niceLen: nat)
    requires p + maxLen <= |data| && y < p
    ensures var m := Walk(data, p, y, depth, best, maxLen, niceLen); m == best || m.length >= 4
    decreases depth
  {
    hide Common, Agree, Key, Latest;
    if depth > 0 && InReach(y, p) {
      var best' := Better(best, Common(data, y, p, maxLen), p - y);
      WalkFour(data, p, Latest(data, Four, Key(data, Four, p), y), depth - 1, best', maxLen, niceLen);
    }
  }

  // ---- the first position

  lemma {:induction false} WalkInList(data: seq<u8>, p: nat, y: int, depth: nat, best: LzMatch, maxLen: nat,
                                      niceLen: nat)
    requires p + maxLen <= |data| && y < p && (y >= 0 ==> Key(data, Four, y) == Key(data, Four, p))
    ensures var m := Walk(data, p, y, depth, best, maxLen, niceLen);
      m == best || (m.length >= 4 && m.offset <= p && Key(data, Four, p - m.offset) == Key(data, Four, p))
    decreases depth
  {
    hide Common, Agree, Key, Latest;
    if depth > 0 && InReach(y, p) {
      var best' := Better(best, Common(data, y, p, maxLen), p - y);
      WalkInList(data, p, Latest(data, Four, Key(data, Four, p), y), depth - 1, best', maxLen, niceLen);
    }
  }

  /** The first position is found only by positions whose hash is the initial one, whatever it has in common with
      them. */
  lemma FirstFound(data: seq<u8>, p: nat, bestLen: nat, maxLen: nat, niceLen: nat, depth: nat)
    requires 0 < p && p + maxLen <= |data|
    ensures var m := Searched(data, p, bestLen, maxLen, niceLen, depth);
      m.offset == p ==> Key(data, if m.length == 3 then Three else Four, p) == 0
  {
    hide Common, Agree, Walk, Latest;
    var y3 := Latest(data, Three, Key(data, Three, p), p);
    var y4 := Latest(data, Four, Key(data, Four, p), p);
    WalkInList(data, p, y4, depth, LzMatch(bestLen, 0), maxLen, niceLen);
    if maxLen >= 5 && bestLen < 4 && InReach(y3, p) {
      WalkInList(data, p, y4, depth, OfThree(data, p, y3, bestLen, maxLen), maxLen, niceLen);
    }
  }

  lemma FourEqual(data: seq<u8>, i: nat, b: u8)
    requires i + 4 <= |data| && forall j :: i <= j < i + 4 ==> data[j] == b
    ensures Le32(data, i) == 0x101_0101 * b
  {
    var w := data[i..i + 4];
    var x, y, z := w[1..], w[2..], w[3..];
    assert x[1..] == y && y[1..] == z && z[1..] == [];
    assert w[0] == b && x[0] == b && y[0] == b && z[0] == b;
    assert Value(z) == z[0] + 256 * Value(z[1..]);
    assert Value(y) == y[0] + 256 * Value(y[1..]);
    assert Value(x) == x[0] + 256 * Value(x[1..]);
    assert Value(w) == w[0] + 256 * Value(x);
  }

  lemma HashNotZero(v: nat, bits: nat, product: nat)
    requires bits <= 32 && product == v * 0x1E35A7BD % 0x1_0000_0000 && product >= Pow2(32 - bits)
    ensures LzHash(v, bits) > 0
  {
    hide Pow2, Shr;
    WordValues();
    ShrBounds(product, bits, 32 - bits);
  }

  function Equals(): (data: seq<u8>)
    ensures |data| == 9 && forall i :: 0 <= i < 9 ==> data[i] == 97
  {
    seq(9, _ => 97)
  }

  lemma EqualsHashed()
    ensures Key(Equals(), Three, 1) > 0 && Key(Equals(), Four, 1) > 0
  {
    hide LzHash;
    assert Pow2(8) == 256 && Pow2(16) == 0x1_0000 && Pow2(17) == 0x2_0000;
    FourEqual(Equals(), 1, 97);
    assert 0x6161_6161 * 0x1E35A7BD % 0x1_0000_0000 == 4068486045;
    assert 0x61_6161 * 0x1E35A7BD % 0x1_0000_0000 == 1434463133;
    HashNotZero(0x6161_6161, HASH4_ORDER, 4068486045);
    HashNotZero(0x61_6161, HASH3_ORDER, 1434463133);
  }

  /** Nine equal bytes: the first has eight in common with the second and is not found there. */
  lemma FirstMissed(bestLen: nat, niceLen: nat, depth: nat)
    ensures Common(Equals(), 0, 1, 8) == 8
    ensures Searched(Equals(), 1, bestLen, 8, niceLen, depth) == LzMatch(bestLen, 0)
  {
    hide Common;
    CommonIs(Equals(), 0, 1, 8, 8) by {
      assert Equals()[0..8] == Equals()[1..9];
    }
    hide Key, Equals;
    EqualsHashed();
  }
}
