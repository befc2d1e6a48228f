/** The hash chains matchfinder: linked lists of the positions with the same hash. */
module HcMatchfinder {
  import opened Arith
  import opened BitBuffer
  import opened MatchCommon
  import opened HashTables
  import opened HcChains
  import opened HtMatchfinder

  class HcMatchfinder {
    const wordBytes: nat
    const fast: bool
    const hash3: array<Pos>
    const hash4: array<Pos>
    /** The link of each position to the one before it in its list. */
    const next: array<Pos>
    var base: nat
    var nextHash3: nat
    var nextHash4: nat
    /** All positions below are inserted, no others. */
    ghost var inserted: nat

    ghost predicate Shape()
      reads this
    {
      && (wordBytes == 4 || wordBytes == 8)
      && hash3 != hash4 && hash3 != next && hash4 != next
      && hash3.Length == Pow2(HASH3_ORDER) && hash4.Length == Pow2(HASH4_ORDER) && next.Length == WINDOW_SIZE
      && nextHash3 < hash3.Length && nextHash4 < hash4.Length
    }

    /** The tables are determined by the input, by how much of it is inserted, and by the base. */
    ghost predicate Valid(data: seq<u8>)
      reads this, hash3, hash4, next
    {
      && Shape() && inserted <= base + WINDOW_SIZE
      && Heads(data, Three, base, inserted, hash3[..]) && Heads(data, Four, base, inserted, hash4[..])
      && Links(data, base, inserted, next[..])
      && (inserted + 4 <= |data| ==>
            nextHash3 == Key(data, Three, inserted) && nextHash4 == Key(data, Four, inserted))
    }

    /** Everything before p is inserted. */
    ghost predicate At(p: nat)
      reads this
    {
      inserted == p && base <= p <= base + WINDOW_SIZE
    }

    /** As long as a search is possible, everything before p is inserted. */
    ghost predicate Ready(data: seq<u8>, p: nat)
      reads this
    {
      p + REQUIRED_NBYTES <= |data| ==> At(p)
    }

    constructor (ghost data: seq<u8>, wordBytes: nat, fast: bool)
      requires wordBytes == 4 || wordBytes == 8
      ensures Valid(data) && At(0) && fresh(hash3) && fresh(hash4) && fresh(next)
    {
      this.wordBytes, this.fast := wordBytes, fast;
      hash3 := new Pos[Pow2(HASH3_ORDER)](_ => DEAD);
      hash4 := new Pos[Pow2(HASH4_ORDER)](_ => DEAD);
      next := new Pos[WINDOW_SIZE];
      base, nextHash3, nextHash4, inserted := 0, 0, 0, 0;
    }

    method SlideWindow(ghost data: seq<u8>)
      requires Valid(data)
      modifies this`base, hash3, hash4, next
      ensures Valid(data) && base == old(base) + WINDOW_SIZE
    {
      hide Heads, Links, Key;
      Rebase(hash3);
      Rebase(hash4);
      Rebase(next);
      HeadsSlide(data, Three, base, inserted, old(hash3[..]), hash3[..]);
      HeadsSlide(data, Four, base, inserted, old(hash4[..]), hash4[..]);
      LinksSlide(data, base, inserted, old(next[..]), next[..]);
      base := base + WINDOW_SIZE;
    }

    /** The position before y in its list. */
    method Follow(data: seq<u8>, e: Pos, ghost p: nat, ghost y: nat) returns (e': Pos)
      requires Valid(data) && At(p + 1) && base <= p < base + WINDOW_SIZE && InReach(y, p) && y < p
      requires e == y - base && Key(data, Four, y) == Key(data, Four, p)
      ensures e' == Entry(Latest(data, Four, Key(data, Four, p), y), base)
    {
      hide Heads, Key, Latest, Entry;
      e' := next[Slot(e)];
      assert next[..][Slot(e)] == e';
      assert base + e == y;
    }

    /** Puts p into its lists; the results are the lists as they were. */
    method Insert(data: seq<u8>, p: nat, newHash3: nat, newHash4: nat) returns (node3: Pos, node4: Pos)
      requires Valid(data) && At(p) && p < base + WINDOW_SIZE && p + REQUIRED_NBYTES <= |data|
      requires newHash3 == Key(data, Three, p + 1) && newHash4 == Key(data, Four, p + 1)
      modifies this`inserted, this`nextHash3, this`nextHash4, hash3, hash4, next
      ensures Valid(data) && At(p + 1) && base == old(base)
      ensures node3 == Entry(Latest(data, Three, Key(data, Three, p), p), base)
      ensures node4 == Entry(Latest(data, Four, Key(data, Four, p), p), base)
    {
      hide Heads, Links, Key, Latest, Entry;
      HeadAt(data, Three, base, p, hash3[..]);
      HeadAt(data, Four, base, p, hash4[..]);
      HeadsMore(data, Three, base, p, hash3[..]);
      HeadsMore(data, Four, base, p, hash4[..]);
      LinksMore(data, base, p, next[..]);
      node3, node4 := hash3[nextHash3], hash4[nextHash4];
      assert node3 == hash3[..][nextHash3] && node4 == hash4[..][nextHash4];
      ghost var h3, h4, nx := hash3[..], hash4[..], next[..];
      var e: Pos := p - base;
      hash3[nextHash3] := e;
      hash4[nextHash4] := e;
      next[e] := node4;
      assert hash3[..] == h3[nextHash3 := e] && hash4[..] == h4[nextHash4 := e] && next[..] == nx[e := node4];
      nextHash3, nextHash4 := newHash3, newHash4;
      inserted := p + 1;
    }

    /** Finds the longest match at p that is longer than bestLen0, and inserts p. */
    method LongestMatch(data: seq<u8>, p: nat, bestLen0: nat, maxLen: nat, niceLen: nat, depth: nat)
      returns (length: nat, offset: nat)
      requires Valid(data) && Ready(data, p) && inserted <= p && base <= p
      requires p + maxLen <= |data| && niceLen <= maxLen && depth >= 1
      requires p + REQUIRED_NBYTES <= |data| ==> REQUIRED_NBYTES <= maxLen
      modifies this, hash3, hash4, next
      ensures Valid(data) && Ready(data, p + 1) && inserted <= p + 1 && base <= p + 1
      ensures LzMatch(length, offset) == Searched(data, p, bestLen0, maxLen, niceLen, depth)
    {
      hide Heads, Links, Walk, Common;
      length, offset := bestLen0, 0;
      if p - base == WINDOW_SIZE {
        SlideWindow(data);
      }
      if maxLen < 5 {
        return;
      }
      var v := Le32(data, p + 1);
      assert Order(Three) == HASH3_ORDER && Order(Four) == HASH4_ORDER;
      var node3, node4 := Insert(data, p, LzHash(v % 0x100_0000, HASH3_ORDER), LzHash(v, HASH4_ORDER));
      length, offset := Search(data, p, node3, node4, bestLen0, maxLen, niceLen, depth);
    }

    /** Searches the lists of p. */
    method Search(data: seq<u8>, p: nat, node3: Pos, node4: Pos, bestLen0: nat, maxLen: nat, niceLen: nat, depth0: nat)
      returns (length: nat, offset: nat)
      requires Valid(data) && At(p + 1) && p < base + WINDOW_SIZE && base <= p
      requires node3 == Entry(Latest(data, Three, Key(data, Three, p), p), base)
      requires node4 == Entry(Latest(data, Four, Key(data, Four, p), p), base)
      requires 5 <= maxLen && p + maxLen <= |data| && niceLen <= maxLen && depth0 >= 1
      ensures LzMatch(length, offset) == Searched(data, p, bestLen0, maxLen, niceLen, depth0)
    {
      hide Agree, Common, Heads, Links, Key, Latest, Entry, Walk;
      ghost var y3 := Latest(data, Three, Key(data, Three, p), p);
      ghost var y: int := Latest(data, Four, Key(data, Four, p), p);
      EntryReach(y3, base, p);
      EntryReach(y, base, p);
      length, offset := bestLen0, 0;
      var cutoff := p - base - WINDOW_SIZE;
      var node, depth := node4, depth0;
      if length < 4 {
        if node3 <= cutoff {
          return;
        }
        if length < 3 {
          length, offset := MatchThree(data, p, base + node3, length, maxLen);
        }
        length, offset := SearchFour(data, p, node4, y, depth, maxLen, niceLen, length, offset);
      } else if node <= cutoff || length >= niceLen {
        WalkEnds(data, p, y, depth, LzMatch(length, offset), maxLen, niceLen);
      } else {
        length, offset := FindLonger(data, p, node, y, depth, length, offset, maxLen, niceLen);
      }
    }

    /** Searches from the first match of at least four bytes. */
    method SearchFour(data: seq<u8>, p: nat, node0: Pos, ghost y0: int, depth0: nat, maxLen: nat, niceLen: nat,
                      length0: nat, offset0: nat)
      returns (length: nat, offset: nat)
      requires Valid(data) && At(p + 1) && base <= p < base + WINDOW_SIZE && depth0 >= 1
      requires y0 < p && node0 == Entry(y0, base) && (y0 >= 0 ==> Key(data, Four, y0) == Key(data, Four, p))
      requires 5 <= maxLen && p + maxLen <= |data| && niceLen <= maxLen && length0 < 4
      ensures LzMatch(length, offset) == Walk(data, p, y0, depth0, LzMatch(length0, offset0), maxLen, niceLen)
    {
      hide Agree, Common, Heads, Links, Key, Latest, Entry, Walk;
      length, offset := length0, offset0;
      var found, node, depth;
      ghost var y;
      found, node, depth, y := FindFour(data, p, node0, y0, depth0, length0, offset0, maxLen, niceLen);
      if !found {
        return;
      }
      length, offset := Extend(data, p, base + node, 4, maxLen);
      WalkFinds(data, p, y, depth, LzMatch(length0, offset0), maxLen, niceLen);
      if length >= niceLen {
        return;
      }
      node := Follow(data, node, p, y);
      y, depth := Latest(data, Four, Key(data, Four, p), y), depth - 1;
      EntryReach(y, base, p);
      if node <= p - base - WINDOW_SIZE || depth == 0 {
        WalkEnds(data, p, y, depth, LzMatch(length, offset), maxLen, niceLen);
        return;
      }
      length, offset := FindLonger(data, p, node, y, depth, length, offset, maxLen, niceLen);
    }

    /** A match of three bytes, if there is one at m. */
    method MatchThree(data: seq<u8>, p: nat, m: nat, length0: nat, ghost maxLen: nat) returns (length: nat, offset: nat)
      requires m < p && InReach(m, p) && 3 <= maxLen && p + maxLen <= |data| && length0 < 3
      ensures LzMatch(length, offset) == OfThree(data, p, m, length0, maxLen)
    {
      length, offset := length0, 0;
      CommonAtLeast(data, m, p, maxLen, 3);
      if data[m..m + 3] == data[p..p + 3] {
        length, offset := 3, p - m;
      }
    }

    /** The first node of the list at which four bytes match. */
    method FindFour(data: seq<u8>, p: nat, node0: Pos, ghost y0: int, depth0: nat, ghost length: nat,
                    ghost offset: nat, ghost maxLen: nat, ghost niceLen: nat)
      returns (found: bool, node: Pos, depth: nat, ghost y: int)
      requires Valid(data) && At(p + 1) && base <= p < base + WINDOW_SIZE && depth0 >= 1 && length < 4
      requires y0 < p && node0 == Entry(y0, base) && (y0 >= 0 ==> Key(data, Four, y0) == Key(data, Four, p))
      requires 5 <= maxLen && p + maxLen <= |data|
      ensures y < p && Walk(data, p, y0, depth0, LzMatch(length, offset), maxLen, niceLen) ==
                       if found then Walk(data, p, y, depth, LzMatch(length, offset), maxLen, niceLen)
                       else LzMatch(length, offset)
      ensures found ==>
        && InReach(y, p) && node == y - base && Key(data, Four, y) == Key(data, Four, p) && depth >= 1
        && data[y..y + 4] == data[p..p + 4]
    {
      hide Agree, Common, Heads, Links, Key, Latest, Entry, Walk;
      ghost var best := LzMatch(length, offset);
      var cutoff := p - base - WINDOW_SIZE;
      node, depth, found, y := node0, depth0, false, y0;
      EntryReach(y, base, p);
      if node <= cutoff {
        WalkEnds(data, p, y, depth, best, maxLen, niceLen);
        return;
      }
      while data[base + node..base + node + 4] != data[p..p + 4]
        invariant y < p && InReach(y, p) && node == y - base && depth >= 1
        invariant Key(data, Four, y) == Key(data, Four, p)
        invariant Walk(data, p, y0, depth0, best, maxLen, niceLen) == Walk(data, p, y, depth, best, maxLen, niceLen)
        decreases depth
      {
        CommonAtLeast(data, y, p, maxLen, 4);
        WalkPasses(data, p, y, depth, best, maxLen, niceLen);
        node := Follow(data, node, p, y);
        y, depth := Latest(data, Four, Key(data, Four, p), y), depth - 1;
        EntryReach(y, base, p);
        if node <= cutoff || depth == 0 {
          WalkEnds(data, p, y, depth, best, maxLen, niceLen);
          return;
        }
      }
      found := true;
    }

    /** Whether the match at m could be longer than `length`: a cheap test before comparing. */
    predicate MayBeLonger(data: seq<u8>, p: nat, m: nat, length: nat)
      requires 4 <= length && p + length < |data| && m <= p
    {
      if fast then
        && data[m + length - 3..m + length + 1] == data[p + length - 3..p + length + 1]
        && data[m..m + 4] == data[p..p + 4]
      else
        data[m + length] == data[p + length]
    }

    /** The test lets every longer match through. */
    lemma LongerPasses(data: seq<u8>, p: nat, m: nat, length: nat, maxLen: nat)
      requires 4 <= length < maxLen && p + maxLen <= |data| && m <= p && !MayBeLonger(data, p, m, length)
      ensures Common(data, m, p, maxLen) <= length
    {
      hide Common, Agree;
      var k := Common(data, m, p, maxLen);
      if k > length {
        AgreeInside(data, m, p, k, length - 3, length + 1);
        AgreeInside(data, m, p, k, 0, 4);
        AgreeAt(data, m, p, k, length);
      }
    }

    /** Looks for longer and longer matches along the list. */
    method FindLonger(data: seq<u8>, p: nat, node0: Pos, ghost y0: int, depth0: nat, length0: nat, offset0: nat,
                      maxLen: nat, niceLen: nat)
      returns (length: nat, offset: nat)
      requires Valid(data) && At(p + 1) && base <= p < base + WINDOW_SIZE && depth0 >= 1
      requires y0 < p && InReach(y0, p) && node0 == y0 - base && Key(data, Four, y0) == Key(data, Four, p)
      requires 5 <= maxLen && p + maxLen <= |data| && 4 <= length0 < niceLen <= maxLen
      ensures LzMatch(length, offset) == Walk(data, p, y0, depth0, LzMatch(length0, offset0), maxLen, niceLen)
    {
      hide Agree, Common, Heads, Links, Key, Latest, Entry, Walk, MayBeLonger;
      var cutoff := p - base - WINDOW_SIZE;
      var node, depth := node0, depth0;
      ghost var y := y0;
      length, offset := length0, offset0;
      ghost var goal := Walk(data, p, y0, depth0, LzMatch(length0, offset0), maxLen, niceLen);
      while true
        invariant y < p && InReach(y, p) && node == y - base && depth >= 1 && 4 <= length < niceLen
        invariant Key(data, Four, y) == Key(data, Four, p)
        invariant goal == Walk(data, p, y, depth, LzMatch(length, offset), maxLen, niceLen)
        decreases depth
      {
        var done;
        done, length, offset := TryNode(data, p, base + node, depth, length, offset, maxLen, niceLen);
        if done {
          return;
        }
        node := Follow(data, node, p, y);
        y, depth := Latest(data, Four, Key(data, Four, p), y), depth - 1;
        EntryReach(y, base, p);
        if node <= cutoff || depth == 0 {
          WalkEnds(data, p, y, depth, LzMatch(length, offset), maxLen, niceLen);
          return;
        }
      }
    }

    /** Compares with one node; `done` if there is a match of niceLen bytes. */
    method TryNode(data: seq<u8>, p: nat, m: nat, ghost depth: nat, length0: nat, offset0: nat, maxLen: nat,
                   niceLen: nat)
      returns (done: bool, length: nat, offset: nat)
      requires (wordBytes == 4 || wordBytes == 8) && m < p && InReach(m, p) && depth >= 1
      requires 5 <= maxLen && p + maxLen <= |data| && 4 <= length0 < niceLen <= maxLen
      ensures Walk(data, p, m, depth, LzMatch(length0, offset0), maxLen, niceLen) ==
              if done then LzMatch(length, offset)
              else Walk(data, p, Latest(data, Four, Key(data, Four, p), m), depth - 1, LzMatch(length, offset),
                        maxLen, niceLen)
      ensures 4 <= length && (!done ==> length < niceLen)
    {
      hide Agree, Common, Key, Latest, Walk, MayBeLonger;
      done, length, offset := false, length0, offset0;
      if MayBeLonger(data, p, m, length) {
        MayStart(data, p, m, length);
        var len, off := Extend(data, p, m, if fast then 4 else 0, maxLen);
        if len > length {
          WalkFinds(data, p, m, depth, LzMatch(length, offset), maxLen, niceLen);
          length, offset := len, off;
          done := length >= niceLen;
          return;
        }
      } else {
        LongerPasses(data, p, m, length, maxLen);
      }
      WalkPasses(data, p, m, depth, LzMatch(length, offset), maxLen, niceLen);
    }

    lemma MayStart(data: seq<u8>, p: nat, m: nat, length: nat)
      requires 4 <= length && p + length < |data| && m <= p && MayBeLonger(data, p, m, length)
      ensures var start := if fast then 4 else 0; data[m..m + start] == data[p..p + start]
    {
    }

    /** The whole match at m, given that the first `start` bytes are equal. */
    method Extend(data: seq<u8>, p: nat, m: nat, start: nat, maxLen: nat) returns (length: nat, offset: nat)
      requires (wordBytes == 4 || wordBytes == 8) && m < p && start <= maxLen && p + maxLen <= |data|
      requires data[m..m + start] == data[p..p + start]
      ensures length == Common(data, m, p, maxLen) >= start && offset == p - m
    {
      hide Agree, Common;
      AgreeStart(data, p, m, start);
      length := LzExtend(data, p, m, start, maxLen, wordBytes, fast);
      LongestIsCommon(data, p, m, length, maxLen);
      offset := p - m;
    }

    /** Inserts `count` positions without searching; near the end of the input nothing is inserted. */
    method SkipBytes(data: seq<u8>, p: nat, count: nat)
      requires Valid(data) && Ready(data, p) && inserted <= p && base <= p && 0 < count && p + count <= |data|
      modifies this, hash3, hash4, next
      ensures Valid(data) && Ready(data, p + count) && inserted <= p + count && base <= p + count
    {
      hide Heads, Links;
      if count + REQUIRED_NBYTES > |data| - p {
        return;
      }
      var cur := p;
      while cur < p + count
        invariant p <= cur <= p + count && Valid(data) && At(cur)
      {
        if cur - base == WINDOW_SIZE {
          SlideWindow(data);
        }
        var v := Le32(data, cur + 1);
        assert Order(Three) == HASH3_ORDER && Order(Four) == HASH4_ORDER;
        var node3, node4 := Insert(data, cur, LzHash(v % 0x100_0000, HASH3_ORDER), LzHash(v, HASH4_ORDER));
        cur := cur + 1;
      }
    }
  }

  lemma AgreeStart(data: seq<u8>, p: nat, m: nat, n: nat)
    requires m + n <= |data| && p + n <= |data| && data[m..m + n] == data[p..p + n]
    ensures Agree(data, p, m, n)
  {
  }

  // ---- one step of the walk

  lemma WalkEnds(data: seq<u8>, p: nat, y: int, depth: nat, best: LzMatch, maxLen: nat, niceLen: nat)
    requires p + maxLen <= |data| && y < p
    ensures depth == 0 || !InReach(y, p) ==> Walk(data, p, y, depth, best, maxLen, niceLen) == best
  {
  }

  lemma WalkFinds(data: seq<u8>, p: nat, y: nat, depth: nat, best: LzMatch, maxLen: nat, niceLen: nat)
    requires p + maxLen <= |data| && y < p && depth >= 1 && InReach(y, p)
    requires var k := Common(data, y, p, maxLen); k >= 4 && k > best.length
    ensures var m := LzMatch(Common(data, y, p, maxLen), p - y);
      Walk(data, p, y, depth, best, maxLen, niceLen) ==
        if m.length >= niceLen then m
        else Walk(data, p, Latest(data, Four, Key(data, Four, p), y), depth - 1, m, maxLen, niceLen)
  {
    hide Common, Key, Latest;
  }

  lemma WalkPasses(data: seq<u8>, p: nat, y: nat, depth: nat, best: LzMatch, maxLen: nat, niceLen: nat)
    requires p + maxLen <= |data| && y < p && depth >= 1 && InReach(y, p)
    requires var k := Common(data, y, p, maxLen); k < 4 || k <= best.length
    ensures Walk(data, p, y, depth, best, maxLen, niceLen)
      == Walk(data, p, Latest(data, Four, Key(data, Four, p), y), depth - 1, best, maxLen, niceLen)
  {
    hide Common, Key, Latest;
  }
}
