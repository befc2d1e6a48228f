/** The hash table matchfinder: two-way buckets, for the fastest compression. */
module HtMatchfinder {
  import opened Arith
  import opened BitBuffer
  import opened MatchCommon
  import opened HashTables

  const MIN_MATCH_LEN: nat := 4
  /** The bytes that must be left for a search. */
  const REQUIRED_NBYTES: nat := 5

  // ---- what the buckets hold, and what is found

  /** The second entries of the buckets: the last but one position, unless that is out of reach of n, when the entry is
      out of reach as well. */
  ghost predicate Seconds(data: seq<u8>, base: nat, n: nat, tab: seq<Pos>)
    requires n <= base + WINDOW_SIZE
  {
    && |tab| == Pow2(BUCKET_ORDER)
    && forall h :: 0 <= h < |tab| ==> SecondOk(data, base, n, h, tab[h])
  }

  ghost predicate SecondOk(data: seq<u8>, base: nat, n: nat, h: nat, e: Pos)
    requires n <= base + WINDOW_SIZE
  {
    if InReach(Second(data, Bucket, h, n), n) then e == Entry(Second(data, Bucket, h, n), base)
    else Names(e, base, n) && (e == DEAD || base + e <= n - WINDOW_SIZE)
  }

  /** The better of the two candidates; the second one is asked only if the first has fewer than niceLen bytes. */
  ghost function TwoWay(data: seq<u8>, p: nat, y: int, z: int, maxLen: nat, niceLen: nat): LzMatch
    requires p + maxLen <= |data| && y < p && z < p
  {
    if !InReach(y, p) then LzMatch(0, 0)
    else
      var m := Better(LzMatch(0, 0), Common(data, y, p, maxLen), p - y);
      if !InReach(z, p) || (m.length > 0 && m.length >= niceLen) then m
      else Better(m, Common(data, z, p, maxLen), p - z)
  }

  lemma SecondsSlide(data: seq<u8>, base: nat, n: nat, tab: seq<Pos>, tab': seq<Pos>)
    requires n <= base + WINDOW_SIZE && Seconds(data, base, n, tab) && |tab'| == |tab|
    requires forall h :: 0 <= h < |tab| ==> tab'[h] == Slid(tab[h])
    ensures Seconds(data, base + WINDOW_SIZE, n, tab')
  {
    hide Second;
    forall h | 0 <= h < |tab| ensures SecondOk(data, base + WINDOW_SIZE, n, h, tab'[h]) {
      EntrySlides(Second(data, Bucket, h, n), base);
    }
  }

  /** The second entries after n has been inserted: that of its bucket is the former first one, or stays if that is
      out of reach. */
  lemma SecondsMore(data: seq<u8>, base: nat, n: nat, tab: seq<Pos>, e: Pos)
    requires n < base + WINDOW_SIZE && Seconds(data, base, n, tab)
    requires var h := Key(data, Bucket, n);
      var y := Latest(data, Bucket, h, n);
      h < |tab| && (e == Entry(y, base) || (!InReach(y, n) && e == tab[h]))
    ensures Seconds(data, base, n + 1, tab[Key(data, Bucket, n) := e])
  {
    hide Key, Second, SecondOk;
    var h := Key(data, Bucket, n);
    var tab' := tab[h := e];
    forall g | 0 <= g < |tab| ensures SecondOk(data, base, n + 1, g, tab'[g]) {
      if g == h {
        SecondNew(data, base, n, e, tab[h]);
      } else {
        SecondKept(data, base, n, g, tab[g]);
      }
    }
  }

  lemma SecondKept(data: seq<u8>, base: nat, n: nat, h: nat, e: Pos)
    requires n < base + WINDOW_SIZE && SecondOk(data, base, n, h, e) && Key(data, Bucket, n) != h
    ensures SecondOk(data, base, n + 1, h, e)
  {
    hide Key;
  }

  lemma SecondNew(data: seq<u8>, base: nat, n: nat, e: Pos, former: Pos)
    requires n < base + WINDOW_SIZE && SecondOk(data, base, n, Key(data, Bucket, n), former)
    requires var y := Latest(data, Bucket, Key(data, Bucket, n), n);
      e == Entry(y, base) || (!InReach(y, n) && e == former)
    ensures SecondOk(data, base, n + 1, Key(data, Bucket, n), e)
  {
    hide Key;
  }

  /** What is found with the buckets of p. */
  ghost function TwoWayAt(data: seq<u8>, p: nat, maxLen: nat, niceLen: nat): LzMatch
    requires p + maxLen <= |data|
  {
    var h := Key(data, Bucket, p);
    TwoWay(data, p, Latest(data, Bucket, h, p), Second(data, Bucket, h, p), maxLen, niceLen)
  }

  /** A match that is found is true, in the window, and of at least four bytes. */
  lemma TwoWayTrue(data: seq<u8>, p: nat, maxLen: nat, niceLen: nat)
    requires p + maxLen <= |data|
    ensures var m := TwoWayAt(data, p, maxLen, niceLen);
      m == LzMatch(0, 0) || (MIN_MATCH_LEN <= m.length <= maxLen && TrueMatch(data, p, m.length, m.offset))
  {
    hide Agree, Common, TrueMatch, Latest, Key, Second, Better;
    var h := Key(data, Bucket, p);
    var y, z := Latest(data, Bucket, h, p), Second(data, Bucket, h, p);
    if InReach(y, p) {
      CommonTrue(data, p, y, maxLen, Common(data, y, p, maxLen));
    }
    if InReach(z, p) {
      CommonTrue(data, p, z, maxLen, Common(data, z, p, maxLen));
    }
  }

  /** The match is no shorter than that with the last position of the same hash, and is this one if as long. */
  lemma TwoWayLast(data: seq<u8>, p: nat, maxLen: nat, niceLen: nat, y: nat)
    requires p + maxLen <= |data| && LastAlike(data, Bucket, p, p, y) && InReach(y, p)
    ensures var m, k := TwoWayAt(data, p, maxLen, niceLen), Common(data, y, p, maxLen);
      k >= MIN_MATCH_LEN ==> m.length >= k && (m.length == k ==> m.offset == p - y)
  {
    hide Common, Key, LastAlike, Latest;
    LatestIs(data, Bucket, p, p, y);
  }

  /** It is no shorter than that with the last but one, unless the last one gives niceLen bytes; it is that one only
      if it is longer. */
  lemma TwoWayLastButOne(data: seq<u8>, p: nat, maxLen: nat, niceLen: nat, y: nat, z: nat)
    requires p + maxLen <= |data| && LastAlike(data, Bucket, p, p, y) && LastAlike(data, Bucket, p, y, z)
    requires InReach(z, p)
    ensures var m, k, j := TwoWayAt(data, p, maxLen, niceLen), Common(data, y, p, maxLen), Common(data, z, p, maxLen);
      && (j >= MIN_MATCH_LEN && (k < MIN_MATCH_LEN || k < niceLen) ==> m.length >= j)
      && (m.offset == p - z ==> m.length == j && (k < MIN_MATCH_LEN || k < j))
  {
    hide Common, Key, LastAlike, Latest;
    LatestIs(data, Bucket, p, p, y);
    LatestIs(data, Bucket, p, y, z);
    assert y < p && z < y by {
      Nearer(data, Bucket, p, p, y);
      Nearer(data, Bucket, p, y, z);
    }
  }

  class HtMatchfinder {
    const wordBytes: nat
    const fast: bool
    const tab0: array<Pos>
    const tab1: array<Pos>
    /** What positions are relative to. */
    var base: nat
    var nextHash: nat
    /** All positions below are inserted, no others. */
    ghost var inserted: nat

    ghost predicate Shape()
      reads this
    {
      && (wordBytes == 4 || wordBytes == 8) && inserted <= base + WINDOW_SIZE
      && tab0 != tab1 && tab0.Length == Pow2(BUCKET_ORDER) == tab1.Length
    }

    /** The buckets are determined by the input, by how much of it is inserted, and by the base. */
    ghost predicate Valid(data: seq<u8>)
      reads this, tab0, tab1
    {
      && Shape() && nextHash < Pow2(BUCKET_ORDER)
      && Heads(data, Bucket, base, inserted, tab0[..]) && Seconds(data, base, inserted, tab1[..])
      && (inserted + 4 <= |data| ==> nextHash == Key(data, Bucket, inserted))
    }

    /** Everything before p is inserted. */
    ghost predicate At(p: nat)
      reads this
    {
      inserted == p && base <= p <= base + WINDOW_SIZE
    }

    constructor (ghost data: seq<u8>, wordBytes: nat, fast: bool)
      requires wordBytes == 4 || wordBytes == 8
      ensures Valid(data) && At(0) && fresh(tab0) && fresh(tab1)
    {
      this.wordBytes, this.fast := wordBytes, fast;
      tab0 := new Pos[Pow2(BUCKET_ORDER)](_ => DEAD);
      tab1 := new Pos[Pow2(BUCKET_ORDER)](_ => DEAD);
      base, nextHash, inserted := 0, 0, 0;
    }

    method SlideWindow(ghost data: seq<u8>)
      requires Valid(data)
      modifies this`base, tab0, tab1
      ensures Valid(data) && base == old(base) + WINDOW_SIZE
    {
      hide Heads, Seconds, Key;
      Rebase(tab0);
      Rebase(tab1);
      HeadsSlide(data, Bucket, base, inserted, old(tab0[..]), tab0[..]);
      SecondsSlide(data, base, inserted, old(tab1[..]), tab1[..]);
      base := base + WINDOW_SIZE;
    }

    /** Puts p into its bucket; the two candidates are what was there before. */
    method Insert(data: seq<u8>, p: nat) returns (first: Pos, second: Pos)
      requires Valid(data) && At(p) && p + REQUIRED_NBYTES <= |data|
      modifies this, tab0, tab1
      ensures Valid(data) && At(p + 1) && base <= p < base + WINDOW_SIZE
      ensures var h := Key(data, Bucket, p);
        && first == Entry(Latest(data, Bucket, h, p), base)
        && (InReach(Latest(data, Bucket, h, p), p) ==> SecondOk(data, base, p, h, second))
    {
      hide Valid, Key, Latest, Entry, SecondOk;
      if p - base == WINDOW_SIZE {
        SlideWindow(data);
      }
      first, second := InsertInside(data, p);
    }

    method InsertInside(data: seq<u8>, p: nat) returns (first: Pos, second: Pos)
      requires Valid(data) && At(p) && p + REQUIRED_NBYTES <= |data| && p < base + WINDOW_SIZE
      modifies this, tab0, tab1
      ensures Valid(data) && At(p + 1) && base == old(base)
      ensures var h := Key(data, Bucket, p);
        && first == Entry(Latest(data, Bucket, h, p), base)
        && (InReach(Latest(data, Bucket, h, p), p) ==> SecondOk(data, base, p, h, second))
    {
      hide Heads, Seconds, Key, Latest, Entry, Second, SecondOk;
      var hash := nextHash;
      assert Order(Bucket) == BUCKET_ORDER;
      nextHash := LzHash(Le32(data, p + 1), BUCKET_ORDER);
      NextKey(data, p + 1);
      HeadAt(data, Bucket, base, p, tab0[..]);
      HeadsMore(data, Bucket, base, p, tab0[..]);
      first, second := tab0[hash], DEAD;
      assert first == tab0[..][hash] && tab1[hash] == tab1[..][hash];
      EntryReach(Latest(data, Bucket, hash, p), base, p);
      SecondAt(data, base, p, tab1[..], hash);
      ghost var t0, t1 := tab0[..], tab1[..];
      ghost var former: Pos := if first > p - base - WINDOW_SIZE then first else tab1[hash];
      SecondsMore(data, base, p, t1, former);
      var e: Pos := p - base;
      tab0[hash] := e;
      assert tab0[..] == t0[hash := e];
      if first > p - base - WINDOW_SIZE {
        second := tab1[hash];
        tab1[hash] := first;
      }
      assert tab1[..] == t1[hash := former];
      inserted := p + 1;
    }

    /** The longest match at p among the two candidates, and 0 if there is none.  Inserts p. */
    method LongestMatch(data: seq<u8>, p: nat, maxLen: nat, niceLen: nat) returns (length: nat, offset: nat)
      requires Valid(data) && At(p)
      requires REQUIRED_NBYTES <= maxLen && p + maxLen <= |data| && niceLen <= maxLen
      modifies this, tab0, tab1
      ensures Valid(data) && At(p + 1)
      ensures LzMatch(length, offset) == TwoWayAt(data, p, maxLen, niceLen)
    {
      hide Agree, Common, Heads, Seconds, Key, Latest, Second, Entry, SecondOk, TwoWay;
      var first, second := Insert(data, p);
      ghost var h := Key(data, Bucket, p);
      ghost var y, z := Latest(data, Bucket, h, p), Second(data, Bucket, h, p);
      EntryReach(y, base, p);
      if first <= p - base - WINDOW_SIZE {
        NeitherWay(data, p, y, z, maxLen, niceLen);
        return 0, 0;
      }
      SecondReach(data, base, p, h, second);
      length, offset := BestOfTwo(data, p, first, second, y, z, maxLen, niceLen);
    }

    /** The better of two candidates, the first of which is in reach. */
    method BestOfTwo(data: seq<u8>, p: nat, first: Pos, second: Pos, ghost y: int, ghost z: int, maxLen: nat,
                     niceLen: nat)
      returns (length: nat, offset: nat)
      requires (wordBytes == 4 || wordBytes == 8) && base <= p < base + WINDOW_SIZE && y < p && z < p
      requires InReach(y, p) && base + first == y
      requires second <= p - base - WINDOW_SIZE <==> !InReach(z, p)
      requires InReach(z, p) ==> base + second == z
      requires REQUIRED_NBYTES <= maxLen && p + maxLen <= |data| && niceLen <= maxLen
      ensures LzMatch(length, offset) == TwoWay(data, p, y, z, maxLen, niceLen)
    {
      hide Agree, Common;
      var cutoff := p - base - WINDOW_SIZE;
      length, offset := TryOne(data, p, base + first, maxLen);
      if length > 0 {
        if second > cutoff && length < niceLen {
          length, offset := TrySecond(data, p, base + second, length, offset, maxLen);
        }
      } else if second > cutoff {
        length, offset := TryOne(data, p, base + second, maxLen);
      }
    }

    /** The match with a candidate, if it has four bytes or more. */
    method TryOne(data: seq<u8>, p: nat, m: nat, maxLen: nat) returns (length: nat, offset: nat)
      requires (wordBytes == 4 || wordBytes == 8) && m < p && 4 <= maxLen && p + maxLen <= |data|
      ensures LzMatch(length, offset) == Better(LzMatch(0, 0), Common(data, m, p, maxLen), p - m)
    {
      hide Agree, Common;
      length, offset := 0, 0;
      CommonAtLeast(data, m, p, maxLen, 4);
      if data[m..m + 4] == data[p..p + 4] {
        length, offset := Extend(data, p, m, maxLen);
      }
    }

    /** Compares with the second candidate; the bytes around the end of the match at hand come first. */
    method TrySecond(data: seq<u8>, p: nat, m: nat, length0: nat, offset0: nat, maxLen: nat)
      returns (length: nat, offset: nat)
      requires (wordBytes == 4 || wordBytes == 8) && m < p && 4 <= length0 < maxLen && p + maxLen <= |data|
      ensures LzMatch(length, offset) == Better(LzMatch(length0, offset0), Common(data, m, p, maxLen), p - m)
    {
      hide Agree, Common;
      length, offset := length0, offset0;
      CommonAtLeast(data, m, p, maxLen, 4);
      if data[m..m + 4] == data[p..p + 4] {
        if data[m + length - 3..m + length + 1] == data[p + length - 3..p + length + 1] {
          var len, off := Extend(data, p, m, maxLen);
          if len > length {
            length, offset := len, off;
          }
        } else {
          NotLonger(data, m, p, length, maxLen);
        }
      }
    }

    /** The whole match at m, given that the first four bytes are equal. */
    method Extend(data: seq<u8>, p: nat, m: nat, maxLen: nat) returns (length: nat, offset: nat)
      requires (wordBytes == 4 || wordBytes == 8) && m < p && 4 <= maxLen && p + maxLen <= |data|
      requires data[m..m + 4] == data[p..p + 4]
      ensures length == Common(data, m, p, maxLen) >= 4 && offset == p - m
    {
      hide Agree, Common;
      AgreeFour(data, p, m);
      length := LzExtend(data, p, m, 4, maxLen, wordBytes, fast);
      LongestIsCommon(data, p, m, length, maxLen);
      offset := p - m;
    }

    /** Inserts the positions from p to p + count without searching; near the end of the input nothing
        is inserted.  The window slides early, so that positions can be negative. */
    method SkipBytes(data: seq<u8>, p: nat, count: nat)
      requires Valid(data) && (p + REQUIRED_NBYTES <= |data| ==> At(p))
      requires 0 < count <= WINDOW_SIZE && p + count <= |data|
      modifies this, tab0, tab1
      ensures Valid(data) && (p + count + REQUIRED_NBYTES <= |data| ==> At(p + count))
    {
      hide Heads, Seconds, Key, Latest, Entry;
      if count + REQUIRED_NBYTES > |data| - p {
        return;
      }
      if p - base + count - 1 >= WINDOW_SIZE {
        SlideWindow(data);
      }
      var hash: nat, cur: nat := nextHash, p;
      assert Order(Bucket) == BUCKET_ORDER;
      while cur < p + count
        invariant p <= cur <= p + count && Shape() && inserted == cur && hash == Key(data, Bucket, cur)
        invariant Heads(data, Bucket, base, inserted, tab0[..]) && Seconds(data, base, inserted, tab1[..])
        invariant cur > base - WINDOW_SIZE
        invariant base == if p - old(base) + count - 1 >= WINDOW_SIZE then old(base) + WINDOW_SIZE else old(base)
      {
        Enter(data, hash, cur);
        NextKey(data, cur + 1);
        hash := LzHash(Le32(data, cur + 1), BUCKET_ORDER);
        cur := cur + 1;
      }
      nextHash := hash;
    }

    /** Puts cur into its bucket, in front of what was first there. */
    method Enter(data: seq<u8>, hash: nat, cur: nat)
      requires Shape() && inserted == cur && cur + REQUIRED_NBYTES <= |data| && hash == Key(data, Bucket, cur)
      requires Heads(data, Bucket, base, cur, tab0[..]) && Seconds(data, base, cur, tab1[..])
      requires base - WINDOW_SIZE < cur < base + WINDOW_SIZE
      modifies this`inserted, tab0, tab1
      ensures Shape() && inserted == cur + 1
      ensures Heads(data, Bucket, base, cur + 1, tab0[..]) && Seconds(data, base, cur + 1, tab1[..])
    {
      hide Heads, Seconds, Key, Latest, Entry;
      assert Order(Bucket) == BUCKET_ORDER;
      HeadAt(data, Bucket, base, cur, tab0[..]);
      HeadsMore(data, Bucket, base, cur, tab0[..]);
      SecondsMore(data, base, cur, tab1[..], tab0[hash]);
      ghost var t0, t1 := tab0[..], tab1[..];
      var e: Pos, former: Pos := cur - base, tab0[hash];
      tab1[hash] := former;
      tab0[hash] := e;
      assert tab0[..] == t0[hash := e] && tab1[..] == t1[hash := former];
      inserted := cur + 1;
    }
  }

  lemma NextKey(data: seq<u8>, x: nat)
    requires 0 < x && x + 4 <= |data|
    ensures Key(data, Bucket, x) == LzHash(Le32(data, x), BUCKET_ORDER)
  {
  }

  lemma NeitherWay(data: seq<u8>, p: nat, y: int, z: int, maxLen: nat, niceLen: nat)
    requires p + maxLen <= |data| && y < p && z < p && !InReach(y, p)
    ensures TwoWay(data, p, y, z, maxLen, niceLen) == LzMatch(0, 0)
  {
  }

  /** A second entry is behind the cutoff exactly if its position is out of reach. */
  lemma SecondReach(data: seq<u8>, base: nat, p: nat, h: nat, e: Pos)
    requires base <= p < base + WINDOW_SIZE && SecondOk(data, base, p, h, e)
    ensures e <= p - base - WINDOW_SIZE <==> !InReach(Second(data, Bucket, h, p), p)
    ensures InReach(Second(data, Bucket, h, p), p) ==> base + e == Second(data, Bucket, h, p)
  {
    hide Second;
    EntryReach(Second(data, Bucket, h, p), base, p);
  }

  lemma SecondAt(data: seq<u8>, base: nat, n: nat, tab: seq<Pos>, h: nat)
    requires n <= base + WINDOW_SIZE && Seconds(data, base, n, tab) && h < |tab|
    ensures SecondOk(data, base, n, h, tab[h])
  {
  }

  lemma AgreeFour(data: seq<u8>, p: nat, m: nat)
    requires m + 4 <= |data| && p + 4 <= |data| && data[m..m + 4] == data[p..p + 4]
    ensures Agree(data, p, m, 4)
  {
  }

  /** Different bytes around the end of a match leave no longer one. */
  lemma NotLonger(data: seq<u8>, m: nat, p: nat, length: nat, maxLen: nat)
    requires 3 <= length && m + length < |data| && p + length < |data| && p + maxLen <= |data| && m < p
    requires data[m + length - 3..m + length + 1] != data[p + length - 3..p + length + 1]
    ensures Common(data, m, p, maxLen) <= length
  {
    hide Common, Agree;
    var k := Common(data, m, p, maxLen);
    if k > length {
      AgreeInside(data, m, p, k, length - 3, length + 1);
    }
  }
}
