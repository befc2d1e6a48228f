/** What the greedy and the lazy parsers choose at a position, as functions of the input. */
module HcParse {
  import opened Arith
  import opened BitBuffer
  import opened Words
  import opened Slots
  import opened Items
  import opened MatchCommon
  import opened MatchLimits
  import opened HashTables
  import opened HcChains

  /** What the search at p finds that is longer than bestLen. */
  ghost function FoundAt(data: seq<u8>, p: nat, bestLen: nat, niceLen: nat, depth: nat): (m: LzMatch)
    requires p <= |data|
    ensures m == LzMatch(bestLen, 0)
      || (bestLen < m.length <= MAX_MATCH && 3 <= m.length && p + m.length <= |data| && m.offset > 0
          && TrueMatch(data, p, m.length, m.offset))
  {
    hide TrueMatch, Searched;
    var maxLen := AdjustMaxLen(|data| - p);
    SearchedTrue(data, p, bestLen, maxLen, NiceAt(data, p, niceLen), depth);
    TrueOffset(data, p, Searched(data, p, bestLen, maxLen, NiceAt(data, p, niceLen), depth));
    Searched(data, p, bestLen, maxLen, NiceAt(data, p, niceLen), depth)
  }

  lemma TrueOffset(data: seq<u8>, p: nat, m: LzMatch)
    ensures TrueMatch(data, p, m.length, m.offset) ==> 0 < m.offset < WINDOW_SIZE
  {
  }

  /** Limits that have been applied before make no difference. */
  lemma FoundLater(data: seq<u8>, at: nat, p: nat, bestLen: nat, niceLen: nat, depth: nat)
    requires at <= p <= |data|
    ensures NiceAt(data, p, NiceAt(data, at, niceLen)) == NiceAt(data, p, niceLen)
    ensures FoundAt(data, p, bestLen, NiceAt(data, at, niceLen), depth) == FoundAt(data, p, bestLen, niceLen, depth)
  {
    hide Searched;
  }

  // ---- the greedy parser

  ghost function GreedyChoice(data: seq<u8>, q: nat, minLen: nat, niceLen: nat, depth: nat): (it: Item)
    requires q < |data| && minLen >= 3
  {
    var m := FoundAt(data, q, minLen - 1, niceLen, depth);
    if m.length >= minLen && (m.length > MIN_MATCH || m.offset <= 4096) then Match(m.length, m.offset)
    else Literal(data[q])
  }

  // ---- the lazy parsers

  /** How much better the next match is than the current one. */
  function Gain(curLen: nat, curOffset: nat, nextLen: nat, nextOffset: nat): int
    requires curOffset > 0 && nextOffset > 0
  {
    4 * (nextLen - curLen) + (Bsr(curOffset) - Bsr(nextOffset))
  }

  lemma SmallOffset(offset: nat)
    requires 0 < offset < WINDOW_SIZE
    ensures 0 <= Bsr(offset) <= 14
  {
    assert Pow2(8) == 256;
    Pow2Add(8, 7);
    assert Pow2(7) == 128;
    BsrBound(offset, 15);
  }

  /** The match at hand: true, and long enough to be chosen. */
  ghost predicate AtHand(data: seq<u8>, at: nat, cur: LzMatch) {
    && 3 <= cur.length <= MAX_MATCH && at + cur.length <= |data| && cur.offset > 0
    && TrueMatch(data, at, cur.length, cur.offset)
  }

  ghost predicate BetterBy(cur: LzMatch, next: LzMatch, least: int) {
    && next.length >= cur.length && cur.offset > 0 && next.offset > 0
    && Gain(cur.length, cur.offset, next.length, next.offset) > least
  }

  /** What is found d positions ahead of the match at hand. */
  ghost function Ahead(data: seq<u8>, at: nat, cur: LzMatch, niceLen: nat, depth: nat, d: nat): LzMatch
    requires AtHand(data, at, cur) && 1 <= d <= 2
  {
    FoundAt(data, at + d, cur.length - 1, niceLen, depth / (2 * d))
  }

  /** How many literals the match at hand is put off by; none if it is chosen. */
  ghost function Deferral(data: seq<u8>, at: nat, cur: LzMatch, niceLen: nat, depth: nat, lazy2: bool): (d: nat)
    requires AtHand(data, at, cur)
    ensures d <= 2 && (!lazy2 ==> d <= 1)
    ensures d > 0 ==> BetterBy(cur, Ahead(data, at, cur, niceLen, depth, d), if d == 1 then 2 else 6)
  {
    if cur.length >= NiceAt(data, at, niceLen) then 0
    else if BetterBy(cur, Ahead(data, at, cur, niceLen, depth, 1), 2) then 1
    else if lazy2 && BetterBy(cur, Ahead(data, at, cur, niceLen, depth, 2), 6) then 2
    else 0
  }

  lemma AheadAtHand(data: seq<u8>, at: nat, cur: LzMatch, niceLen: nat, depth: nat, d: nat, least: int)
    requires AtHand(data, at, cur) && 1 <= d <= 2 && BetterBy(cur, Ahead(data, at, cur, niceLen, depth, d), least)
    ensures AtHand(data, at + d, Ahead(data, at, cur, niceLen, depth, d))
  {
    hide TrueMatch, FoundAt, Bsr;
  }

  /** The match that the match at hand is put off for. */
  ghost function Next(data: seq<u8>, at: nat, cur: LzMatch, niceLen: nat, depth: nat, lazy2: bool): LzMatch
    requires AtHand(data, at, cur) && Deferral(data, at, cur, niceLen, depth, lazy2) > 0
  {
    Ahead(data, at, cur, niceLen, depth, Deferral(data, at, cur, niceLen, depth, lazy2))
  }

  lemma NextAtHand(data: seq<u8>, at: nat, cur: LzMatch, niceLen: nat, depth: nat, lazy2: bool)
    requires AtHand(data, at, cur) && Deferral(data, at, cur, niceLen, depth, lazy2) > 0
    ensures var d := Deferral(data, at, cur, niceLen, depth, lazy2);
      AtHand(data, at + d, Next(data, at, cur, niceLen, depth, lazy2))
  {
    hide TrueMatch, FoundAt, Bsr, BetterBy, AtHand;
    var d := Deferral(data, at, cur, niceLen, depth, lazy2);
    AheadAtHand(data, at, cur, niceLen, depth, d, if d == 1 then 2 else 6);
  }

  lemma NextGains(data: seq<u8>, at: nat, cur: LzMatch, niceLen: nat, depth: nat, lazy2: bool)
    requires AtHand(data, at, cur) && Deferral(data, at, cur, niceLen, depth, lazy2) > 0
    ensures var d := Deferral(data, at, cur, niceLen, depth, lazy2);
      BetterBy(cur, Next(data, at, cur, niceLen, depth, lazy2), 3 * d - 1)
  {
    hide TrueMatch, FoundAt, Bsr;
  }

  /** Where the lazy parser settles, and on which match. */
  ghost function LazyEnd(data: seq<u8>, at: nat, cur: LzMatch, niceLen: nat, depth: nat, lazy2: bool)
    : (r: (nat, LzMatch))
    requires AtHand(data, at, cur)
    ensures at <= r.0 && AtHand(data, r.0, r.1)
    decreases |data| - at
  {
    hide TrueMatch, FoundAt, Bsr, Deferral, Next;
    var d := Deferral(data, at, cur, niceLen, depth, lazy2);
    if d == 0 then (at, cur)
    else
      NextAtHand(data, at, cur, niceLen, depth, lazy2);
      LazyEnd(data, at + d, Next(data, at, cur, niceLen, depth, lazy2), niceLen, depth, lazy2)
  }

  /** Every literal gains at least three, and no match gains more than lengths and offsets allow. */
  lemma {:induction false} LazyGains(data: seq<u8>, at: nat, cur: LzMatch, niceLen: nat, depth: nat, lazy2: bool)
    requires AtHand(data, at, cur)
    ensures var (at', m) := LazyEnd(data, at, cur, niceLen, depth, lazy2);
      3 * (at' - at) <= 4 * (m.length - cur.length) + (Bsr(cur.offset) - Bsr(m.offset))
    decreases |data| - at
  {
    hide TrueMatch, FoundAt, Bsr, Deferral, Next;
    var d := Deferral(data, at, cur, niceLen, depth, lazy2);
    if d > 0 {
      NextAtHand(data, at, cur, niceLen, depth, lazy2);
      NextGains(data, at, cur, niceLen, depth, lazy2);
      LazyGains(data, at + d, Next(data, at, cur, niceLen, depth, lazy2), niceLen, depth, lazy2);
    }
  }

  /** A match is put off for one that is no shorter. */
  lemma {:induction false} LazyNoShorter(data: seq<u8>, at: nat, cur: LzMatch, niceLen: nat, depth: nat, lazy2: bool)
    requires AtHand(data, at, cur)
    ensures LazyEnd(data, at, cur, niceLen, depth, lazy2).1.length >= cur.length
    decreases |data| - at
  {
    hide TrueMatch, FoundAt, Bsr, Deferral, Next;
    var d := Deferral(data, at, cur, niceLen, depth, lazy2);
    if d > 0 {
      NextAtHand(data, at, cur, niceLen, depth, lazy2);
      NextGains(data, at, cur, niceLen, depth, lazy2);
      LazyNoShorter(data, at + d, Next(data, at, cur, niceLen, depth, lazy2), niceLen, depth, lazy2);
    }
  }

  /** However often a match is put off, at most 345 literals come before the one that is chosen. */
  lemma LazySoon(data: seq<u8>, at: nat, cur: LzMatch, niceLen: nat, depth: nat, lazy2: bool)
    requires AtHand(data, at, cur)
    ensures LazyEnd(data, at, cur, niceLen, depth, lazy2).0 <= at + 345
  {
    hide Bsr, LazyEnd;
    var (at', m) := LazyEnd(data, at, cur, niceLen, depth, lazy2);
    LazyGains(data, at, cur, niceLen, depth, lazy2);
    SmallOffset(cur.offset);
    SmallOffset(m.offset);
  }

  // ---- more than two literals

  /** The literals of the first n deferrals. */
  ghost function Deferred(data: seq<u8>, at: nat, cur: LzMatch, niceLen: nat, depth: nat, lazy2: bool, n: nat): nat
    requires AtHand(data, at, cur)
    decreases n
  {
    hide TrueMatch, FoundAt, Bsr, Deferral, Next;
    var d := Deferral(data, at, cur, niceLen, depth, lazy2);
    if n == 0 || d == 0 then 0
    else
      NextAtHand(data, at, cur, niceLen, depth, lazy2);
      d + Deferred(data, at + d, Next(data, at, cur, niceLen, depth, lazy2), niceLen, depth, lazy2, n - 1)
  }

  lemma {:induction false} LazyAfter(data: seq<u8>, at: nat, cur: LzMatch, niceLen: nat, depth: nat, lazy2: bool,
                                        n: nat)
    requires AtHand(data, at, cur)
    ensures var so := Deferred(data, at, cur, niceLen, depth, lazy2, n);
      var all := LazyEnd(data, at, cur, niceLen, depth, lazy2).0 - at;
      so <= all && (so < n ==> so == all)
    decreases n
  {
    hide TrueMatch, FoundAt, Bsr, Deferral, Next;
    var d := Deferral(data, at, cur, niceLen, depth, lazy2);
    if n > 0 && d > 0 {
      NextAtHand(data, at, cur, niceLen, depth, lazy2);
      LazyAfter(data, at + d, Next(data, at, cur, niceLen, depth, lazy2), niceLen, depth, lazy2, n - 1);
    }
  }

  /** More than two literals come before the match exactly if the first three deferrals make more than two. */
  lemma MoreThanTwoIff(data: seq<u8>, at: nat, cur: LzMatch, niceLen: nat, depth: nat, lazy2: bool)
    requires AtHand(data, at, cur)
    ensures LazyEnd(data, at, cur, niceLen, depth, lazy2).0 > at + 2
      <==> Deferred(data, at, cur, niceLen, depth, lazy2, 3) > 2
  {
    LazyAfter(data, at, cur, niceLen, depth, lazy2, 3);
  }

  // ---- an input with three

  /** Runs of ascending numbers, each longer than the one before, and at 23 a run that continues each of them. */
  function Runs(): (data: seq<u8>)
    ensures |data| == 33
  {
    seq(33, i requires 0 <= i < 33 =>
      if i == 0 then 99 else if i < 5 then i - 1 else if i < 10 then i - 4
      else if i < 16 then i - 8 else if i < 23 then i - 13 else i - 23)
  }

  lemma {:induction false} ListedFew(data: seq<u8>, h: nat, lo: int, n: int)
    requires 0 <= lo
    ensures Listed(data, Four, h, lo, n) <= if n <= lo then 0 else n - lo
    decreases n
  {
    if n > lo {
      ListedFew(data, h, lo, n - 1);
    }
  }

  /** The position before 23 at which the same bytes start, for 4 + i bytes. */
  function Source(i: nat): (z: nat)
    requires i <= 3
    ensures 0 < z < 17
  {
    if i == 0 then 1 else if i == 1 then 5 else if i == 2 then 10 else 16
  }

  lemma RunsAgree(i: nat)
    requires i <= 3
    ensures Agree(Runs(), Source(i), 23 + i, 4 + i)
  {
    var data, z, p := Runs(), Source(i), 23 + i;
    var a, b := data[z..z + 4 + i], data[p..p + 4 + i];
    forall j | 0 <= j < 4 + i ensures a[j] == b[j] {
      assert a[j] == data[z + j] && b[j] == data[p + j];
    }
  }

  /** No other position before has so long a match, and none has a longer one. */
  lemma RunsUnlike(i: nat, y: nat, k: nat)
    requires i <= 3 && y < 23 + i && 23 + i + k <= 33 && k >= 4 + i && Agree(Runs(), y, 23 + i, k)
    ensures k == 4 + i && y == Source(i)
  {
    AgreeAt(Runs(), y, 23 + i, k, 0);
    AgreeAt(Runs(), y, 23 + i, k, 3 + i);
    if k > 4 + i {
      AgreeAt(Runs(), y, 23 + i, k, 4 + i);
    }
  }

  lemma FoundInRuns(i: nat, m: LzMatch)
    requires i <= 3 && TrueMatch(Runs(), 23 + i, m.length, m.offset) && 4 + i <= m.length <= 10 - i
    ensures m == LzMatch(4 + i, 23 + i - Source(i))
  {
    hide Agree, Runs, Source;
    var y := 23 + i - m.offset;
    assert Agree(Runs(), 23 + i, y, m.length);
    AgreeBackwards(Runs(), 23 + i, y, m.length);
    RunsUnlike(i, y, m.length);
  }

  lemma AgreeBackwards(data: seq<u8>, x: nat, y: nat, k: nat)
    requires Agree(data, x, y, k)
    ensures Agree(data, y, x, k)
  {
  }

  lemma RunsCommon(i: nat)
    requires i <= 3
    ensures Common(Runs(), Source(i), 23 + i, 10 - i) >= 4 + i
  {
    hide Agree, Common, Runs, Source;
    RunsAgree(i);
    if Common(Runs(), Source(i), 23 + i, 10 - i) < 4 + i {
      AgreeAt(Runs(), Source(i), 23 + i, 4 + i, Common(Runs(), Source(i), 23 + i, 10 - i));
    }
  }

  /** At 23 + i the search finds the match of 4 + i bytes. */
  lemma RunsFound(i: nat, bestLen: nat, depth: nat)
    requires i <= 3 && bestLen <= 3 + i && depth >= 33
    ensures FoundAt(Runs(), 23 + i, bestLen, MAX_MATCH, depth) == LzMatch(4 + i, 23 + i - Source(i))
  {
    hide Agree, TrueMatch, Searched, Common, Runs, Source;
    var data, p, z := Runs(), 23 + i, Source(i);
    var maxLen := AdjustMaxLen(|data| - p);
    assert maxLen == 10 - i && NiceAt(data, p, MAX_MATCH) == maxLen;
    var m := FoundAt(data, p, bestLen, MAX_MATCH, depth);
    ListedFew(data, Key(data, Four, p), Lowest(p), p);
    RunsCommon(i);
    LongestInWindow(data, p, bestLen, maxLen, NiceAt(data, p, MAX_MATCH), depth, z);
    FoundInRuns(i, m);
  }

  lemma SmallBsr()
    ensures Bsr(22) == 4 && Bsr(19) == 4 && Bsr(15) == 3 && Bsr(10) == 3
  {
    assert Bsr(1) == 0 && Bsr(2) == 1 && Bsr(3) == 1 && Bsr(4) == 2 && Bsr(5) == 2;
    assert Bsr(7) == 2 && Bsr(9) == 3 && Bsr(11) == 3;
  }

  /** So it is put off for the next one, which is longer and hardly farther away. */
  lemma RunsPutOff(i: nat, niceLen: nat, depth: nat, lazy2: bool)
    requires i <= 2 && depth >= 66 && niceLen == NiceAt(Runs(), 23, MAX_MATCH)
    ensures var cur := LzMatch(4 + i, 23 + i - Source(i));
      AtHand(Runs(), 23 + i, cur) && Deferral(Runs(), 23 + i, cur, niceLen, depth, lazy2) == 1
      && Next(Runs(), 23 + i, cur, niceLen, depth, lazy2) == LzMatch(5 + i, 24 + i - Source(i + 1))
  {
    hide Agree, TrueMatch, FoundAt, Runs, Bsr;
    var data, at := Runs(), 23 + i;
    RunsFound(i, 3, depth);
    RunsFound(i + 1, 3 + i, depth / 2);
    FoundLater(data, 23, at + 1, 3 + i, MAX_MATCH, depth / 2);
    SmallBsr();
  }

  lemma TwoLiterals(niceLen: nat, depth: nat, lazy2: bool)
    requires depth >= 66 && niceLen == NiceAt(Runs(), 23, MAX_MATCH)
    ensures AtHand(Runs(), 24, LzMatch(5, 19))
    ensures Deferred(Runs(), 24, LzMatch(5, 19), niceLen, depth, lazy2, 2) == 2
    ensures LazyEnd(Runs(), 24, LzMatch(5, 19), niceLen, depth, lazy2) == (26, LzMatch(7, 10))
  {
    hide AtHand, Deferral, Next, Runs;
    RunsPutOff(1, niceLen, depth, lazy2);
    RunsPutOff(2, niceLen, depth, lazy2);
    RunsTaken(niceLen, depth, lazy2);
    assert LazyEnd(Runs(), 25, LzMatch(6, 15), niceLen, depth, lazy2) == (26, LzMatch(7, 10));
    assert Deferred(Runs(), 25, LzMatch(6, 15), niceLen, depth, lazy2, 1) == 1;
  }

  /** An input on which the lazy parsers choose three literals before the match that they settle on: where the
      search at 23 finds a match, the one that is chosen is at 26. */
  lemma ThreeLiterals(minLen: nat, depth: nat, lazy2: bool)
    requires 3 <= minLen <= 4 && depth >= 66
    ensures var cur := FoundAt(Runs(), 23, minLen - 1, MAX_MATCH, depth);
      var niceLen := NiceAt(Runs(), 23, MAX_MATCH);
      cur.length >= minLen && cur.length > MIN_MATCH && AtHand(Runs(), 23, cur)
      && Deferred(Runs(), 23, cur, niceLen, depth, lazy2, 3) == 3
      && LazyEnd(Runs(), 23, cur, niceLen, depth, lazy2) == (26, LzMatch(7, 10))
  {
    hide AtHand, FoundAt, Deferral, Next, Runs;
    var niceLen := NiceAt(Runs(), 23, MAX_MATCH);
    RunsFound(0, minLen - 1, depth);
    RunsPutOff(0, niceLen, depth, lazy2);
    TwoLiterals(niceLen, depth, lazy2);
  }

  /** At 26 the match reaches the end of the input. */
  lemma RunsTaken(niceLen: nat, depth: nat, lazy2: bool)
    requires depth >= 33 && niceLen == NiceAt(Runs(), 23, MAX_MATCH)
    ensures AtHand(Runs(), 26, LzMatch(7, 10)) && Deferral(Runs(), 26, LzMatch(7, 10), niceLen, depth, lazy2) == 0
  {
    hide Agree, TrueMatch, FoundAt, Runs, Bsr, Ahead;
    RunsFound(3, 6, depth);
    FoundLater(Runs(), 23, 26, 6, MAX_MATCH, depth);
  }
}
