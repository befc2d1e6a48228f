/** What the fastest, the greedy and the lazy parsers make of a block, as functions of the input: which items they
    choose one after the other, and where the block ends. */
module BlockChoices {
  import opened BitBuffer
  import opened Words
  import opened Slots
  import opened Items
  import opened WriteBlock
  import opened MatchCommon
  import opened MatchLimits
  import opened HashTables
  import opened HtMatchfinder
  import opened HcChains
  import opened HcParse
  import opened Sequences

  const SOFT_MAX_BLOCK_LENGTH: nat := 300000
  const FAST_SOFT_MAX_BLOCK_LENGTH: nat := 65535
  const SEQ_STORE_LENGTH: nat := 50000
  const FAST_SEQ_STORE_LENGTH: nat := 8192
  const MAX_BLOCK_LENGTH: nat := SOFT_MAX_BLOCK_LENGTH + MIN_BLOCK_LENGTH - 1

  function ChooseMaxBlockEnd(p: nat, end: nat, softMax: nat): (e: nat)
    requires p <= end
    ensures e <= end && (e == end || e == p + softMax)
    ensures e - p < softMax + MIN_BLOCK_LENGTH
    ensures softMax >= MIN_BLOCK_LENGTH && e < end ==> p + softMax + MIN_BLOCK_LENGTH <= end
  {
    if end - p < softMax + MIN_BLOCK_LENGTH then end else p + softMax
  }

  // ---- the choices at a position

  ghost function FastestChoice(data: seq<u8>, q: nat, maxLen: nat, niceLen: nat): Item
    requires q < |data| && q + maxLen <= |data|
  {
    var m := TwoWayAt(data, q, maxLen, niceLen);
    if m.length > 0 then Match(m.length, m.offset) else Literal(data[q])
  }

  /** Near the end of the input there is nothing to search for. */
  ghost function FastestAt(data: seq<u8>, q: nat, niceLen: nat): Item
    requires q < |data|
  {
    var maxLen := AdjustMaxLen(|data| - q);
    if maxLen < REQUIRED_NBYTES then Literal(data[q]) else FastestChoice(data, q, maxLen, NiceAt(data, q, niceLen))
  }

  ghost function LazyChoice(data: seq<u8>, q: nat, minLen: nat, niceLen: nat, depth: nat, lazy2: bool): seq<Item>
    requires q < |data| && minLen >= 3
  {
    var m := FoundAt(data, q, minLen - 1, niceLen, depth);
    if m.length < minLen || (m.length == MIN_MATCH && m.offset > 8192) then [Literal(data[q])]
    else
      var (at, n) := LazyEnd(data, q, m, NiceAt(data, q, niceLen), depth, lazy2);
      Literals(data[q..at]) + [Match(n.length, n.offset)]
  }

  /** Three literals before the match: more than two, which the comment on the largest block counts on. */
  lemma ThreeLiteralsChosen(minLen: nat, depth: nat, lazy2: bool)
    requires 3 <= minLen <= 4 && depth >= 66
    ensures LazyChoice(Runs(), 23, minLen, MAX_MATCH, depth, lazy2)
         == [Literal(0), Literal(1), Literal(2), Match(7, 10)]
  {
    hide FoundAt, AtHand, LazyEnd, Deferred;
    ThreeLiterals(minLen, depth, lazy2);
    assert Runs()[23..26] == [0, 1, 2];
  }

  datatype Strategy = Greedy | Lazy | Lazy2

  /** A parser and its parameters.  `minLen` and `split` stand for the heuristics: the least match length worth
      using at a position of a block, and whether to end the block at a position. */
  datatype Parser =
    | FastParser(niceLen: nat)
    | ChainParser(strategy: Strategy, depth: nat, niceLen: nat, minLen: (nat, nat) -> nat, split: (nat, nat) -> bool)

  ghost predicate Sound(parser: Parser) {
    parser.ChainParser? ==> forall i: nat, j: nat :: parser.minLen(i, j) >= 3
  }

  /** What the parser chooses at q in the block from p. */
  ghost function ChoiceAt(parser: Parser, data: seq<u8>, p: nat, q: nat): seq<Item>
    requires Sound(parser) && q < |data|
  {
    match parser
    case FastParser(niceLen) => [FastestAt(data, q, niceLen)]
    case ChainParser(strategy, depth, niceLen, minLen, _) =>
      if strategy == Greedy then [GreedyChoice(data, q, minLen(p, p), niceLen, depth)]
      else LazyChoice(data, q, minLen(p, q), niceLen, depth, strategy == Lazy2)
  }

  // ---- the choices in a block

  /** The position behind an item at q. */
  function After(q: nat, it: Item): nat {
    q + match it case Literal(_) => 1 case Match(length, _) => length
  }

  ghost function AfterAll(q: nat, items: seq<Item>): nat {
    if items == [] then q else After(AfterAll(q, items[..|items| - 1]), items[|items| - 1])
  }

  ghost function MatchCount(items: seq<Item>): nat {
    if items == [] then 0 else MatchCount(items[..|items| - 1]) + if items[|items| - 1].Match? then 1 else 0
  }

  lemma {:induction false} LiteralRun(q: nat, s: seq<u8>)
    ensures AfterAll(q, Literals(s)) == q + |s| && MatchCount(Literals(s)) == 0
  {
    if s != [] {
      LiteralRun(q, s[..|s| - 1]);
      assert Literals(s)[..|s| - 1] == Literals(s[..|s| - 1]);
    }
  }

  /** The items of the first n choices from p on, and the position behind them. */
  ghost function Taken(parser: Parser, data: seq<u8>, p: nat, n: nat): (seq<Item>, nat)
    requires Sound(parser)
  {
    if n == 0 then ([], p)
    else
      var (items, q) := Taken(parser, data, p, n - 1);
      if q >= |data| then (items, q)
      else
        var c := ChoiceAt(parser, data, p, q);
        (items + c, AfterAll(q, c))
  }

  /** The block is long enough, has as many matches as there is room for, or is split there. */
  ghost predicate StopsAt(parser: Parser, data: seq<u8>, p: nat, q: nat, items: seq<Item>)
    requires p <= |data|
  {
    match parser
    case FastParser(_) =>
      q >= ChooseMaxBlockEnd(p, |data|, FAST_SOFT_MAX_BLOCK_LENGTH) || MatchCount(items) >= FAST_SEQ_STORE_LENGTH
    case ChainParser(_, _, _, _, split) =>
      || q >= ChooseMaxBlockEnd(p, |data|, SOFT_MAX_BLOCK_LENGTH) || MatchCount(items) >= SEQ_STORE_LENGTH
      || (q - p >= MIN_BLOCK_LENGTH && |data| - q >= MIN_BLOCK_LENGTH && split(p, q))
  }

  ghost predicate StopsAfter(parser: Parser, data: seq<u8>, p: nat, n: nat)
    requires Sound(parser) && p <= |data|
  {
    var (items, q) := Taken(parser, data, p, n);
    StopsAt(parser, data, p, q, items)
  }

  /** The block from p to e has the items that the parser chooses one after the other, until it stops. */
  ghost predicate ParsedBlock(parser: Parser, data: seq<u8>, p: nat, e: nat, items: seq<Item>)
    requires Sound(parser)
  {
    && p <= |data|
    && exists n: nat ::
      && Taken(parser, data, p, n) == (items, e) && StopsAfter(parser, data, p, n)
      && forall k: nat :: k < n ==> !StopsAfter(parser, data, p, k)
  }

  lemma NothingTaken(parser: Parser, data: seq<u8>, p: nat)
    requires Sound(parser) && p < |data|
    ensures Taken(parser, data, p, 0) == ([], p) && MatchCount([]) == 0 && !StopsAfter(parser, data, p, 0)
  {
  }

  lemma OneItem(q: nat, items: seq<Item>, it: Item)
    ensures AfterAll(q, [it]) == After(q, it)
    ensures MatchCount(items + [it]) == MatchCount(items) + if it.Match? then 1 else 0
  {
    assert [it][..0] == [] && (items + [it])[..|items|] == items;
  }

  lemma RunThenMatch(q: nat, s: seq<u8>, it: Item)
    ensures AfterAll(q, Literals(s) + [it]) == After(q + |s|, it)
    ensures MatchCount(Literals(s) + [it]) == if it.Match? then 1 else 0
  {
    LiteralRun(q, s);
    assert (Literals(s) + [it])[..|s|] == Literals(s);
  }

  /** What a step of the lazy parsers adds. */
  lemma LazyAdds(data: seq<u8>, q: nat, minLen: nat, niceLen: nat, depth: nat, lazy2: bool)
    requires q < |data| && minLen >= 3
    ensures var c := LazyChoice(data, q, minLen, niceLen, depth, lazy2);
      var m := FoundAt(data, q, minLen - 1, niceLen, depth);
      if m.length < minLen || (m.length == MIN_MATCH && m.offset > 8192) then
        c == [Literal(data[q])] && AfterAll(q, c) == q + 1 && MatchCount(c) == 0
      else
        && AtHand(data, q, m)
        && var (at, n) := LazyEnd(data, q, m, NiceAt(data, q, niceLen), depth, lazy2);
          && c == Literals(data[q..at]) + [Match(n.length, n.offset)]
          && AfterAll(q, c) == at + n.length && MatchCount(c) == 1
  {
    hide FoundAt, LazyEnd, TrueMatch, Literals;
    var m := FoundAt(data, q, minLen - 1, niceLen, depth);
    if m.length < minLen || (m.length == MIN_MATCH && m.offset > 8192) {
      OneItem(q, [], Literal(data[q]));
      assert [] + [Literal(data[q])] == [Literal(data[q])];
    } else {
      var (at, n) := LazyEnd(data, q, m, NiceAt(data, q, niceLen), depth, lazy2);
      RunThenMatch(q, data[q..at], Match(n.length, n.offset));
    }
  }

  lemma TakenMore(parser: Parser, data: seq<u8>, p: nat, n: nat, items: seq<Item>, q: nat)
    requires Sound(parser) && Taken(parser, data, p, n) == (items, q) && q < |data|
    ensures var c := ChoiceAt(parser, data, p, q); Taken(parser, data, p, n + 1) == (items + c, AfterAll(q, c))
  {
    hide ChoiceAt;
  }

  lemma {:induction false} MatchesJoin(a: seq<Item>, b: seq<Item>)
    ensures MatchCount(a + b) == MatchCount(a) + MatchCount(b)
    decreases |b|
  {
    if b == [] {
      assert a + b == a;
    } else {
      MatchesJoin(a, b[..|b| - 1]);
      assert (a + b)[..|a + b| - 1] == a + b[..|b| - 1];
    }
  }

  /** A block can be parsed in one way only. */
  lemma ParsedUnique(parser: Parser, data: seq<u8>, p: nat, e: nat, items: seq<Item>, e': nat, items': seq<Item>)
    requires Sound(parser) && ParsedBlock(parser, data, p, e, items) && ParsedBlock(parser, data, p, e', items')
    ensures e == e' && items == items'
  {
    hide Taken, StopsAfter;
  }

  // ---- matches are taken

  /** The fastest parser takes a match that is no shorter than that with the last position of the same hash. */
  lemma FastestTakes(data: seq<u8>, q: nat, niceLen: nat, y: nat)
    requires q + REQUIRED_NBYTES <= |data| && LastAlike(data, Bucket, q, q, y) && InReach(y, q)
    requires Common(data, y, q, AdjustMaxLen(|data| - q)) >= 4
    ensures var it := FastestAt(data, q, niceLen);
      it.Match? && it.length >= Common(data, y, q, AdjustMaxLen(|data| - q))
  {
    hide Common, LastAlike, TwoWayAt;
    TwoWayLast(data, q, AdjustMaxLen(|data| - q), NiceAt(data, q, niceLen), y);
  }

  /** What a deep enough search finds, given a match in the window that is long enough. */
  lemma FoundLong(data: seq<u8>, q: nat, minLen: nat, niceLen: nat, depth: nat, z: nat)
    requires q + 5 <= |data| && z < q && InReach(z, q) && InLists(data, z, q)
    requires depth >= Listed(data, Four, Key(data, Four, q), Lowest(q), q)
    requires 3 <= minLen <= NiceAt(data, q, niceLen)
    requires var k := Common(data, z, q, AdjustMaxLen(|data| - q)); k >= 4 && k >= minLen
    ensures var m, k := FoundAt(data, q, minLen - 1, niceLen, depth), Common(data, z, q, AdjustMaxLen(|data| - q));
      m.length >= minLen && (m.length >= k || m.length >= NiceAt(data, q, niceLen)) && m.offset > 0
  {
    hide Common, Searched, InLists, Listed, Key;
    LongestInWindow(data, q, minLen - 1, AdjustMaxLen(|data| - q), NiceAt(data, q, niceLen), depth, z);
  }

  /** The greedy parser takes a match that is no shorter, unless that has niceLen bytes. */
  lemma GreedyTakes(data: seq<u8>, q: nat, minLen: nat, niceLen: nat, depth: nat, z: nat)
    requires q + 5 <= |data| && z < q && InReach(z, q) && InLists(data, z, q)
    requires depth >= Listed(data, Four, Key(data, Four, q), Lowest(q), q)
    requires 3 <= minLen <= NiceAt(data, q, niceLen) && NiceAt(data, q, niceLen) > 3
    requires var k := Common(data, z, q, AdjustMaxLen(|data| - q)); k >= 4 && k >= minLen
    ensures var it, k := GreedyChoice(data, q, minLen, niceLen, depth), Common(data, z, q, AdjustMaxLen(|data| - q));
      it.Match? && (it.length >= k || it.length >= NiceAt(data, q, niceLen))
  {
    hide Common, FoundAt, InLists, Listed, Key;
    FoundLong(data, q, minLen, niceLen, depth, z);
  }

  /** So do the lazy parsers, behind the literals that put it off. */
  lemma LazyTakes(data: seq<u8>, q: nat, minLen: nat, niceLen: nat, depth: nat, lazy2: bool, z: nat)
    requires q + 5 <= |data| && z < q && InReach(z, q) && InLists(data, z, q)
    requires depth >= Listed(data, Four, Key(data, Four, q), Lowest(q), q)
    requires 3 <= minLen <= NiceAt(data, q, niceLen) && NiceAt(data, q, niceLen) > 3
    requires var k := Common(data, z, q, AdjustMaxLen(|data| - q)); k >= 4 && k >= minLen
    ensures var items := LazyChoice(data, q, minLen, niceLen, depth, lazy2);
      var it, k := items[|items| - 1], Common(data, z, q, AdjustMaxLen(|data| - q));
      it.Match? && (it.length >= k || it.length >= NiceAt(data, q, niceLen))
  {
    hide Common, FoundAt, InLists, Listed, Key, LazyEnd, TrueMatch;
    FoundLong(data, q, minLen, niceLen, depth, z);
    FoundAtHand(data, q, minLen - 1, niceLen, depth);
    LazyNoShorter(data, q, FoundAt(data, q, minLen - 1, niceLen, depth), NiceAt(data, q, niceLen), depth, lazy2);
  }

  lemma FoundAtHand(data: seq<u8>, q: nat, bestLen: nat, niceLen: nat, depth: nat)
    requires q <= |data|
    ensures var m := FoundAt(data, q, bestLen, niceLen, depth); m.length >= 3 && m.offset > 0 ==> AtHand(data, q, m)
  {
    hide TrueMatch, Searched;
  }

  // ---- limits that have been applied before

  /** It makes no difference from there on. */
  lemma SameChoice(parser: Parser, data: seq<u8>, p: nat, q: nat, niceLen: nat)
    requires Sound(parser) && q < |data| && NiceFrom(data, q, niceLen, parser.niceLen)
    ensures ChoiceAt(parser.(niceLen := niceLen), data, p, q) == ChoiceAt(parser, data, p, q)
  {
    hide TwoWayAt, FoundAt, LazyEnd;
    FoundSame(data, q, niceLen, parser.niceLen);
  }

  lemma FoundSame(data: seq<u8>, q: nat, niceLen: nat, nice: nat)
    requires q <= |data| && NiceFrom(data, q, niceLen, nice)
    ensures NiceAt(data, q, niceLen) == NiceAt(data, q, nice)
    ensures forall bestLen: nat, depth: nat ::
      FoundAt(data, q, bestLen, niceLen, depth) == FoundAt(data, q, bestLen, nice, depth)
  {
    hide Searched;
  }
}
