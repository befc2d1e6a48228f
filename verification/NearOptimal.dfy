/** The near-optimal parser: matches are cached for a block, then the choices for the block are optimized
    in several passes.  The heuristics that have no bearing on correctness are parameters. */
module NearOptimal {
  import opened Packed
  import opened LengthCounts
  import opened BitBuffer
  import opened MatchCommon
  import opened MatchLimits
  import opened HashTables
  import BtTrees
  import opened BtForest
  import opened BtMatchfinder
  import opened BtSearch
  import opened BlockGraph
  import opened Slots
  import opened Items
  import opened WriteBlock
  import opened Costs
  import opened Sequences
  import opened BlockChoices
  import opened MinCostPath
  import opened PathBlocks

  /** After how many entries the cache counts as full. */
  const MATCH_CACHE_LENGTH: nat := 5 * SOFT_MAX_BLOCK_LENGTH
  const MAX_MATCHES_PER_POS: nat := MAX_MATCH - MIN_MATCH + 1
  const CACHE_SIZE: nat := MATCH_CACHE_LENGTH + MAX_MATCHES_PER_POS + MAX_MATCH - 1

  // ---- the cache of a block

  /** What is cached for position i of a block that starts at p. */
  ghost predicate CachedAt(data: seq<u8>, p: nat, i: nat, c: Choices) {
    && TrueAt(data, p + i, c) && |c.matches| <= MAX_MATCHES_PER_POS
    && forall k :: 0 <= k < |c.matches| ==> i + c.matches[k].length <= MAX_BLOCK_LENGTH
  }

  ghost predicate Cached(data: seq<u8>, p: nat, ps: seq<Choices>) {
    p + |ps| <= |data| && forall i :: 0 <= i < |ps| ==> CachedAt(data, p, i, ps[i])
  }

  lemma CachedGraph(data: seq<u8>, p: nat, ps: seq<Choices>, costs: CostModel, maxLiteral: nat)
    requires Cached(data, p, ps) && 0 < |ps| <= MAX_BLOCK_LENGTH && ValidCosts(costs, MAX_BLOCK_LENGTH, maxLiteral)
    ensures Graph(ps, costs, MAX_BLOCK_LENGTH + 1, maxLiteral) && AllTrue(data, p, ps)
  {
    hide MatchCommon.Agree;
    MulMono(maxLiteral, |ps|, MAX_BLOCK_LENGTH);
    forall i | 0 <= i < |ps| ensures TrueAt(data, p + i, ps[i]) && ValidChoices(ps[i]) {
      assert CachedAt(data, p, i, ps[i]);
    }
    forall i, k | 0 <= i < |ps| && 0 <= k < |ps[i].matches| ensures i + ps[i].matches[k].length < MAX_BLOCK_LENGTH + 1 {
      assert CachedAt(data, p, i, ps[i]);
    }
  }

  lemma CachedMore(data: seq<u8>, p: nat, ps: seq<Choices>, c: Choices)
    requires Cached(data, p, ps) && CachedAt(data, p, |ps|, c)
    ensures Cached(data, p, ps + [c])
    ensures Flat(ps + [c]) == Flat(ps) + c.matches + [LzMatch(|c.matches|, c.literal)]
  {
    hide CachedAt, Flat;
    CachedInside(data, p, |ps|, c);
    FlatMore(ps, c);
    var all := ps + [c];
    forall i | 0 <= i < |all| ensures CachedAt(data, p, i, all[i]) {
      if i < |ps| {
        assert all[i] == ps[i];
      }
    }
  }

  lemma FlatMore(ps: seq<Choices>, c: Choices)
    ensures Flat(ps + [c]) == Flat(ps) + c.matches + [LzMatch(|c.matches|, c.literal)]
  {
    assert (ps + [c])[..|ps|] == ps;
  }

  lemma CachedInside(data: seq<u8>, p: nat, i: nat, c: Choices)
    requires CachedAt(data, p, i, c)
    ensures p + i < |data|
  {
  }

  /** A block that is ended early leaves the rest of its cache to the next one. */
  lemma CachedRest(data: seq<u8>, p: nat, ps: seq<Choices>, k: nat)
    requires Cached(data, p, ps) && k <= |ps|
    ensures Cached(data, p, ps[..k]) && Cached(data, p + k, ps[k..])
  {
    hide TrueAt;
    forall i | 0 <= i < |ps| - k ensures CachedAt(data, p + k, i, ps[k..][i]) {
      assert CachedAt(data, p, k + i, ps[k + i]);
    }
  }

  lemma {:induction false} FlatSplit(ps: seq<Choices>, k: nat)
    requires k <= |ps|
    ensures Flat(ps) == Flat(ps[..k]) + Flat(ps[k..])
    decreases |ps|
  {
    hide Flat;
    if k == |ps| {
      assert ps[..k] == ps && ps[k..] == [];
      NothingFlat();
    } else {
      var n := |ps| - 1;
      var front, rest, c := ps[..n], ps[k..n], ps[n];
      FlatSplit(front, k);
      assert front[..k] == ps[..k] && front[k..] == rest;
      assert ps == front + [c] && ps[k..] == rest + [c];
      FlatMore(front, c);
      FlatMore(rest, c);
    }
  }

  /** The cache does not fill up within a block of the minimum length. */
  lemma {:induction false} FlatSize(data: seq<u8>, p: nat, ps: seq<Choices>)
    requires Cached(data, p, ps)
    ensures |ps| <= |Flat(ps)| <= (MAX_MATCHES_PER_POS + 1) * |ps|
    decreases |ps|
  {
    hide Flat, Cached;
    if ps == [] {
      NothingFlat();
    } else {
      var n := |ps| - 1;
      CachedRest(data, p, ps, n);
      FlatSize(data, p, ps[..n]);
      FewMatches(data, p, ps, n);
      assert ps == ps[..n] + [ps[n]];
      FlatMore(ps[..n], ps[n]);
      assert (MAX_MATCHES_PER_POS + 1) * (n + 1) == (MAX_MATCHES_PER_POS + 1) * n + MAX_MATCHES_PER_POS + 1;
    }
  }

  lemma NothingFlat()
    ensures Flat([]) == []
  {
  }

  lemma FewMatches(data: seq<u8>, p: nat, ps: seq<Choices>, i: nat)
    requires Cached(data, p, ps) && i < |ps|
    ensures |ps[i].matches| <= MAX_MATCHES_PER_POS
  {
    hide TrueAt;
    assert CachedAt(data, p, i, ps[i]);
  }

  // ---- optimizing a block

  /** What is done after the last pass: use literals only, the path of the last pass, or that of an earlier one. */
  datatype Outcome = OnlyLiterals | LastPath | EarlierPath(pass: nat)

  /** The choices that have no bearing on correctness: the costs for each pass over the block at a position,
      whether to stop after a pass, and what to do then. */
  datatype Heuristics = Heuristics(costs: (nat, nat) -> CostModel, stop: (nat, nat) -> bool, outcome: nat -> Outcome)

  ghost predicate Sensible(h: Heuristics, maxLiteral: nat) {
    forall i: nat, j: nat :: ValidCosts(h.costs(i, j), MAX_BLOCK_LENGTH, maxLiteral)
  }

  /** The pass is the last one: the first after which the passes stop. */
  ghost predicate LastPass(h: Heuristics, p: nat, maxPasses: nat, pass: nat) {
    && pass < maxPasses && (pass + 1 == maxPasses || h.stop(p, pass + 1))
    && forall k: nat :: 1 <= k <= pass ==> !h.stop(p, k)
  }

  /** What the choices for a block become: the items of a cheapest path, for the costs of one of the passes, or
      literals. */
  ghost predicate Optimized(h: Heuristics, maxPasses: nat, data: seq<u8>, p: nat, e: nat, ps: seq<Choices>,
                            items: seq<Item>)
  {
    match h.outcome(p)
    case OnlyLiterals => p <= e <= |data| && items == Literals(data[p..e])
    case LastPath =>
      exists pass: nat :: LastPass(h, p, maxPasses, pass) && CheapestItems(ps, h.costs(p, pass), items)
    case EarlierPath(best) => CheapestItems(ps, h.costs(p, best), items)
  }

  lemma CachedEnd(data: seq<u8>, p: nat, ps: seq<Choices>)
    requires Cached(data, p, ps)
    ensures p + |ps| <= |data|
  {
  }

  lemma SensibleAt(h: Heuristics, maxLiteral: nat, p: nat, pass: nat)
    requires Sensible(h, maxLiteral)
    ensures ValidCosts(h.costs(p, pass), MAX_BLOCK_LENGTH, maxLiteral)
  {
  }

  /** One pass over the block, with the costs of that pass. */
  method OnePass(data: seq<u8>, p: nat, e: nat, cache: seq<LzMatch>, cacheEnd: nat, cost: array<u32>,
                 nodes: array<Node>, lf: array<nat>, of: array<nat>, h: Heuristics, pass: nat, ghost ps: seq<Choices>,
                 ghost maxLiteral: nat)
    returns (c: Choice)
    requires p < e && |ps| == e - p <= MAX_BLOCK_LENGTH && Cached(data, p, ps) && Sensible(h, maxLiteral)
    requires cacheEnd <= |cache| && cache[..cacheEnd] == Flat(ps) && Fenced(cost[..], e - p)
    requires cost.Length == nodes.Length == MAX_BLOCK_LENGTH + 1 && cost as object != lf && cost as object != of
    requires lf != of && lf.Length == 288 && of.Length == 32
    modifies cost, nodes, lf, of
    ensures Fenced(cost[..], e - p) && Settled(data, p, e, c, lf[..], of[..])
    ensures Chosen(c, data, p, e) && CheapestItems(ps, h.costs(p, pass), ChoiceItems(c, data, p, e))
  {
    hide Chosen, ChoiceItems, CheapestItems;
    hide Flat, Fenced, Settled, Sensible, Graph, AllTrue, ValidCosts, Solved, Cached;
    SensibleAt(h, maxLiteral, p, pass);
    var costs := h.costs(p, pass);
    CachedGraph(data, p, ps, costs, maxLiteral);
    ChoosePath(data, p, e - p, cache, cacheEnd, costs, cost, nodes, lf, of, ps, maxLiteral);
    c := FromPath(nodes[..]);
  }

  /** Chooses literals and matches for the block from p to e. */
  method OptimizeBlock(data: seq<u8>, p: nat, e: nat, cache: seq<LzMatch>, cacheEnd: nat, cost: array<u32>,
                       nodes: array<Node>, lf: array<nat>, of: array<nat>, h: Heuristics, maxPasses: nat,
                       ghost ps: seq<Choices>, ghost maxLiteral: nat)
    returns (c: Choice)
    requires p < e && |ps| == e - p <= MAX_BLOCK_LENGTH && Cached(data, p, ps) && Sensible(h, maxLiteral)
    requires cacheEnd <= |cache| && cache[..cacheEnd] == Flat(ps)
    requires cost.Length == nodes.Length == MAX_BLOCK_LENGTH + 1 && cost as object != lf && cost as object != of
    requires lf != of && lf.Length == 288 && of.Length == 32 && maxPasses >= 1
    modifies cost, nodes, lf, of
    ensures e <= |data| && Settled(data, p, e, c, lf[..], of[..])
    ensures Chosen(c, data, p, e) && Optimized(h, maxPasses, data, p, e, ps, ChoiceItems(c, data, p, e))
  {
    hide Chosen, ChoiceItems, CheapestItems;
    hide Flat, Fenced, Settled, Sensible, Graph, AllTrue, ValidCosts, Solved, Cached;
    CachedEnd(data, p, ps);
    c := ChooseAllLiterals(data, p, e, lf, of);
    Fence(cost, e - p);
    var pass: nat := 0;
    while true
      invariant pass < maxPasses && Fenced(cost[..], e - p) && forall k: nat :: 1 <= k <= pass ==> !h.stop(p, k)
      decreases maxPasses - pass
    {
      c := OnePass(data, p, e, cache, cacheEnd, cost, nodes, lf, of, h, pass, ps, maxLiteral);
      pass := pass + 1;
      if h.stop(p, pass) || pass == maxPasses {
        break;
      }
    }
    assert LastPass(h, p, maxPasses, pass - 1);
    match h.outcome(p) {
      case OnlyLiterals =>
        c := ChooseAllLiterals(data, p, e, lf, of);
      case LastPath =>
      case EarlierPath(best) =>
        c := OnePass(data, p, e, cache, cacheEnd, cost, nodes, lf, of, h, best, ps, maxLiteral);
    }
  }

  // ---- filling the cache

  /** As long as a search is possible, everything before p is in the trees.  `nice` is the limit before it has been
      lowered to what fits. */
  ghost predicate BtReady(mf: BtMatchfinder, data: seq<u8>, p: nat, niceLen: nat, nice: nat, depth: nat)
    reads mf, mf.hash3a, mf.hash3b, mf.hash4, mf.child
  {
    && mf.Shape() && mf.base <= p <= |data| && niceLen <= MAX_MATCH && NiceFrom(data, p, niceLen, nice)
    && (p + BT_REQUIRED_NBYTES <= |data| ==>
          && mf.Valid(data, niceLen) && mf.Hashed(data) && mf.At(p) && 3 < niceLen
          && mf.trees == Forest(data, nice, depth, p))
  }

  /** Finds the matches at p, or only inserts p. */
  method AdvanceAt(mf: BtMatchfinder, data: seq<u8>, p: nat, niceLen0: nat, depth: nat, record: bool, ghost nice: nat)
    returns (ms: seq<LzMatch>, niceLen: nat)
    requires BtReady(mf, data, p, niceLen0, nice, depth) && p < |data| && depth >= 1
    modifies mf, mf.hash3a, mf.hash3b, mf.hash4, mf.child
    ensures BtReady(mf, data, p + 1, niceLen, nice, depth) && niceLen == NiceAt(data, p, nice)
    ensures ms == if record then MatchesAt(data, nice, depth, p) else []
    ensures Matches(data, p, AdjustMaxLen(|data| - p), ms) && |ms| <= MAX_MATCHES_PER_POS
  {
    hide Matches, Forest, BtTrees.Found, ThreesAt, BtTrees.Before, Grown, Key, AllOk, Heads, Formers, Disjoint;
    NoneFound(data, p, AdjustMaxLen(|data| - p));
    if p - mf.base == WINDOW_SIZE {
      mf.SlideWindow(data, niceLen0);
    }
    var maxLen := AdjustMaxLen(|data| - p);
    niceLen := AdjustNiceLen(niceLen0, maxLen);
    ms := [];
    if maxLen >= BT_REQUIRED_NBYTES {
      ForestMore(data, nice, depth, p);
      ms := mf.Advance(data, p, if record then maxLen else niceLen, niceLen, depth, record, niceLen0);
    }
  }

  lemma NoneFound(data: seq<u8>, p: nat, maxLen: nat)
    ensures Matches(data, p, maxLen, [])
  {
  }

  /** What is found at a position before the end of the block can be cached. */
  lemma FoundCached(data: seq<u8>, p: nat, q: nat, ms: seq<LzMatch>)
    requires p <= q < |data| && q < ChooseMaxBlockEnd(p, |data|, SOFT_MAX_BLOCK_LENGTH)
    requires Matches(data, q, AdjustMaxLen(|data| - q), ms) && |ms| <= MAX_MATCHES_PER_POS
    ensures CachedAt(data, p, q - p, Choices(ms, data[q]))
  {
    hide MatchCommon.Agree;
  }

  /** Adds the entries of one position to the cache. */
  method Append(cache: array<LzMatch>, at: nat, ms: seq<LzMatch>, literal: u8) returns (at': nat)
    requires at + |ms| < cache.Length
    modifies cache
    ensures at' == at + |ms| + 1 && cache[..at'] == old(cache[..at]) + ms + [LzMatch(|ms|, literal)]
  {
    for i := 0 to |ms|
      invariant cache[..at] == old(cache[..at]) && forall j :: 0 <= j < i ==> cache[at + j] == ms[j]
    {
      cache[at + i] := ms[i];
    }
    cache[at + |ms|] := LzMatch(|ms|, literal);
    at' := at + |ms| + 1;
    assert cache[at..at + |ms|] == ms;
    assert cache[..at'] == cache[..at] + cache[at..at + |ms|] + [cache[at + |ms|]];
  }

  /** The cache holds the choices for the positions from p to q. */
  ghost predicate Filled(data: seq<u8>, p: nat, q: nat, ps: seq<Choices>, cache: seq<LzMatch>, at: nat) {
    q == p + |ps| && at <= |cache| && Cached(data, p, ps) && cache[..at] == Flat(ps)
  }

  lemma FilledMore(data: seq<u8>, p: nat, q: nat, ps: seq<Choices>, cache: seq<LzMatch>, at: nat, c: Choices,
                   cache': seq<LzMatch>, at': nat)
    requires Filled(data, p, q, ps, cache, at) && CachedAt(data, p, q - p, c)
    requires at' <= |cache'| && cache'[..at'] == cache[..at] + c.matches + [LzMatch(|c.matches|, c.literal)]
    ensures Filled(data, p, q + 1, ps + [c], cache', at') && q < |data|
  {
    hide CachedAt, Flat, Cached;
    CachedInside(data, p, q - p, c);
    CachedMore(data, p, ps, c);
  }

  /** A position covered by a long match: no matches are cached for it. */
  lemma NoneCached(data: seq<u8>, p: nat, q: nat)
    requires p <= q < |data|
    ensures CachedAt(data, p, q - p, Choices([], data[q]))
  {
  }

  /** Caches one position and those that a long match covers. */
  method CachePosition(mf: BtMatchfinder, data: seq<u8>, p: nat, q0: nat, cache: array<LzMatch>, at0: nat,
                       niceLen0: nat, depth: nat, ghost ps0: seq<Choices>, ghost nice: nat)
    returns (q: nat, at: nat, niceLen: nat, ghost ps: seq<Choices>)
    requires BtReady(mf, data, q0, niceLen0, nice, depth) && q0 < |data| && depth >= 1
    requires p <= q0 && ps0 == GraphOf(data, nice, depth, p, q0) && IsSearched(data, nice, depth, q0)
    requires Filled(data, p, q0, ps0, cache[..], at0) && q0 < ChooseMaxBlockEnd(p, |data|, SOFT_MAX_BLOCK_LENGTH)
    requires at0 < MATCH_CACHE_LENGTH && cache.Length == CACHE_SIZE
    modifies mf, mf.hash3a, mf.hash3b, mf.hash4, mf.child, cache
    ensures BtReady(mf, data, q, niceLen, nice, depth) && Filled(data, p, q, ps, cache[..], at)
    ensures q0 < q <= |data| && q < q0 + MAX_MATCH + 1
    ensures ps == GraphOf(data, nice, depth, p, q) && IsSearched(data, nice, depth, q)
    ensures q == NextSearch(data, nice, depth, q0)
  {
    hide Filled, Matches, BtReady, CachedAt, MatchesAt, IsSearched, GraphOf;
    var ms;
    ms, niceLen := AdvanceAt(mf, data, q0, niceLen0, depth, true, nice);
    NextSearched(data, nice, depth, q0);
    GraphMore(data, nice, depth, p, q0);
    FilledFrom(data, p, q0, ps0, cache[..], at0);
    FoundCached(data, p, q0, ms);
    ghost var before := cache[..];
    at := Append(cache, at0, ms, data[q0]);
    FilledMore(data, p, q0, ps0, before, at0, Choices(ms, data[q0]), cache[..], at);
    q, ps := q0 + 1, ps0 + [Choices(ms, data[q0])];
    if |ms| > 0 && ms[|ms| - 1].length >= MIN_MATCH && ms[|ms| - 1].length >= niceLen {
      LastFits(data, q0, AdjustMaxLen(|data| - q0), ms);
      var end := q0 + ms[|ms| - 1].length;
      while q < end
        invariant q0 < q <= end && BtReady(mf, data, q, niceLen, nice, depth) && Filled(data, p, q, ps, cache[..], at)
        invariant ps == GraphOf(data, nice, depth, p, q)
        invariant at < MATCH_CACHE_LENGTH + MAX_MATCHES_PER_POS + (q - q0)
      {
        var none;
        none, niceLen := AdvanceAt(mf, data, q, niceLen, depth, false, nice);
        NotSearched(data, nice, depth, q0, q);
        GraphMore(data, nice, depth, p, q);
        NoneCached(data, p, q);
        before := cache[..];
        ghost var at1 := at;
        at := Append(cache, at, [], data[q]);
        FilledMore(data, p, q, ps, before, at1, Choices([], data[q]), cache[..], at);
        q, ps := q + 1, ps + [Choices([], data[q])];
      }
    }
  }

  lemma GraphMore(data: seq<u8>, nice: nat, depth: nat, p: nat, q: nat)
    requires p <= q < |data|
    ensures GraphOf(data, nice, depth, p, q + 1) ==
      GraphOf(data, nice, depth, p, q) + [ChoicesAt(data, nice, depth, q)]
  {
    hide IsSearched, MatchesAt;
  }

  lemma FilledFrom(data: seq<u8>, p: nat, q: nat, ps: seq<Choices>, cache: seq<LzMatch>, at: nat)
    requires Filled(data, p, q, ps, cache, at)
    ensures q == p + |ps| <= |data| && at <= |cache|
  {
  }

  lemma LastFits(data: seq<u8>, q: nat, maxLen: nat, ms: seq<LzMatch>)
    requires Matches(data, q, maxLen, ms) && |ms| > 0
    ensures ms[|ms| - 1].length <= maxLen
  {
    hide MatchCommon.Agree;
  }

  // ---- where a block ends

  /** What the block splitting statistics say at a position. */
  datatype Verdict = NotReady | GoOn | EndBlock

  /** How a block ends: at the current position or, if a change in the data has been noticed, where the
      statistics were last checked. */
  datatype Ending = Here | EarlierAt(check: nat)

  ghost predicate Ended(data: seq<u8>, p: nat, q: nat, at: nat, ending: Ending) {
    match ending
    case Here => p < q && q - p <= MAX_BLOCK_LENGTH && (q < |data| ==> q - p >= MIN_BLOCK_LENGTH)
    case EarlierAt(e) =>
      p + MIN_BLOCK_LENGTH <= e < q < |data| && at < MATCH_CACHE_LENGTH
        && q < ChooseMaxBlockEnd(p, |data|, SOFT_MAX_BLOCK_LENGTH)
  }

  /** No more is cached for the block: it is long enough, or the cache is full. */
  ghost predicate Full(data: seq<u8>, nice: nat, depth: nat, p: nat, x: nat)
    requires p <= x <= |data|
  {
    || x >= ChooseMaxBlockEnd(p, |data|, SOFT_MAX_BLOCK_LENGTH)
    || |Flat(GraphOf(data, nice, depth, p, x))| >= MATCH_CACHE_LENGTH
  }

  /** The statistics are looked at between two searches if the block is long enough, and enough is left for another. */
  ghost predicate LookedAt(data: seq<u8>, nice: nat, depth: nat, p: nat, x: nat)
    requires p <= x <= |data|
  {
    IsSearched(data, nice, depth, x) && x - p >= MIN_BLOCK_LENGTH && |data| - x >= MIN_BLOCK_LENGTH
  }

  /** At q, and at no search before it since q0, the cache is full or the verdict is to end the block. */
  ghost predicate FirstStop(data: seq<u8>, nice: nat, depth: nat, check: (nat, nat) -> Verdict, p: nat, q0: nat, q: nat)
    requires p <= q0 <= q <= |data|
  {
    && (Full(data, nice, depth, p, q) || (LookedAt(data, nice, depth, p, q) && check(p, q) == EndBlock))
    && NoStop(data, nice, depth, check, p, q0, q)
  }

  ghost predicate NoStop(data: seq<u8>, nice: nat, depth: nat, check: (nat, nat) -> Verdict, p: nat, q0: nat, q: nat)
    requires p <= q0 <= q <= |data|
  {
    forall x :: q0 < x < q && IsSearched(data, nice, depth, x) ==>
      !Full(data, nice, depth, p, x) && !(LookedAt(data, nice, depth, p, x) && check(p, x) == EndBlock)
  }

  /** The verdict at e was the last one to go on. */
  ghost predicate LastGoOn(data: seq<u8>, nice: nat, depth: nat, check: (nat, nat) -> Verdict, p: nat, q0: nat,
                           q: nat, e: nat)
    requires p <= q0 <= q <= |data|
  {
    && q0 < e <= q && LookedAt(data, nice, depth, p, e) && check(p, e) == GoOn
    && NoGoOn(data, nice, depth, check, p, e, q)
  }

  ghost predicate NoGoOn(data: seq<u8>, nice: nat, depth: nat, check: (nat, nat) -> Verdict, p: nat, e: nat, q: nat)
    requires p <= e <= q <= |data|
  {
    forall x :: e < x <= q && LookedAt(data, nice, depth, p, x) ==> check(p, x) != GoOn
  }

  /** The block ends where the last verdict was to go on, if there was one and the cache is not full. */
  ghost predicate EndsThere(data: seq<u8>, nice: nat, depth: nat, check: (nat, nat) -> Verdict, p: nat, q0: nat,
                            q: nat, ending: Ending)
    requires p <= q0 <= q <= |data|
  {
    match ending
    case Here => Full(data, nice, depth, p, q) || NoGoOn(data, nice, depth, check, p, q0, q)
    case EarlierAt(e) => !Full(data, nice, depth, p, q) && LastGoOn(data, nice, depth, check, p, q0, q, e)
  }

  /** Between two searches there is nothing to stop at. */
  lemma NothingBetween(data: seq<u8>, nice: nat, depth: nat, check: (nat, nat) -> Verdict, p: nat, q0: nat, r: nat)
    requires p <= q0 <= r < NextSearch(data, nice, depth, r) <= |data| && IsSearched(data, nice, depth, r)
    requires NoStop(data, nice, depth, check, p, q0, r)
    requires q0 == r ||
      (!Full(data, nice, depth, p, r) && !(LookedAt(data, nice, depth, p, r) && check(p, r) == EndBlock))
    ensures NoStop(data, nice, depth, check, p, q0, NextSearch(data, nice, depth, r))
  {
    hide NextSearch, IsSearched, Full;
    forall x | r < x < NextSearch(data, nice, depth, r) ensures !IsSearched(data, nice, depth, x) {
      NotSearched(data, nice, depth, r, x);
    }
  }

  lemma NoGoOnSince(data: seq<u8>, nice: nat, depth: nat, check: (nat, nat) -> Verdict, p: nat, e: nat, r: nat, q: nat)
    requires p <= e <= r < q == NextSearch(data, nice, depth, r) && q <= |data| && IsSearched(data, nice, depth, r)
    requires NoGoOn(data, nice, depth, check, p, e, r) && (LookedAt(data, nice, depth, p, q) ==> check(p, q) != GoOn)
    ensures NoGoOn(data, nice, depth, check, p, e, q)
  {
    hide NextSearch, IsSearched;
    forall x | r < x < q ensures !IsSearched(data, nice, depth, x) {
      NotSearched(data, nice, depth, r, x);
    }
  }

  lemma NothingYet(data: seq<u8>, nice: nat, depth: nat, check: (nat, nat) -> Verdict, p: nat, q: nat)
    requires p <= q <= |data|
    ensures NoStop(data, nice, depth, check, p, q, q) && NoGoOn(data, nice, depth, check, p, q, q)
  {
  }

  /** How full the cache is. */
  lemma FilledSize(data: seq<u8>, p: nat, q: nat, ps: seq<Choices>, cache: seq<LzMatch>, at: nat)
    requires Filled(data, p, q, ps, cache, at)
    ensures at == |Flat(ps)|
  {
    hide Flat, Cached;
  }

  /** A full cache holds more than the minimum length of a block. */
  lemma FullIsLong(data: seq<u8>, p: nat, q: nat, ps: seq<Choices>, cache: seq<LzMatch>, at: nat)
    requires Filled(data, p, q, ps, cache, at) && at >= MATCH_CACHE_LENGTH
    ensures q - p >= MIN_BLOCK_LENGTH
  {
    hide Cached;
    FlatSize(data, p, ps);
  }

  /** Caches positions until the block ends; `check` stands for the block splitting heuristics. */
  method FillBlock(mf: BtMatchfinder, data: seq<u8>, p: nat, q0: nat, cache: array<LzMatch>, at0: nat, niceLen0: nat,
                   depth: nat, check: (nat, nat) -> Verdict, ghost ps0: seq<Choices>, ghost nice: nat)
    returns (q: nat, at: nat, niceLen: nat, ending: Ending, ghost ps: seq<Choices>)
    requires BtReady(mf, data, q0, niceLen0, nice, depth) && q0 < |data| && depth >= 1
    requires p <= q0 && ps0 == GraphOf(data, nice, depth, p, q0) && IsSearched(data, nice, depth, q0)
    requires Filled(data, p, q0, ps0, cache[..], at0) && q0 < ChooseMaxBlockEnd(p, |data|, SOFT_MAX_BLOCK_LENGTH)
    requires at0 < MATCH_CACHE_LENGTH && cache.Length == CACHE_SIZE
    modifies mf, mf.hash3a, mf.hash3b, mf.hash4, mf.child, cache
    ensures BtReady(mf, data, q, niceLen, nice, depth) && Filled(data, p, q, ps, cache[..], at) && q <= |data|
    ensures p <= q && ps == GraphOf(data, nice, depth, p, q) && IsSearched(data, nice, depth, q)
    ensures Ended(data, p, q, at, ending) && q0 < q
    ensures FirstStop(data, nice, depth, check, p, q0, q) && EndsThere(data, nice, depth, check, p, q0, q, ending)
  {
    hide Filled, BtReady, GraphOf, IsSearched, NextSearch, NoStop, NoGoOn, Flat;
    FilledFrom(data, p, q0, ps0, cache[..], at0);
    var maxBlockEnd := ChooseMaxBlockEnd(p, |data|, SOFT_MAX_BLOCK_LENGTH);
    var last: nat := p;
    NothingYet(data, nice, depth, check, p, q0);
    q, at, niceLen, ps := q0, at0, niceLen0, ps0;
    while true
      invariant p <= q < maxBlockEnd && at < MATCH_CACHE_LENGTH && last <= q
      invariant (last > p ==> last >= p + MIN_BLOCK_LENGTH)
      invariant if last > p then LastGoOn(data, nice, depth, check, p, q0, q, last)
                else NoGoOn(data, nice, depth, check, p, q0, q)
      invariant NoStop(data, nice, depth, check, p, q0, q)
      invariant q0 == q ||
        (!Full(data, nice, depth, p, q) && !(LookedAt(data, nice, depth, p, q) && check(p, q) == EndBlock))
      invariant BtReady(mf, data, q, niceLen, nice, depth) && Filled(data, p, q, ps, cache[..], at) && q0 <= q < |data|
      invariant ps == GraphOf(data, nice, depth, p, q) && IsSearched(data, nice, depth, q)
      decreases maxBlockEnd - q
    {
      ghost var r := q;
      q, at, niceLen, ps := CachePosition(mf, data, p, q, cache, at, niceLen, depth, ps, nice);
      NothingBetween(data, nice, depth, check, p, q0, r);
      FilledSize(data, p, q, ps, cache[..], at);
      if q >= maxBlockEnd {
        return q, at, niceLen, Here, ps;
      }
      if at >= MATCH_CACHE_LENGTH {
        FullIsLong(data, p, q, ps, cache[..], at);
        return q, at, niceLen, Here, ps;
      }
      if !LookedAt(data, nice, depth, p, q) || check(p, q) != GoOn {
        NoGoOnSince(data, nice, depth, check, p, if last > p then last else q0, r, q);
      } else {
        NothingYet(data, nice, depth, check, p, q);
      }
      if q - p >= MIN_BLOCK_LENGTH && |data| - q >= MIN_BLOCK_LENGTH {
        match check(p, q) {
          case NotReady =>
          case EndBlock =>
            return q, at, niceLen, if last > p then EarlierAt(last) else Here, ps;
          case GoOn =>
            last := q;
        }
      }
    }
  }

  // ---- ending a block early

  /** Goes back over the entries of the positions from e to q. */
  method Rewind(data: seq<u8>, p: nat, e: nat, q: nat, cache: seq<LzMatch>, at: nat, ghost ps: seq<Choices>)
    returns (at': nat)
    requires Filled(data, p, q, ps, cache, at) && p <= e < q
    ensures at' <= at && Filled(data, p, e, ps[..e - p], cache, at')
    ensures Filled(data, e, q, ps[e - p..], cache[at'..at], at - at')
  {
    hide Flat, Cached;
    at' := at;
    var left: nat := q - e;
    assert ps[..q - p] == ps;
    while true
      invariant 0 < left <= q - e && at' <= at && cache[..at'] == Flat(ps[..e - p + left])
      decreases left
    {
      CacheAt(ps, e - p + left - 1);
      assert cache[..at'][at' - 1] == cache[at' - 1];
      at' := at' - 1;
      assert cache[..at' - cache[at'].length] == cache[..at' + 1][..at' - cache[at'].length];
      at' := at' - cache[at'].length;
      left := left - 1;
      if left == 0 {
        break;
      }
    }
    CachedRest(data, p, ps, e - p);
    FlatSplit(ps, e - p);
    assert cache[..at] == cache[..at'] + cache[at'..at];
    assert cache[at'..at][..at - at'] == cache[at'..at];
  }

  /** Moves the entries from `from` to `at` to the start of the cache. */
  method MoveRest(cache: array<LzMatch>, from: nat, at: nat)
    requires from <= at <= cache.Length
    modifies cache
    ensures cache[..at - from] == old(cache[from..at])
  {
    ghost var was := cache[..];
    for i := 0 to at - from
      invariant forall j :: 0 <= j < i ==> cache[j] == was[from + j]
      invariant forall j :: i <= j < cache.Length ==> cache[j] == was[j]
    {
      cache[i] := cache[from + i];
    }
    assert cache[..at - from] == was[from..at];
  }
}
