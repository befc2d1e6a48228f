/** The near-optimal parser's search for a path of least cost through the choices of a block. */
module MinCostPath {
  import opened Packed
  import opened BitBuffer
  import opened MatchCommon
  import opened Slots
  import opened Items
  import opened WriteBlock

  /** What has been found at a position: its matches, longer and longer, and its literal. */
  datatype Choices = Choices(matches: seq<LzMatch>, literal: u8)

  ghost predicate ValidChoices(c: Choices) {
    && (forall k :: 0 <= k < |c.matches| ==>
          MIN_MATCH <= c.matches[k].length <= MAX_MATCH && 1 <= c.matches[k].offset <= MAX_OFFSET)
    && forall j, k :: 0 <= j < k < |c.matches| ==> c.matches[j].length < c.matches[k].length
  }

  /** The match cache: for each position its matches and, behind them, their number and the literal. */
  ghost function Flat(ps: seq<Choices>): seq<LzMatch> {
    if ps == [] then []
    else
      var c := ps[|ps| - 1];
      Flat(ps[..|ps| - 1]) + c.matches + [LzMatch(|c.matches|, c.literal)]
  }

  datatype CostModel = CostModel(literal: seq<u32>, length: seq<u32>, offsetSlot: seq<u32>)

  /** What the costs of nodes behind the end of the block are set to. */
  const UNREACHABLE: nat := 0x8000_0000

  ghost predicate ValidCosts(c: CostModel, end: nat, maxLiteral: nat) {
    && |c.literal| == 256 && |c.length| == MAX_MATCH + 1 && |c.offsetSlot| >= OFFSET_SLOTS
    && (forall b :: 0 <= b < 256 ==> c.literal[b] <= maxLiteral)
    && (forall l :: 0 <= l <= MAX_MATCH ==> c.length[l] < 0x4000_0000)
    && (forall s :: 0 <= s < OFFSET_SLOTS ==> c.offsetSlot[s] < 0x4000_0000)
    && maxLiteral * end < UNREACHABLE
  }

  // ---- the graph

  /** The first match that is long enough. */
  ghost function FirstReaching(ms: seq<LzMatch>, len: nat): (k: nat)
    requires ms != [] && len <= ms[|ms| - 1].length
    ensures k < |ms| && len <= ms[k].length && forall j :: 0 <= j < k ==> ms[j].length < len
  {
    if len <= ms[0].length then 0 else 1 + FirstReaching(ms[1..], len)
  }

  /** The literal of a position is an edge, and so is every length up to the longest match, each with the
      first match that reaches it. */
  ghost predicate Edge(c: Choices, v: Node) {
    if v.length == 1 then v.offset == c.literal
    else
      && c.matches != [] && MIN_MATCH <= v.length <= c.matches[|c.matches| - 1].length
      && v.offset == c.matches[FirstReaching(c.matches, v.length)].offset
  }

  ghost function EdgeCost(costs: CostModel, v: Node): nat
    requires |costs.literal| == 256 && |costs.length| == MAX_MATCH + 1 && |costs.offsetSlot| >= OFFSET_SLOTS
  {
    if v.length == 1 then if v.offset < 256 then costs.literal[v.offset] else 0
    else if v.length <= MAX_MATCH then costs.length[v.length] as int
      + costs.offsetSlot[OffsetSlot(v.offset)] as int else 0
  }

  /** The steps lead from p to the end of the block, edge by edge. */
  ghost predicate PathFrom(ps: seq<Choices>, p: nat, steps: seq<Node>)
    decreases |steps|
  {
    if steps == [] then p == |ps|
    else
      && p < |ps| && Edge(ps[p], steps[0]) && p + steps[0].length <= |ps|
      && PathFrom(ps, p + steps[0].length, steps[1..])
  }

  ghost function PathCost(costs: CostModel, steps: seq<Node>): nat
    requires |costs.literal| == 256 && |costs.length| == MAX_MATCH + 1 && |costs.offsetSlot| >= OFFSET_SLOTS
  {
    if steps == [] then 0 else EdgeCost(costs, steps[0]) + PathCost(costs, steps[1..])
  }

  /** The item stored at p is an edge that stays in the block and explains the cost stored there. */
  ghost predicate Explained(ps: seq<Choices>, costs: CostModel, cost: seq<u32>, items: seq<Node>, p: nat)
    requires |costs.literal| == 256 && |costs.length| == MAX_MATCH + 1 && |costs.offsetSlot| >= OFFSET_SLOTS
  {
    && p < |ps| < |cost| && p < |items|
    && Edge(ps[p], items[p]) && 0 < items[p].length && p + items[p].length <= |ps|
    && cost[p] == EdgeCost(costs, items[p]) + cost[p + items[p].length]
  }

  /** No edge at p leads to a lower cost. */
  ghost predicate Least(ps: seq<Choices>, costs: CostModel, cost: seq<u32>, p: nat)
    requires |costs.literal| == 256 && |costs.length| == MAX_MATCH + 1 && |costs.offsetSlot| >= OFFSET_SLOTS
  {
    && p < |ps| < |cost|
    && forall v: Node :: Edge(ps[p], v) && p + v.length <= |ps| ==> cost[p] <= EdgeCost(costs, v) + cost[p + v.length]
  }

  /** From p on the costs and items are right. */
  ghost predicate Solved(ps: seq<Choices>, costs: CostModel, cost: seq<u32>, items: seq<Node>, p: nat)
    requires |costs.literal| == 256 && |costs.length| == MAX_MATCH + 1 && |costs.offsetSlot| >= OFFSET_SLOTS
  {
    && p <= |ps| < |cost| && |ps| <= |items| && cost[|ps|] == 0
    && forall i :: p <= i < |ps| ==> Explained(ps, costs, cost, items, i) && Least(ps, costs, cost, i)
  }

  lemma SolvedLater(ps: seq<Choices>, costs: CostModel, cost: seq<u32>, items: seq<Node>, p: nat, q: nat)
    requires |costs.literal| == 256 && |costs.length| == MAX_MATCH + 1 && |costs.offsetSlot| >= OFFSET_SLOTS
    requires Solved(ps, costs, cost, items, p) && p <= q <= |ps|
    ensures Solved(ps, costs, cost, items, q)
  {
    hide Explained, Least;
    forall i | q <= i < |ps|
      ensures Explained(ps, costs, cost, items, i) && Least(ps, costs, cost, i)
    {
    }
  }

  // ---- what the stored costs mean

  /** No path is cheaper than the cost stored where it starts. */
  lemma {:induction false} NoCheaperPath(ps: seq<Choices>, costs: CostModel, cost: seq<u32>, items: seq<Node>, p: nat,
                                         q: nat, steps: seq<Node>)
    requires |costs.literal| == 256 && |costs.length| == MAX_MATCH + 1 && |costs.offsetSlot| >= OFFSET_SLOTS
    requires Solved(ps, costs, cost, items, p) && p <= q <= |ps| && PathFrom(ps, q, steps)
    ensures cost[q] <= PathCost(costs, steps)
    decreases |steps|
  {
    hide EdgeCost, Edge, Explained;
    if steps != [] {
      assert Least(ps, costs, cost, q);
      NoCheaperPath(ps, costs, cost, items, p, q + steps[0].length, steps[1..]);
    }
  }

  /** The steps that the stored items make from p on. */
  ghost function Following(ps: seq<Choices>, costs: CostModel, cost: seq<u32>, items: seq<Node>, p: nat): seq<Node>
    requires |costs.literal| == 256 && |costs.length| == MAX_MATCH + 1 && |costs.offsetSlot| >= OFFSET_SLOTS
    requires Solved(ps, costs, cost, items, p)
    decreases |ps| - p
  {
    if p == |ps| then []
    else
      assert Explained(ps, costs, cost, items, p);
      SolvedLater(ps, costs, cost, items, p, p + items[p].length);
      [items[p]] + Following(ps, costs, cost, items, p + items[p].length)
  }

  /** Following the stored items leads exactly to the end of the block, at the stored cost. */
  lemma {:induction false} FollowingIsPath(ps: seq<Choices>, costs: CostModel, cost: seq<u32>, items: seq<Node>, p: nat)
    requires |costs.literal| == 256 && |costs.length| == MAX_MATCH + 1 && |costs.offsetSlot| >= OFFSET_SLOTS
    requires Solved(ps, costs, cost, items, p)
    ensures PathFrom(ps, p, Following(ps, costs, cost, items, p))
    ensures PathCost(costs, Following(ps, costs, cost, items, p)) == cost[p]
    decreases |ps| - p
  {
    hide EdgeCost, Edge, Least;
    if p < |ps| {
      assert Explained(ps, costs, cost, items, p);
      SolvedLater(ps, costs, cost, items, p, p + items[p].length);
      FollowingIsPath(ps, costs, cost, items, p + items[p].length);
    }
  }

  // ---- the search

  /** The best edge so far at the current node. */
  ghost predicate BestOf(ps: seq<Choices>, costs: CostModel, cost: seq<u32>, cur: nat, upTo: nat, best: nat, item: Node)
    requires |costs.literal| == 256 && |costs.length| == MAX_MATCH + 1 && |costs.offsetSlot| >= OFFSET_SLOTS
  {
    && cur < |ps| < |cost| && best < UNREACHABLE
    && Edge(ps[cur], item) && 0 < item.length && cur + item.length < |cost|
    && best == EdgeCost(costs, item) + cost[cur + item.length]
    && forall v: Node :: Edge(ps[cur], v) && v.length < upTo && cur + v.length < |cost| ==>
         best <= EdgeCost(costs, v) + cost[cur + v.length]
  }

  /** Nodes behind the end are out of reach. */
  ghost predicate Fenced(cost: seq<u32>, end: nat) {
    end < |cost| && forall i :: end < i < |cost| && i < end + MAX_MATCH ==> cost[i] == UNREACHABLE
  }

  lemma FenceHolds(ps: seq<Choices>, costs: CostModel, cost: seq<u32>, cur: nat, upTo: nat, best: nat, item: Node)
    requires |costs.literal| == 256 && |costs.length| == MAX_MATCH + 1 && |costs.offsetSlot| >= OFFSET_SLOTS
    requires BestOf(ps, costs, cost, cur, upTo, best, item) && cur < |ps| && ValidChoices(ps[cur]) && Fenced(cost, |ps|)
    ensures cur + item.length <= |ps|
  {
    hide EdgeCost;
  }

  /** Storing a node's result leaves the nodes behind it solved. */
  lemma OthersStay(ps: seq<Choices>, costs: CostModel, cost: seq<u32>, items: seq<Node>, cur: nat, best: u32,
                   item: Node, i: nat)
    requires |costs.literal| == 256 && |costs.length| == MAX_MATCH + 1 && |costs.offsetSlot| >= OFFSET_SLOTS
    requires cur < i && cur < |cost| && cur < |items|
    requires Explained(ps, costs, cost, items, i) && Least(ps, costs, cost, i)
    ensures Explained(ps, costs, cost[cur := best], items[cur := item], i) && Least(ps, costs, cost[cur := best], i)
  {
    hide EdgeCost, Edge;
  }

  /** The best edge explains the cost, and no edge is better. */
  lemma BestIsSolved(ps: seq<Choices>, costs: CostModel, cost: seq<u32>, items: seq<Node>, cur: nat, upTo: nat,
                     best: u32, item: Node)
    requires |costs.literal| == 256 && |costs.length| == MAX_MATCH + 1 && |costs.offsetSlot| >= OFFSET_SLOTS
    requires BestOf(ps, costs, cost, cur, upTo, best, item) && cur + item.length <= |ps| && cur < |items|
    requires forall v: Node :: Edge(ps[cur], v) ==> 0 < v.length < upTo
    ensures Explained(ps, costs, cost[cur := best], items[cur := item], cur) && Least(ps, costs, cost[cur := best], cur)
  {
    hide EdgeCost, Edge;
    var cost' := cost[cur := best];
    assert cost'[cur + item.length] == cost[cur + item.length];
    forall v: Node | Edge(ps[cur], v) && cur + v.length <= |ps|
      ensures cost'[cur] <= EdgeCost(costs, v) + cost'[cur + v.length]
    {
      assert cost'[cur + v.length] == cost[cur + v.length];
    }
  }

  /** All edges have been looked at: the node is solved. */
  lemma NodeSolved(ps: seq<Choices>, costs: CostModel, cost: seq<u32>, items: seq<Node>, cur: nat, upTo: nat, best: u32,
                   item: Node)
    requires |costs.literal| == 256 && |costs.length| == MAX_MATCH + 1 && |costs.offsetSlot| >= OFFSET_SLOTS
    requires BestOf(ps, costs, cost, cur, upTo, best, item) && cur < |ps| && ValidChoices(ps[cur]) && Fenced(cost, |ps|)
    requires |cost| == |items|
    requires Solved(ps, costs, cost, items, cur + 1) && forall v: Node :: Edge(ps[cur], v) ==> 0 < v.length < upTo
    ensures Solved(ps, costs, cost[cur := best], items[cur := item], cur)
  {
    hide EdgeCost, Edge, Explained, Least;
    FenceHolds(ps, costs, cost, cur, upTo, best, item);
    var cost', items' := cost[cur := best], items[cur := item];
    BestIsSolved(ps, costs, cost, items, cur, upTo, best, item);
    forall i | cur <= i < |ps|
      ensures Explained(ps, costs, cost', items', i) && Least(ps, costs, cost', i)
    {
      if i > cur {
        OthersStay(ps, costs, cost, items, cur, best, item, i);
      }
    }
  }

  lemma EdgeLengths(c: Choices)
    requires ValidChoices(c)
    ensures forall v: Node :: Edge(c, v) ==>
      0 < v.length < if c.matches == [] then 2 else c.matches[|c.matches| - 1].length + 1
  {
  }

  /** One more match length is considered. */
  lemma LengthConsidered(ps: seq<Choices>, costs: CostModel, cost: seq<u32>, cur: nat, best: nat, item: Node, k: nat,
                         len: nat)
    requires |costs.literal| == 256 && |costs.length| == MAX_MATCH + 1 && |costs.offsetSlot| >= OFFSET_SLOTS
    requires cur < |ps| && ValidChoices(ps[cur]) && k < |ps[cur].matches|
    requires MIN_MATCH <= len <= ps[cur].matches[k].length
    requires k > 0 ==> ps[cur].matches[k - 1].length < len
    requires BestOf(ps, costs, cost, cur, len, best, item) && cur + len < |cost|
    ensures var v := Node(len, ps[cur].matches[k].offset);
      var c := costs.offsetSlot[OffsetSlot(v.offset)] as int + costs.length[len] as int + cost[cur + len] as int;
      if c < best then BestOf(ps, costs, cost, cur, len + 1, c, v)
      else BestOf(ps, costs, cost, cur, len + 1, best, item)
  {
    hide OffsetSlot;
    var ms := ps[cur].matches;
    FirstIs(ms, len, k);
    var w := Node(len, ms[k].offset);
    assert forall v: Node :: Edge(ps[cur], v) && v.length == len ==> v == w;
  }

  lemma {:induction false} FirstIs(ms: seq<LzMatch>, len: nat, k: nat)
    requires k < |ms| && len <= ms[k].length && (k > 0 ==> ms[k - 1].length < len)
    requires forall i, j :: 0 <= i < j < |ms| ==> ms[i].length < ms[j].length
    ensures len <= ms[|ms| - 1].length && FirstReaching(ms, len) == k
  {
    assert forall j :: 0 <= j < k ==> ms[j].length <= ms[k - 1].length;
  }

  /** The literal is considered first. */
  lemma LiteralConsidered(ps: seq<Choices>, costs: CostModel, cost: seq<u32>, cur: nat)
    requires |costs.literal| == 256 && |costs.length| == MAX_MATCH + 1 && |costs.offsetSlot| >= OFFSET_SLOTS
    requires cur < |ps| < |cost| && ValidChoices(ps[cur])
    requires costs.literal[ps[cur].literal] as int + cost[cur + 1] as int < UNREACHABLE
    ensures BestOf(ps, costs, cost, cur, MIN_MATCH, costs.literal[ps[cur].literal] as int + cost[cur + 1] as int,
                   Node(1, ps[cur].literal))
  {
  }

  // ---- in place

  /** The part of the cache that belongs to a position. */
  lemma CacheAt(ps: seq<Choices>, cur: nat)
    requires cur < |ps|
    ensures Flat(ps[..cur + 1]) == Flat(ps[..cur]) + ps[cur].matches + [LzMatch(|ps[cur].matches|, ps[cur].literal)]
  {
    assert ps[..cur + 1][..cur] == ps[..cur];
  }

  /** What the search at one node needs to know about the nodes. */
  ghost predicate Graph(ps: seq<Choices>, costs: CostModel, size: nat, maxLiteral: nat) {
    && 0 < |ps| < size && ValidCosts(costs, |ps|, maxLiteral)
    && (forall p :: 0 <= p < |ps| ==> ValidChoices(ps[p]))
    && forall p, k :: 0 <= p < |ps| && 0 <= k < |ps[p].matches| ==> p + ps[p].matches[k].length < size
  }

  /** Looks at every match length at a node; `cache[at - n..at]` are its matches. */
  method SearchMatches(cache: seq<LzMatch>, at: nat, n: nat, costs: CostModel, cost: array<u32>, items: array<Node>,
                       cur: nat, start: u32, ghost ps: seq<Choices>, ghost maxLiteral: nat)
      returns (best: u32)
    requires cost.Length == items.Length && Graph(ps, costs, cost.Length, maxLiteral) && cur < |ps|
    requires 0 < n <= at <= |cache| && cache[at - n..at] == ps[cur].matches
    requires BestOf(ps, costs, cost[..], cur, MIN_MATCH, start, items[cur])
    requires forall i :: cur < i < cost.Length && i < |ps| + MAX_MATCH ==> cost[i] <= UNREACHABLE
    modifies items
    ensures BestOf(ps, costs, cost[..], cur, ps[cur].matches[n - 1].length + 1, best, items[cur]) && best <= start
    ensures items[..] == old(items[..])[cur := items[cur]]
  {
    hide OffsetSlot, BestOf;
    best := start;
    ghost var ms := ps[cur].matches;
    var m, len: nat := at - n, MIN_MATCH;
    while m < at
      invariant at - n <= m <= at && len == (if m == at - n then MIN_MATCH else ms[m - (at - n) - 1].length + 1)
      invariant best <= start && BestOf(ps, costs, cost[..], cur, len, best, items[cur])
      invariant items[..] == old(items[..])[cur := items[cur]]
    {
      ghost var k: nat := m - (at - n);
      assert cache[m] == cache[at - n..at][k] == ms[k];
      var offset, length := cache[m].offset, cache[m].length;
      var offsetCost := costs.offsetSlot[OffsetSlot(offset)];
      while true
        invariant (if k == 0 then MIN_MATCH else ms[k - 1].length + 1) <= len <= length
        invariant best <= start && BestOf(ps, costs, cost[..], cur, len, best, items[cur])
        invariant items[..] == old(items[..])[cur := items[cur]]
        decreases length - len
      {
        LengthConsidered(ps, costs, cost[..], cur, best, items[cur], k, len);
        var c: u32 := offsetCost as int + costs.length[len] as int + cost[cur + len] as int;
        if c < best {
          best, items[cur] := c, Node(len, offset);
        }
        len := len + 1;
        if len > length {
          break;
        }
      }
      m := m + 1;
    }
  }

  /** The costs from cur on are no higher than those of literals only. */
  ghost predicate Modest(cost: seq<u32>, cur: nat, end: nat, maxLiteral: nat) {
    end < |cost| && forall i :: cur <= i <= end ==> cost[i] <= maxLiteral * (end - i)
  }

  lemma ModestMore(cost: seq<u32>, cur: nat, end: nat, maxLiteral: nat, literal: nat, best: u32)
    requires Modest(cost, cur + 1, end, maxLiteral) && cur < end && maxLiteral * end < UNREACHABLE
    requires literal <= maxLiteral && best <= literal + cost[cur + 1] as int
    ensures Modest(cost[cur := best], cur, end, maxLiteral) && literal + cost[cur + 1] as int < UNREACHABLE
  {
    MulStep(maxLiteral, end - cur - 1);
    MulMono(maxLiteral, end - cur, end);
  }

  lemma MulStep(a: nat, b: nat)
    ensures a * b + a == a * (b + 1)
  {
  }

  lemma MulMono(a: nat, b: nat, c: nat)
    requires b <= c
    ensures a * b <= a * c
  {
  }

  /** Nothing that a match can reach costs more than the fence. */
  lemma NoneAbove(cost: seq<u32>, cur: nat, end: nat, maxLiteral: nat)
    requires Modest(cost, cur, end, maxLiteral) && maxLiteral * end < UNREACHABLE && Fenced(cost, end)
    ensures forall i :: cur <= i < |cost| && i < end + MAX_MATCH ==> cost[i] <= UNREACHABLE
  {
    forall i | cur <= i <= end ensures cost[i] <= UNREACHABLE {
      MulMono(maxLiteral, end - i, end);
    }
  }

  /** What holds when the nodes from cur on are done. */
  ghost predicate Reached(ps: seq<Choices>, costs: CostModel, cost: seq<u32>, items: seq<Node>, cur: nat,
                          maxLiteral: nat)
    requires |costs.literal| == 256 && |costs.length| == MAX_MATCH + 1 && |costs.offsetSlot| >= OFFSET_SLOTS
  {
    && |cost| == |items| && cur <= |ps|
    && Fenced(cost, |ps|) && Modest(cost, cur, |ps|, maxLiteral) && Solved(ps, costs, cost, items, cur)
  }

  lemma ReachedMore(ps: seq<Choices>, costs: CostModel, cost: seq<u32>, items: seq<Node>, cur: nat, maxLiteral: nat,
                    upTo: nat, best: u32, item: Node)
    requires Graph(ps, costs, |cost|, maxLiteral) && cur < |ps|
    requires Reached(ps, costs, cost, items, cur + 1, maxLiteral)
    requires BestOf(ps, costs, cost, cur, upTo, best, item)
    requires forall v: Node :: Edge(ps[cur], v) ==> 0 < v.length < upTo
    requires best <= costs.literal[ps[cur].literal] as int + cost[cur + 1] as int
    ensures Reached(ps, costs, cost[cur := best], items[cur := item], cur, maxLiteral)
  {
    hide BestOf, Solved, Edge, Modest, ValidChoices;
    NodeSolved(ps, costs, cost, items, cur, upTo, best, item);
    ModestMore(cost, cur, |ps|, maxLiteral, costs.literal[ps[cur].literal], best);
  }

  lemma LiteralStarts(ps: seq<Choices>, costs: CostModel, cost: seq<u32>, items: seq<Node>, cur: nat, maxLiteral: nat)
    requires Graph(ps, costs, |cost|, maxLiteral) && cur < |ps|
    requires Reached(ps, costs, cost, items, cur + 1, maxLiteral)
    ensures var c := costs.literal[ps[cur].literal] as int + cost[cur + 1] as int;
      c < UNREACHABLE && BestOf(ps, costs, cost, cur, MIN_MATCH, c, Node(1, ps[cur].literal))
    ensures forall i :: cur < i < |cost| && i < |ps| + MAX_MATCH ==> cost[i] <= UNREACHABLE
  {
    hide Solved, Edge, Modest, BestOf;
    ModestMore(cost, cur, |ps|, maxLiteral, costs.literal[ps[cur].literal], 0);
    LiteralConsidered(ps, costs, cost, cur);
    NoneAbove(cost, cur + 1, |ps|, maxLiteral);
  }

  /** One node: its literal, its matches, its cost. */
  method SearchNode(cache: seq<LzMatch>, at: nat, costs: CostModel, cost: array<u32>, items: array<Node>, cur: nat,
                    ghost ps: seq<Choices>, ghost maxLiteral: nat)
      returns (rest: nat)
    requires cost.Length == items.Length && Graph(ps, costs, cost.Length, maxLiteral) && cur < |ps|
    requires at <= |cache| && cache[..at] == Flat(ps[..cur + 1])
    requires Reached(ps, costs, cost[..], items[..], cur + 1, maxLiteral)
    modifies cost, items
    ensures rest <= |cache| && cache[..rest] == Flat(ps[..cur])
    ensures Reached(ps, costs, cost[..], items[..], cur, maxLiteral)
    ensures items[..] == old(items[..])[cur := items[cur]]
  {
    hide OffsetSlot, BestOf, Edge, Reached, Flat, FirstReaching;
    ghost var before, chosen := items[..], cost[..];
    LiteralStarts(ps, costs, chosen, before, cur, maxLiteral);
    CacheAt(ps, cur);
    ghost var front := |Flat(ps[..cur])|;
    rest := at - 1;
    var n, literal := cache[rest].length, cache[rest].offset;
    assert n == |ps[cur].matches| && literal == ps[cur].literal by {
      assert cache[..at][at - 1] == cache[rest];
    }
    var best: u32 := costs.literal[literal] as int + cost[cur + 1] as int;
    items[cur] := Node(1, literal);
    ghost var upTo := MIN_MATCH;
    EdgeLengths(ps[cur]);
    if n > 0 {
      assert cache[rest - n..rest] == ps[cur].matches by {
        assert cache[rest - n..rest] == cache[..at][rest - n..rest];
      }
      best := SearchMatches(cache, rest, n, costs, cost, items, cur, best, ps, maxLiteral);
      upTo := ps[cur].matches[n - 1].length + 1;
      rest := rest - n;
    }
    assert cache[..rest] == cache[..at][..rest];
    assert items[..] == before[cur := items[cur]];
    ReachedMore(ps, costs, chosen, before, cur, maxLiteral, upTo, best, items[cur]);
    cost[cur] := best;
    assert cost[..] == chosen[cur := best];
  }

  /** Finds at every node the least cost to the end of the block, and the item that starts such a path. */
  method FindMinCostPath(cache: seq<LzMatch>, cacheEnd: nat, end: nat, costs: CostModel, cost: array<u32>,
                         items: array<Node>, ghost ps: seq<Choices>, ghost maxLiteral: nat)
    requires |ps| == end && cost.Length == items.Length && Graph(ps, costs, cost.Length, maxLiteral)
    requires cacheEnd <= |cache| && cache[..cacheEnd] == Flat(ps) && Fenced(cost[..], end)
    modifies cost, items
    ensures Solved(ps, costs, cost[..], items[..], 0) && Fenced(cost[..], end)
    ensures items[end..] == old(items[end..])
  {
    hide Solved, Modest, Flat, Graph;
    assert ValidCosts(costs, end, maxLiteral) && 0 < end < cost.Length by {
      GraphParts(ps, costs, cost.Length, maxLiteral);
    }
    cost[end] := 0;
    var cur, at: nat := end, cacheEnd;
    NothingLeft(ps, costs, cost[..], items[..], maxLiteral);
    assert ps[..end] == ps;
    while true
      invariant 0 < cur <= end && at <= |cache| && cache[..at] == Flat(ps[..cur])
      invariant Reached(ps, costs, cost[..], items[..], cur, maxLiteral)
      invariant items[end..] == old(items[end..])
      decreases cur
    {
      cur := cur - 1;
      at := SearchNode(cache, at, costs, cost, items, cur, ps, maxLiteral);
      if cur == 0 {
        break;
      }
    }
  }

  lemma GraphParts(ps: seq<Choices>, costs: CostModel, size: nat, maxLiteral: nat)
    requires Graph(ps, costs, size, maxLiteral)
    ensures 0 < |ps| < size && ValidCosts(costs, |ps|, maxLiteral)
  {
  }

  lemma NothingLeft(ps: seq<Choices>, costs: CostModel, cost: seq<u32>, items: seq<Node>, maxLiteral: nat)
    requires |costs.literal| == 256 && |costs.length| == MAX_MATCH + 1 && |costs.offsetSlot| >= OFFSET_SLOTS
    requires |ps| < |cost| == |items| && cost[|ps|] == 0
    ensures Solved(ps, costs, cost, items, |ps|) && Modest(cost, |ps|, |ps|, maxLiteral)
  {
  }
}
