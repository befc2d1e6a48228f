/** Blocks of the near-optimal parser: the path of least cost as the choice for a block. */
module PathBlocks {
  import opened Arith
  import opened Packed
  import opened LengthCounts
  import opened BitBuffer
  import opened MatchCommon
  import opened Slots
  import opened Items
  import opened WriteBlock
  import opened Costs
  import opened BlockForms
  import opened Sequences
  import opened MinCostPath

  // ---- cached matches are true

  /** The choices at a position are the byte there and true matches. */
  ghost predicate TrueAt(data: seq<u8>, q: nat, c: Choices) {
    && ValidChoices(c) && q < |data| && c.literal == data[q]
    && forall k :: 0 <= k < |c.matches| ==>
         c.matches[k].offset <= q && MatchCommon.Agree(data, q - c.matches[k].offset, q, c.matches[k].length)
  }

  ghost predicate AllTrue(data: seq<u8>, p: nat, ps: seq<Choices>) {
    p + |ps| <= |data| && forall i :: 0 <= i < |ps| ==> TrueAt(data, p + i, ps[i])
  }

  /** An edge stands for the bytes it covers. */
  lemma EdgeStands(data: seq<u8>, q: nat, c: Choices, v: Node)
    requires TrueAt(data, q, c) && Edge(c, v) && q + v.length <= |data|
    ensures v.length > 0 && (v.length == 1 ==> v.offset < 256) && ValidItem(NodeItem(v))
    ensures StandsAt(data, q, NodeItem(v))
    ensures v.length != 1 ==> MIN_MATCH <= v.length <= MAX_MATCH && 1 <= v.offset <= MAX_OFFSET
  {
    hide MatchCommon.Agree;
    if v.length != 1 {
      var k := FirstReaching(c.matches, v.length);
      assert MIN_MATCH <= c.matches[k].length <= MAX_MATCH;
      BytesRepeat(data, q, c.matches[k].length, v.length, v.offset);
    }
  }

  lemma BytesRepeat(data: seq<u8>, q: nat, n: nat, length: nat, offset: nat)
    requires offset <= q && length <= n && MatchCommon.Agree(data, q - offset, q, n)
    ensures q + length <= |data| && forall i :: q <= i < q + length ==> data[i] == data[i - offset]
  {
    forall i | q <= i < q + length ensures data[i] == data[i - offset] {
      MatchCommon.AgreeAt(data, q - offset, q, n, i - q);
    }
  }

  /** The stored items make a path. */
  lemma {:induction false} SolvedPath(data: seq<u8>, p: nat, ps: seq<Choices>, costs: CostModel, cost: seq<u32>,
                                      items: seq<Node>, q: nat)
    requires |costs.literal| == 256 && |costs.length| == MAX_MATCH + 1 && |costs.offsetSlot| >= OFFSET_SLOTS
    requires Solved(ps, costs, cost, items, q) && AllTrue(data, p, ps)
    ensures q <= |ps| <= |items| && Path(items, q, |ps|)
    decreases |ps| - q
  {
    hide Edge, EdgeCost, Least, TrueAt;
    if q < |ps| {
      assert Explained(ps, costs, cost, items, q);
      EdgeStands(data, p + q, ps[q], items[q]);
      SolvedLater(ps, costs, cost, items, q, q + items[q].length);
      SolvedPath(data, p, ps, costs, cost, items, q + items[q].length);
    }
  }

  /** The items on the path stand for the bytes of the block. */
  lemma {:induction false} SolvedTiles(data: seq<u8>, p: nat, ps: seq<Choices>, costs: CostModel, cost: seq<u32>,
                                       items: seq<Node>, q: nat)
    requires |costs.literal| == 256 && |costs.length| == MAX_MATCH + 1 && |costs.offsetSlot| >= OFFSET_SLOTS
    requires Solved(ps, costs, cost, items, q) && AllTrue(data, p, ps) && Path(items, q, |ps|)
    ensures Tiles(data, p + q, PathItems(items, q, |ps|), p + |ps|) && AllValid(PathItems(items, q, |ps|))
    decreases |ps| - q
  {
    hide Edge, EdgeCost, Least, TrueAt;
    if q < |ps| {
      assert Explained(ps, costs, cost, items, q);
      EdgeStands(data, p + q, ps[q], items[q]);
      var q' := q + items[q].length;
      SolvedLater(ps, costs, cost, items, q, q');
      SolvedTiles(data, p, ps, costs, cost, items, q');
      Ahead(data, p + q, NodeItem(items[q]), PathItems(items, q', |ps|), p + |ps|);
    }
  }

  lemma Ahead(data: seq<u8>, q: nat, it: Item, more: seq<Item>, e: nat)
    requires ValidItem(it) && StandsAt(data, q, it) && AllValid(more)
    requires Tiles(data, q + match it case Literal(_) => 1 case Match(length, _) => length, more, e)
    ensures Tiles(data, q, [it] + more, e) && AllValid([it] + more)
  {
    assert ([it] + more)[1..] == more;
  }

  // ---- the cheapest items

  ghost predicate AllItems(steps: seq<Node>) {
    forall k :: 0 <= k < |steps| ==> steps[k].length == 1 ==> steps[k].offset < 256
  }

  ghost function StepItems(steps: seq<Node>): (items: seq<Item>)
    requires AllItems(steps)
    ensures |items| == |steps| && forall k :: 0 <= k < |items| ==> items[k] == NodeItem(steps[k])
  {
    seq(|steps|, k requires 0 <= k < |steps| => NodeItem(steps[k]))
  }

  /** The items are those of a path through the choices, and none is cheaper. */
  ghost predicate CheapestItems(ps: seq<Choices>, costs: CostModel, items: seq<Item>) {
    && |costs.literal| == 256 && |costs.length| == MAX_MATCH + 1 && |costs.offsetSlot| >= OFFSET_SLOTS
    && exists steps: seq<Node> ::
      && PathFrom(ps, 0, steps) && AllItems(steps) && items == StepItems(steps)
      && forall other: seq<Node> :: PathFrom(ps, 0, other) ==> PathCost(costs, steps) <= PathCost(costs, other)
  }

  lemma {:induction false} FollowingItems(ps: seq<Choices>, costs: CostModel, cost: seq<u32>, nodes: seq<Node>, q: nat)
    requires |costs.literal| == 256 && |costs.length| == MAX_MATCH + 1 && |costs.offsetSlot| >= OFFSET_SLOTS
    requires Solved(ps, costs, cost, nodes, q) && Path(nodes, q, |ps|)
    ensures var steps := Following(ps, costs, cost, nodes, q);
      AllItems(steps) && StepItems(steps) == PathItems(nodes, q, |ps|)
    decreases |ps| - q
  {
    hide Edge, EdgeCost, Least;
    if q < |ps| {
      assert Explained(ps, costs, cost, nodes, q);
      SolvedLater(ps, costs, cost, nodes, q, q + nodes[q].length);
      FollowingItems(ps, costs, cost, nodes, q + nodes[q].length);
    }
  }

  lemma SolvedCheapest(ps: seq<Choices>, costs: CostModel, cost: seq<u32>, nodes: seq<Node>)
    requires |costs.literal| == 256 && |costs.length| == MAX_MATCH + 1 && |costs.offsetSlot| >= OFFSET_SLOTS
    requires Solved(ps, costs, cost, nodes, 0) && Path(nodes, 0, |ps|)
    ensures CheapestItems(ps, costs, PathItems(nodes, 0, |ps|))
  {
    hide Solved, PathFrom, PathCost, Following, PathItems, Path;
    var steps := Following(ps, costs, cost, nodes, 0);
    FollowingIsPath(ps, costs, cost, nodes, 0);
    FollowingItems(ps, costs, cost, nodes, 0);
    forall other: seq<Node> | PathFrom(ps, 0, other) ensures PathCost(costs, steps) <= PathCost(costs, other) {
      SolvedStart(ps, costs, cost, nodes);
      NoCheaperPath(ps, costs, cost, nodes, 0, 0, other);
    }
  }

  lemma SolvedStart(ps: seq<Choices>, costs: CostModel, cost: seq<u32>, nodes: seq<Node>)
    requires |costs.literal| == 256 && |costs.length| == MAX_MATCH + 1 && |costs.offsetSlot| >= OFFSET_SLOTS
    requires Solved(ps, costs, cost, nodes, 0)
    ensures |cost| > 0
  {
  }

  // ---- frequencies

  lemma TallyStep(nodes: seq<Node>, done: seq<Item>, q: nat, e: nat)
    requires Path(nodes, q, e) && q < e
    ensures q < |nodes| && 0 < nodes[q].length && q + nodes[q].length <= e
    ensures (nodes[q].length == 1 ==> nodes[q].offset < 256)
    ensures ValidItem(NodeItem(nodes[q])) && Path(nodes, q + nodes[q].length, e)
    ensures done + PathItems(nodes, q, e) == done + [NodeItem(nodes[q])] + PathItems(nodes, q + nodes[q].length, e)
  {
  }

  /** Counts the symbols of the path. */
  method Tally(nodes: array<Node>, end: nat, lf: array<nat>, of: array<nat>)
    requires 0 < end && Path(nodes[..], 0, end) && lf != of && lf.Length == 288 && of.Length == 32
    modifies lf, of
    ensures Counted(PathItems(nodes[..], 0, end), lf[..], of[..])
    ensures Sum(lf[..]) <= end && Sum(of[..]) <= end
  {
    hide Counted, Sum, Path, PathItems, LengthSlot, OffsetSlot, Count;
    ghost var ns := nodes[..];
    forall s | 0 <= s < 288 {
      lf[s] := 0;
    }
    forall s | 0 <= s < 32 {
      of[s] := 0;
    }
    CountedNone(lf[..], of[..]);
    SumNone(lf[..]);
    SumNone(of[..]);
    var cur: nat := 0;
    ghost var done, all := [], PathItems(ns, 0, end);
    assert [] + all == all;
    while true
      invariant nodes[..] == ns && cur < end && Path(ns, cur, end) && all == done + PathItems(ns, cur, end)
      invariant Counted(done, lf[..], of[..]) && Sum(lf[..]) <= cur && Sum(of[..]) <= cur
      decreases end - cur
    {
      TallyStep(ns, done, cur, end);
      var length, offset := nodes[cur].length, nodes[cur].offset;
      ghost var l, o, it := lf[..], of[..], NodeItem(nodes[cur]);
      CountedMore(done, l, o, it);
      if length == 1 {
        SumAdd(l, offset);
        lf[offset] := lf[offset] + 1;
        assert lf[..] == l[offset := l[offset] + 1] && of[..] == o;
      } else {
        var s, t := FIRST_LENGTH_SYM + LengthSlot(length), OffsetSlot(offset);
        SumAdd(l, s);
        SumAdd(o, t);
        lf[s] := lf[s] + 1;
        of[t] := of[t] + 1;
        assert lf[..] == l[s := l[s] + 1] && of[..] == o[t := o[t] + 1];
      }
      done := done + [it];
      cur := cur + length;
      if cur == end {
        PathEnds(ns, cur);
        assert all == done;
        return;
      }
    }
  }

  // ---- the choice for a block

  /** A choice that stands for the bytes of the block, and the frequencies of its symbols. */
  ghost predicate Settled(data: seq<u8>, p: nat, e: nat, c: Choice, lf: seq<nat>, of: seq<nat>) {
    && Chosen(c, data, p, e) && AllValid(ChoiceItems(c, data, p, e)) && Tiles(data, p, ChoiceItems(c, data, p, e), e)
    && Counted(ChoiceItems(c, data, p, e), lf, of) && Sum(lf) <= e - p && Sum(of) <= e - p
  }

  lemma LiteralsSettled(data: seq<u8>, p: nat, e: nat, items: seq<Item>, lf: seq<nat>, of: seq<nat>)
    requires p <= e && Stand(data, [], e - p, p, e, items) && AllValid(items) && Tiles(data, p, items, e)
    requires Counted(items, lf, of) && Sum(lf) <= e - p && Sum(of) <= e - p
    ensures Settled(data, p, e, FromSequences([LastRun(e - p)]), lf, of)
    ensures ChoiceItems(FromSequences([LastRun(e - p)]), data, p, e) == items
  {
    hide Cover, SequenceItems, AllValid, Tiles, Counted, Sum;
    assert [] + [LastRun(e - p)] == [LastRun(e - p)];
  }

  /** Chooses a literal for every byte. */
  method ChooseAllLiterals(data: seq<u8>, p: nat, e: nat, lf: array<nat>, of: array<nat>) returns (c: Choice)
    requires p < e <= |data| && lf != of && lf.Length == 288 && of.Length == 32
    modifies lf, of
    ensures Settled(data, p, e, c, lf[..], of[..]) && Chosen(c, data, p, e)
    ensures ChoiceItems(c, data, p, e) == Literals(data[p..e])
  {
    hide Counted, Sum, Stand, Tiles, AllValid, Count;
    forall s | 0 <= s < 288 {
      lf[s] := 0;
    }
    forall s | 0 <= s < 32 {
      of[s] := 0;
    }
    CountedNone(lf[..], of[..]);
    SumNone(lf[..]);
    SumNone(of[..]);
    StandNone(data, p);
    ghost var o, done: seq<Item> := of[..], [];
    assert data[p..p] == [] && Literals([]) == [];
    for q := p to e
      invariant done == Literals(data[p..q])
      invariant Stand(data, [], q - p, p, q, done) && Tiles(data, p, done, q) && AllValid(done) && of[..] == o
      invariant Counted(done, lf[..], o) && Sum(lf[..]) <= q - p && Sum(o) <= q - p
    {
      var lit := data[q];
      ghost var l := lf[..];
      StandLiteral(data, [], q - p, p, q, done);
      TilesMore(data, p, done, q, Literal(lit));
      CountedMore(done, l, o, Literal(lit));
      ValidMore(done, Literal(lit));
      SumAdd(l, lit);
      lf[lit] := lf[lit] + 1;
      assert lf[..] == l[lit := l[lit] + 1];
      LiteralsMore(data, p, q);
      done := done + [Literal(lit)];
    }
    c := FromSequences([LastRun(e - p)]);
    LiteralsSettled(data, p, e, done, lf[..], of[..]);
  }

  lemma ValidMore(items: seq<Item>, it: Item)
    requires AllValid(items) && ValidItem(it)
    ensures AllValid(items + [it])
  {
  }

  /** Nodes behind the end of the block are put out of reach, even if matches extend to them. */
  method Fence(cost: array<u32>, end: nat)
    requires 0 < end < cost.Length
    modifies cost
    ensures Fenced(cost[..], end)
  {
    var to := if end - 1 + MAX_MATCH < cost.Length - 1 then end - 1 + MAX_MATCH else cost.Length - 1;
    for i := end to to + 1
      invariant forall j :: end <= j < i ==> cost[j] == UNREACHABLE
    {
      cost[i] := UNREACHABLE;
    }
  }

  lemma PathSettled(data: seq<u8>, p: nat, ps: seq<Choices>, costs: CostModel, cost: seq<u32>, nodes: seq<Node>)
    requires |costs.literal| == 256 && |costs.length| == MAX_MATCH + 1 && |costs.offsetSlot| >= OFFSET_SLOTS
    requires Solved(ps, costs, cost, nodes, 0) && AllTrue(data, p, ps) && ps != []
    ensures Path(nodes, 0, |ps|) && Chosen(FromPath(nodes), data, p, p + |ps|)
    ensures var items := ChoiceItems(FromPath(nodes), data, p, p + |ps|);
      items == PathItems(nodes, 0, |ps|) && AllValid(items) && Tiles(data, p, items, p + |ps|)
  {
    hide Solved, TrueAt, Path, PathItems, AllValid, Tiles;
    SolvedPath(data, p, ps, costs, cost, nodes, 0);
    SolvedTiles(data, p, ps, costs, cost, nodes, 0);
  }

  /** Finds the path of least cost through the cached choices, and the frequencies of its symbols. */
  method ChoosePath(data: seq<u8>, p: nat, end: nat, cache: seq<LzMatch>, cacheEnd: nat, costs: CostModel,
                    cost: array<u32>, nodes: array<Node>, lf: array<nat>, of: array<nat>, ghost ps: seq<Choices>,
                    ghost maxLiteral: nat)
    requires |ps| == end && cost.Length == nodes.Length && Graph(ps, costs, cost.Length, maxLiteral)
    requires cacheEnd <= |cache| && cache[..cacheEnd] == Flat(ps) && Fenced(cost[..], end) && AllTrue(data, p, ps)
    requires lf != of && lf.Length == 288 && of.Length == 32 && cost as object != lf && cost as object != of
    modifies cost, nodes, lf, of
    ensures Fenced(cost[..], end) && Settled(data, p, p + end, FromPath(nodes[..]), lf[..], of[..])
    ensures Chosen(FromPath(nodes[..]), data, p, p + end)
    ensures CheapestItems(ps, costs, ChoiceItems(FromPath(nodes[..]), data, p, p + end))
  {
    hide Flat, Fenced, Solved, TrueAt, Path, PathItems, AllValid, Tiles, Chosen, ChoiceItems, Counted, Sum,
      ValidChoices, AllTrue, CheapestItems;
    FindMinCostPath(cache, cacheEnd, end, costs, cost, nodes, ps, maxLiteral);
    PathSettled(data, p, ps, costs, cost[..], nodes[..]);
    SolvedCheapest(ps, costs, cost[..], nodes[..]);
    ghost var c, ns := cost[..], nodes[..];
    Tally(nodes, end, lf, of);
    assert nodes[..] == ns && cost[..] == c;
  }
}
