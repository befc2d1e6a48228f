/** The store in which the parsers collect their choices: runs of literals, matches, frequencies. */
module Sequences {
  import opened Arith
  import opened LengthCounts
  import opened Canonical
  import opened BitBuffer
  import opened Slots
  import opened Items
  import opened WriteBlock
  import opened Precode
  import opened Costs
  import opened BlockForms

  /** No block but the last one is shorter. */
  const MIN_BLOCK_LENGTH: nat := 5000

  /** The run of literals at the end, without a match behind it. */
  function LastRun(n: nat): Sequence {
    Sequence(n, 0, 0, 0)
  }

  /** The sequences and the run behind them cover p to q with these items. */
  ghost predicate Stand(data: seq<u8>, seqs: seq<Sequence>, run: nat, p: nat, q: nat, items: seq<Item>) {
    && q <= |data| && Cover(seqs + [LastRun(run)], p, q)
    && SequenceItems(data, seqs + [LastRun(run)], p, q) == items
    && forall k :: 0 <= k < |seqs| ==> seqs[k].length != 0
  }

  lemma LiteralsMore(data: seq<u8>, p: nat, q: nat)
    requires p <= q < |data|
    ensures Literals(data[p..q + 1]) == Literals(data[p..q]) + [Literal(data[q])]
  {
  }

  lemma {:induction false} StandLiteral(data: seq<u8>, seqs: seq<Sequence>, run: nat, p: nat, q: nat, items: seq<Item>)
    requires Stand(data, seqs, run, p, q, items) && q < |data|
    ensures Stand(data, seqs, run + 1, p, q + 1, items + [Literal(data[q])])
    decreases |seqs|
  {
    hide OffsetSlot, ValidItem;
    var all, all' := seqs + [LastRun(run)], seqs + [LastRun(run + 1)];
    if seqs == [] {
      LiteralsMore(data, p, q);
    } else {
      var s := seqs[0];
      var p' := p + s.litrunlen + s.length;
      assert all[1..] == seqs[1..] + [LastRun(run)] && all'[1..] == seqs[1..] + [LastRun(run + 1)];
      CoverEnd(all, p, q);
      StandLiteral(data, seqs[1..], run, p', q, SequenceItems(data, all[1..], p', q));
    }
  }

  lemma {:induction false} StandMatch(data: seq<u8>, seqs: seq<Sequence>, run: nat, p: nat, q: nat, items: seq<Item>,
                                      length: nat, offset: nat)
    requires Stand(data, seqs, run, p, q, items) && q + length <= |data| && ValidItem(Match(length, offset))
    ensures Stand(data, seqs + [Sequence(run, length, offset, OffsetSlot(offset))], 0, p, q + length,
                  items + [Match(length, offset)])
    decreases |seqs|
  {
    hide OffsetSlot;
    var added := Sequence(run, length, offset, OffsetSlot(offset));
    var all, all' := seqs + [LastRun(run)], seqs + [added] + [LastRun(0)];
    if seqs == [] {
      var end := [LastRun(0)];
      assert all'[1..] == end;
      assert Cover(end, q + length, q + length);
      assert SequenceItems(data, end, q + length, q + length) == Literals(data[q + length..q + length]) == [];
    } else {
      var s := seqs[0];
      var p' := p + s.litrunlen + s.length;
      assert all[1..] == seqs[1..] + [LastRun(run)] && all'[1..] == seqs[1..] + [added] + [LastRun(0)];
      CoverEnd(all, p, q);
      StandMatch(data, seqs[1..], run, p', q, SequenceItems(data, all[1..], p', q), length, offset);
    }
  }

  // ---- tilings and frequencies, one item more

  /** The item stands for the bytes at q. */
  ghost predicate StandsAt(data: seq<u8>, q: nat, it: Item) {
    match it
    case Literal(b) => q < |data| && data[q] == b
    case Match(length, offset) =>
      && 1 <= offset <= q && q + length <= |data|
      && forall i :: q <= i < q + length ==> data[i] == data[i - offset]
  }

  lemma {:induction false} TilesMore(data: seq<u8>, p: nat, items: seq<Item>, q: nat, it: Item)
    requires Tiles(data, p, items, q)
    requires StandsAt(data, q, it)
    ensures Tiles(data, p, items + [it], q + match it case Literal(_) => 1 case Match(length, _) => length)
    decreases |items|
  {
    var all := items + [it];
    if items == [] {
      assert all[0] == it && all[1..] == [];
    } else {
      assert all[1..] == items[1..] + [it] && all[0] == items[0];
      match items[0]
      case Literal(b) => TilesMore(data, p + 1, items[1..], q, it);
      case Match(length, offset) => TilesMore(data, p + length, items[1..], q, it);
    }
  }

  /** The frequencies of items, without the end of the block. */
  ghost predicate Counted(items: seq<Item>, lf: seq<nat>, of: seq<nat>) {
    && |lf| == 288 && |of| == 32
    && (forall s :: 0 <= s < 288 ==> lf[s] == Count(LitlenSyms(items), s))
    && forall s :: 0 <= s < 32 ==> of[s] == Count(OffsetSyms(items), s)
  }

  lemma CountedMore(items: seq<Item>, lf: seq<nat>, of: seq<nat>, it: Item)
    requires Counted(items, lf, of)
    ensures var s := LitlenSym(it);
      var of' := if it.Match? then of[OffsetSlot(it.offset) := of[OffsetSlot(it.offset)] + 1] else of;
      Counted(items + [it], lf[s := lf[s] + 1], of')
  {
    hide Count, LengthSlot, OffsetSlot;
    var all := items + [it];
    assert all[..|all| - 1] == items;
    forall s | 0 <= s < 288 ensures Count(LitlenSyms(all), s) == lf[s] + if s == LitlenSym(it) then 1 else 0 {
      CountSplit(LitlenSyms(items), [LitlenSym(it)], s);
      CountOne(LitlenSym(it), s);
    }
    forall s | 0 <= s < 32
      ensures Count(OffsetSyms(all), s) == of[s] + if it.Match? && s == OffsetSlot(it.offset) then 1 else 0
    {
      if it.Match? {
        CountSplit(OffsetSyms(items), [OffsetSlot(it.offset)], s);
        CountOne(OffsetSlot(it.offset), s);
      } else {
        assert OffsetSyms(all) == OffsetSyms(items);
      }
    }
  }

  lemma CountedNone(lf: seq<nat>, of: seq<nat>)
    requires |lf| == 288 && |of| == 32
    requires (forall s :: 0 <= s < 288 ==> lf[s] == 0) && forall s :: 0 <= s < 32 ==> of[s] == 0
    ensures Counted([], lf, of)
  {
    hide Count;
    forall s: nat ensures Count([], s) == 0 {
      CountOfNothing(s);
    }
  }

  /** With one end-of-block symbol, the frequencies are those of the block. */
  lemma CountedBlock(items: seq<Item>, lf: seq<nat>, of: seq<nat>)
    requires Counted(items, lf, of)
    ensures lf[END_SYM] == 0 && BlockFrequencies(items, lf[END_SYM := 1], of)
  {
    hide Count;
    EndIsNoItem(items);
    NoSuchSymbol(LitlenSyms(items), END_SYM);
  }

  // ---- the store

  class Store {
    const capacity: nat
    const litlenFreqs: array<nat>
    const offsetFreqs: array<nat>
    var seqs: seq<Sequence>
    /** The literals since the last match. */
    var run: nat
    ghost var items: seq<Item>

    ghost predicate Ready()
      reads this
    {
      litlenFreqs != offsetFreqs && litlenFreqs.Length == 288 && offsetFreqs.Length == 32
    }

    /** The store holds the choices for the bytes from p to q. */
    ghost predicate Holds(data: seq<u8>, p: nat, q: nat)
      reads this, litlenFreqs, offsetFreqs
    {
      && Ready() && p <= q
      && Stand(data, seqs, run, p, q, items) && Tiles(data, p, items, q) && AllValid(items)
      && Counted(items, litlenFreqs[..], offsetFreqs[..])
      && Sum(litlenFreqs[..]) <= q - p && Sum(offsetFreqs[..]) <= q - p && 3 * |seqs| <= q - p
    }

    constructor (capacity: nat)
      ensures Ready() && this.capacity == capacity && fresh(litlenFreqs) && fresh(offsetFreqs)
    {
      this.capacity := capacity;
      litlenFreqs, offsetFreqs := new nat[288], new nat[32];
      seqs, run, items := [], 0, [];
    }

    /** Starts a block at p. */
    method Begin(data: seq<u8>, p: nat)
      requires Ready() && p <= |data|
      modifies this, litlenFreqs, offsetFreqs
      ensures Holds(data, p, p) && seqs == [] && items == []
    {
      hide Count;
      forall s | 0 <= s < 288 {
        litlenFreqs[s] := 0;
      }
      forall s | 0 <= s < 32 {
        offsetFreqs[s] := 0;
      }
      seqs, run, items := [], 0, [];
      CountedNone(litlenFreqs[..], offsetFreqs[..]);
      SumNone(litlenFreqs[..]);
      SumNone(offsetFreqs[..]);
      StandNone(data, p);
    }

    method ChooseLiteral(data: seq<u8>, ghost p: nat, q: nat)
      requires Holds(data, p, q) && q < |data|
      modifies this, litlenFreqs
      ensures Holds(data, p, q + 1) && seqs == old(seqs) && items == old(items) + [Literal(data[q])]
    {
      hide Stand, Tiles, Counted, Sum;
      var lit := data[q];
      ghost var lf, of := litlenFreqs[..], offsetFreqs[..];
      StandLiteral(data, seqs, run, p, q, items);
      TilesMore(data, p, items, q, Literal(lit));
      CountedMore(items, lf, of, Literal(lit));
      SumAdd(lf, lit);
      litlenFreqs[lit] := litlenFreqs[lit] + 1;
      assert litlenFreqs[..] == lf[lit := lf[lit] + 1] && offsetFreqs[..] == of;
      run := run + 1;
      items := items + [Literal(lit)];
    }

    method ChooseMatch(data: seq<u8>, ghost p: nat, q: nat, length: nat, offset: nat)
      requires Holds(data, p, q) && ValidItem(Match(length, offset)) && offset <= q && q + length <= |data|
      requires forall i :: q <= i < q + length ==> data[i] == data[i - offset]
      requires |seqs| < capacity
      modifies this, litlenFreqs, offsetFreqs
      ensures Holds(data, p, q + length) && |seqs| == |old(seqs)| + 1 <= capacity
      ensures items == old(items) + [Match(length, offset)]
    {
      hide Stand, Tiles, Counted, Sum, LengthSlot, OffsetSlot;
      var s, t := FIRST_LENGTH_SYM + LengthSlot(length), OffsetSlot(offset);
      ghost var lf, of, it := litlenFreqs[..], offsetFreqs[..], Match(length, offset);
      StandMatch(data, seqs, run, p, q, items, length, offset);
      TilesMore(data, p, items, q, it);
      CountedMore(items, lf, of, it);
      SumAdd(lf, s);
      SumAdd(of, t);
      litlenFreqs[s] := litlenFreqs[s] + 1;
      offsetFreqs[t] := offsetFreqs[t] + 1;
      assert litlenFreqs[..] == lf[s := lf[s] + 1] && offsetFreqs[..] == of[t := of[t] + 1];
      seqs := seqs + [Sequence(run, length, offset, t)];
      run := 0;
      items := items + [it];
    }
  }

  lemma {:induction false} SumNone(f: seq<nat>)
    requires forall s :: 0 <= s < |f| ==> f[s] == 0
    ensures Sum(f) == 0
  {
    if f != [] {
      SumNone(f[1..]);
    }
  }

  lemma StandNone(data: seq<u8>, p: nat)
    requires p <= |data|
    ensures Stand(data, [], 0, p, p, []) && Tiles(data, p, [], p) && AllValid([])
  {
    assert [] + [LastRun(0)] == [LastRun(0)];
    assert Literals(data[p..p]) == [];
  }
}
