/** The fastest, greedy and lazy parsers: which matches a block uses, and where it ends.  The
    heuristics that have no bearing on correctness are parameters. */
module Parsers {
  import opened BitBuffer
  import opened Words
  import opened Slots
  import opened Items
  import opened WriteBlock
  import opened MatchCommon
  import opened MatchLimits
  import opened HtMatchfinder
  import opened HcMatchfinder
  import opened HcChains
  import opened HcParse
  import opened BlockChoices
  import opened Sequences

  /** What a parser leaves behind: a block from p to q. */
  ghost predicate BlockParsed(st: Store, data: seq<u8>, p: nat, q: nat)
    reads st, st.litlenFreqs, st.offsetFreqs
  {
    && st.Holds(data, p, q) && p < q <= |data| && q - p <= MAX_BLOCK_LENGTH
    && (q < |data| ==> q - p >= MIN_BLOCK_LENGTH)
  }

  lemma MatchBytes(data: seq<u8>, p: nat, length: nat, offset: nat)
    requires TrueMatch(data, p, length, offset)
    ensures p + length <= |data| && forall i :: p <= i < p + length ==> data[i] == data[i - offset]
  {
    forall i | p <= i < p + length ensures data[i] == data[i - offset] {
      assert data[p..p + length][i - p] == data[p - offset..p - offset + length][i - p];
    }
  }

  /** Chooses a match that the matchfinder has found. */
  method Choose(st: Store, data: seq<u8>, ghost p: nat, q: nat, length: nat, offset: nat)
    requires st.Holds(data, p, q) && TrueMatch(data, q, length, offset) && 3 <= length <= MAX_MATCH
    requires |st.seqs| < st.capacity
    modifies st, st.litlenFreqs, st.offsetFreqs
    ensures st.Holds(data, p, q + length) && |st.seqs| == |old(st.seqs)| + 1 <= st.capacity
    ensures st.items == old(st.items) + [Match(length, offset)]
  {
    MatchBytes(data, q, length, offset);
    st.ChooseMatch(data, p, q, length, offset);
  }

  // ---- the fastest parser

  ghost predicate HtReady(mf: HtMatchfinder, data: seq<u8>, p: nat)
    reads mf, mf.tab0, mf.tab1
  {
    mf.Valid(data) && (p + REQUIRED_NBYTES <= |data| ==> mf.At(p))
  }

  ghost predicate HtApart(mf: HtMatchfinder, st: Store)
    reads mf, st
  {
    mf.tab0 as object != st.litlenFreqs && mf.tab0 as object != st.offsetFreqs
    && mf.tab1 as object != st.litlenFreqs && mf.tab1 as object != st.offsetFreqs
  }

  /** One choice at q. */
  method FastestStep(mf: HtMatchfinder, st: Store, data: seq<u8>, ghost p: nat, q: nat, maxLen: nat, niceLen: nat)
    returns (q': nat)
    requires st.Holds(data, p, q) && HtReady(mf, data, q) && HtApart(mf, st) && |st.seqs| < st.capacity
    requires REQUIRED_NBYTES <= maxLen <= MAX_MATCH && q + maxLen <= |data| && niceLen <= maxLen
    modifies mf, mf.tab0, mf.tab1, st, st.litlenFreqs, st.offsetFreqs
    ensures st.Holds(data, p, q') && HtReady(mf, data, q') && q < q' <= q + MAX_MATCH && q' <= |data|
    ensures var it := FastestChoice(data, q, maxLen, niceLen);
      && st.items == old(st.items) + [it] && q' == After(q, it)
      && |st.seqs| == |old(st.seqs)| + if it.Match? then 1 else 0
  {
    hide Stand, Tiles, Counted, TrueMatch, TwoWayAt;
    TwoWayTrue(data, q, maxLen, niceLen);
    var length, offset := mf.LongestMatch(data, q, maxLen, niceLen);
    if length > 0 {
      Choose(st, data, p, q, length, offset);
      mf.SkipBytes(data, q + 1, length - 1);
      q' := q + length;
    } else {
      st.ChooseLiteral(data, p, q);
      q' := q + 1;
    }
  }

  /** One choice at q, as the parser makes it. */
  method FastestChoose(mf: HtMatchfinder, st: Store, data: seq<u8>, ghost p: nat, q: nat, maxLen: nat, niceLen: nat,
                       ghost nice: nat, ghost n: nat)
    returns (q': nat)
    requires st.Holds(data, p, q) && HtReady(mf, data, q) && HtApart(mf, st) && |st.seqs| < st.capacity
    requires q < |data| && REQUIRED_NBYTES <= maxLen == AdjustMaxLen(|data| - q) && niceLen == NiceAt(data, q, nice)
    requires Taken(FastParser(nice), data, p, n) == (st.items, q) && MatchCount(st.items) == |st.seqs|
    modifies mf, mf.tab0, mf.tab1, st, st.litlenFreqs, st.offsetFreqs
    ensures st.Holds(data, p, q') && HtReady(mf, data, q') && q < q' <= q + MAX_MATCH && q' <= |data|
    ensures Taken(FastParser(nice), data, p, n + 1) == (st.items, q')
    ensures MatchCount(st.items) == |st.seqs| <= |old(st.seqs)| + 1
  {
    hide Stand, Tiles, Counted, HtReady, Taken, FastestChoice;
    TakenMore(FastParser(nice), data, p, n, st.items, q);
    OneItem(q, st.items, FastestChoice(data, q, maxLen, niceLen));
    q' := FastestStep(mf, st, data, p, q, maxLen, niceLen);
  }

  /** Parses one block.  `nice` is the limit before it has been lowered to what fits. */
  method FastestBlock(mf: HtMatchfinder, st: Store, data: seq<u8>, p: nat, niceLen0: nat, ghost nice: nat)
    returns (q: nat, niceLen: nat)
    requires st.Ready() && HtReady(mf, data, p) && HtApart(mf, st) && st.capacity >= FAST_SEQ_STORE_LENGTH
    requires p < |data| && NiceFrom(data, p, niceLen0, nice)
    modifies mf, mf.tab0, mf.tab1, st, st.litlenFreqs, st.offsetFreqs
    ensures BlockParsed(st, data, p, q) && HtReady(mf, data, q)
    ensures ParsedBlock(FastParser(nice), data, p, q, st.items) && NiceFrom(data, q, niceLen, nice)
  {
    hide Stand, Tiles, Counted, HtReady, Taken, FastestChoice;
    ghost var parser, n: nat := FastParser(nice), 0;
    NothingTaken(parser, data, p);
    var maxBlockEnd := ChooseMaxBlockEnd(p, |data|, FAST_SOFT_MAX_BLOCK_LENGTH);
    st.Begin(data, p);
    q, niceLen := p, niceLen0;
    var going := true;
    while going
      invariant p <= q <= |data| && st.Holds(data, p, q) && HtReady(mf, data, q) && NiceFrom(data, q, niceLen, nice)
      invariant Taken(parser, data, p, n) == (st.items, q) && MatchCount(st.items) == |st.seqs|
      invariant going <==> !StopsAfter(parser, data, p, n)
      invariant forall k: nat :: k < n ==> !StopsAfter(parser, data, p, k)
      invariant going ==> q < maxBlockEnd && |st.seqs| < FAST_SEQ_STORE_LENGTH
      invariant q <= maxBlockEnd + MAX_MATCH && |st.seqs| <= FAST_SEQ_STORE_LENGTH
      invariant !going ==> q > p && (q == |data| || q >= maxBlockEnd || |st.seqs| == FAST_SEQ_STORE_LENGTH)
      decreases |data| - q, if going then 1 else 0
    {
      var remaining := |data| - q;
      var maxLen := if remaining < MAX_MATCH then remaining else MAX_MATCH;
      if maxLen < REQUIRED_NBYTES {
        q, n := LastLiterals(mf, st, data, p, q, parser, n);
        going := false;
      } else {
        niceLen := if niceLen < maxLen then niceLen else maxLen;
        q := FastestChoose(mf, st, data, p, q, maxLen, niceLen, nice, n);
        n := n + 1;
        going := q < maxBlockEnd && |st.seqs| < FAST_SEQ_STORE_LENGTH;
      }
    }
  }

  /** The last bytes of the input, too few for a search. */
  method LastLiterals(mf: HtMatchfinder, st: Store, data: seq<u8>, ghost p: nat, q: nat, ghost parser: Parser,
                      ghost n: nat)
    returns (q': nat, ghost n': nat)
    requires st.Holds(data, p, q) && HtReady(mf, data, q) && HtApart(mf, st) && q < |data| < q + REQUIRED_NBYTES
    requires parser.FastParser? && Taken(parser, data, p, n) == (st.items, q) && MatchCount(st.items) == |st.seqs|
    requires forall k: nat :: k <= n ==> !StopsAfter(parser, data, p, k)
    modifies st, st.litlenFreqs
    ensures st.Holds(data, p, q') && HtReady(mf, data, q') && q' == |data| && st.seqs == old(st.seqs)
    ensures Taken(parser, data, p, n') == (st.items, q') && MatchCount(st.items) == |st.seqs|
    ensures StopsAfter(parser, data, p, n') && forall k: nat :: k < n' ==> !StopsAfter(parser, data, p, k)
  {
    hide Stand, Tiles, Counted, Taken;
    q', n' := q, n;
    while q' < |data|
      invariant q <= q' <= |data| && st.Holds(data, p, q') && st.seqs == old(st.seqs)
      invariant Taken(parser, data, p, n') == (st.items, q') && MatchCount(st.items) == |st.seqs|
      invariant forall k: nat :: k < n' ==> !StopsAfter(parser, data, p, k)
      invariant q' < |data| ==> !StopsAfter(parser, data, p, n')
    {
      TakenMore(parser, data, p, n', st.items, q');
      OneItem(q', st.items, Literal(data[q']));
      st.ChooseLiteral(data, p, q');
      q', n' := q' + 1, n' + 1;
    }
  }

  // ---- the greedy parser

  ghost predicate HcReady(mf: HcMatchfinder, data: seq<u8>, p: nat)
    reads mf, mf.hash3, mf.hash4, mf.next
  {
    mf.Valid(data) && mf.Ready(data, p) && mf.inserted <= p && mf.base <= p
  }

  ghost predicate HcApart(mf: HcMatchfinder, st: Store)
    reads mf, st
  {
    && mf.hash3 as object != st.litlenFreqs && mf.hash3 as object != st.offsetFreqs
    && mf.hash4 as object != st.litlenFreqs && mf.hash4 as object != st.offsetFreqs
    && mf.next as object != st.litlenFreqs && mf.next as object != st.offsetFreqs
  }

  /** Searches at p for a match longer than bestLen. */
  method Find(mf: HcMatchfinder, data: seq<u8>, p: nat, bestLen: nat, niceLen0: nat, depth: nat)
    returns (length: nat, offset: nat, niceLen: nat)
    requires HcReady(mf, data, p) && p <= |data| && depth >= 1
    modifies mf, mf.hash3, mf.hash4, mf.next
    ensures HcReady(mf, data, p + 1) && niceLen == NiceAt(data, p, niceLen0)
    ensures LzMatch(length, offset) == FoundAt(data, p, bestLen, niceLen0, depth)
  {
    hide Searched;
    var maxLen := AdjustMaxLen(|data| - p);
    niceLen := AdjustNiceLen(niceLen0, maxLen);
    length, offset := mf.LongestMatch(data, p, bestLen, maxLen, niceLen, depth);
  }

  method Skip(mf: HcMatchfinder, data: seq<u8>, p: nat, count: nat)
    requires HcReady(mf, data, p) && 0 < count && p + count <= |data|
    modifies mf, mf.hash3, mf.hash4, mf.next
    ensures HcReady(mf, data, p + count)
  {
    mf.SkipBytes(data, p, count);
  }

  method GreedyStep(mf: HcMatchfinder, st: Store, data: seq<u8>, ghost p: nat, q: nat, minLen: nat, niceLen0: nat,
                    depth: nat)
    returns (q': nat, niceLen: nat)
    requires st.Holds(data, p, q) && HcReady(mf, data, q) && HcApart(mf, st) && |st.seqs| < st.capacity
    requires q < |data| && niceLen0 <= MAX_MATCH && minLen >= 3 && depth >= 1
    modifies mf, mf.hash3, mf.hash4, mf.next, st, st.litlenFreqs, st.offsetFreqs
    ensures st.Holds(data, p, q') && HcReady(mf, data, q') && q < q' <= q + MAX_MATCH && q' <= |data|
    ensures var it := GreedyChoice(data, q, minLen, niceLen0, depth);
      && st.items == old(st.items) + [it] && q' == After(q, it)
      && |st.seqs| == |old(st.seqs)| + if it.Match? then 1 else 0
    ensures NiceFrom(data, q', niceLen, niceLen0)
  {
    hide Stand, Tiles, Counted, TrueMatch, HcReady, FoundAt;
    var length, offset;
    length, offset, niceLen := Find(mf, data, q, minLen - 1, niceLen0, depth);
    if length >= minLen && (length > MIN_MATCH || offset <= 4096) {
      Choose(st, data, p, q, length, offset);
      Skip(mf, data, q + 1, length - 1);
      q' := q + length;
    } else {
      st.ChooseLiteral(data, p, q);
      q' := q + 1;
    }
  }

  // ---- the lazy parsers

  /** Chooses the match at q, of which `ahead` positions have been entered already. */
  method Settle(mf: HcMatchfinder, st: Store, data: seq<u8>, ghost p: nat, q: nat, length: nat, offset: nat,
                ahead: nat)
    requires st.Holds(data, p, q) && HcReady(mf, data, q + ahead) && HcApart(mf, st) && |st.seqs| < st.capacity
    requires AtHand(data, q, LzMatch(length, offset)) && ahead <= 3
    modifies mf, mf.hash3, mf.hash4, mf.next, st, st.litlenFreqs, st.offsetFreqs
    ensures st.Holds(data, p, q + length) && HcReady(mf, data, q + length) && |st.seqs| == |old(st.seqs)| + 1
    ensures st.items == old(st.items) + [Match(length, offset)]
  {
    hide Stand, Tiles, Counted, TrueMatch, HcReady;
    Choose(st, data, p, q, length, offset);
    if length > ahead {
      Skip(mf, data, q + ahead, length - ahead);
    }
  }

  /** What one look ahead changes: it puts the match at hand off, or not. */
  ghost predicate Looked(data: seq<u8>, at: nat, cur: LzMatch, niceLen: nat, depth: nat, lazy2: bool, settled: bool,
                         at': nat, cur': LzMatch)
    requires AtHand(data, at, cur)
  {
    var d := Deferral(data, at, cur, niceLen, depth, lazy2);
    if settled then d == 0 && at' == at && cur' == cur
    else d > 0 && at' == at + d && cur' == Next(data, at, cur, niceLen, depth, lazy2)
  }

  lemma LookedOn(data: seq<u8>, at: nat, cur: LzMatch, niceLen: nat, depth: nat, lazy2: bool, settled: bool, at': nat,
                 cur': LzMatch)
    requires AtHand(data, at, cur) && Looked(data, at, cur, niceLen, depth, lazy2, settled, at', cur')
    ensures AtHand(data, at', cur') && at <= at' && (!settled ==> at < at')
    ensures LazyEnd(data, at, cur, niceLen, depth, lazy2) ==
            if settled then (at', cur') else LazyEnd(data, at', cur', niceLen, depth, lazy2)
  {
    hide TrueMatch, FoundAt, Deferral, Next;
    if Deferral(data, at, cur, niceLen, depth, lazy2) > 0 {
      NextAtHand(data, at, cur, niceLen, depth, lazy2);
    }
  }

  /** Looks for a better match d positions ahead. */
  method LookAt(mf: HcMatchfinder, data: seq<u8>, at: nat, curLen: nat, curOffset: nat, ghost nice: nat,
                niceLen0: nat, depth: nat, d: nat)
    returns (better: bool, nextLen: nat, nextOffset: nat, niceLen: nat)
    requires 1 <= d <= 2 && HcReady(mf, data, at + d) && AtHand(data, at, LzMatch(curLen, curOffset)) && depth >= 4
    requires niceLen0 == NiceAt(data, at + d - 1, nice)
    modifies mf, mf.hash3, mf.hash4, mf.next
    ensures HcReady(mf, data, at + d + 1) && at + d <= |data| && niceLen == NiceAt(data, at + d, nice)
    ensures LzMatch(nextLen, nextOffset) == Ahead(data, at, LzMatch(curLen, curOffset), nice, depth, d)
    ensures better <==>
      BetterBy(LzMatch(curLen, curOffset), LzMatch(nextLen, nextOffset), if d == 1 then 2 else 6)
  {
    hide HcReady, TrueMatch, FoundAt, Bsr;
    FoundLater(data, at + d - 1, at + d, curLen - 1, nice, depth / (2 * d));
    nextLen, nextOffset, niceLen := Find(mf, data, at + d, curLen - 1, niceLen0, depth / (2 * d));
    better := nextLen >= curLen && Gain(curLen, curOffset, nextLen, nextOffset) > if d == 1 then 2 else 6;
  }

  /** Looks for a better match one and, if lazy2, two positions ahead. */
  method LookAhead(mf: HcMatchfinder, st: Store, data: seq<u8>, ghost p: nat, at0: nat, curLen0: nat, curOffset0: nat,
                   ghost nice: nat, niceLen0: nat, depth: nat, lazy2: bool)
    returns (settled: bool, at: nat, curLen: nat, curOffset: nat, niceLen: nat, ahead: nat)
    requires st.Holds(data, p, at0) && HcReady(mf, data, at0 + 1) && HcApart(mf, st)
    requires AtHand(data, at0, LzMatch(curLen0, curOffset0)) && niceLen0 == NiceAt(data, at0, nice) && depth >= 4
    modifies mf, mf.hash3, mf.hash4, mf.next, st, st.litlenFreqs, st.offsetFreqs
    ensures Looked(data, at0, LzMatch(curLen0, curOffset0), nice, depth, lazy2, settled, at, LzMatch(curLen, curOffset))
    ensures AtHand(data, at, LzMatch(curLen, curOffset)) && at0 <= at && (!settled ==> at0 < at)
    ensures at + 2 <= |data| && NiceFrom(data, at + 2, niceLen, nice)
    ensures HcReady(mf, data, at + if settled then ahead else 1) && ahead <= 3
    ensures !settled ==> niceLen == NiceAt(data, at, nice)
    ensures st.Holds(data, p, at) && st.seqs == old(st.seqs) && st.items == old(st.items) + Literals(data[at0..at])
  {
    hide Stand, Tiles, Counted, HcReady, TrueMatch, FoundAt, Literals, BetterBy, Ahead;
    settled, at, curLen, curOffset, niceLen, ahead := true, at0, curLen0, curOffset0, niceLen0, 1;
    assert data[at..at] == [] && Literals([]) == [];
    ghost var cur := LzMatch(curLen, curOffset);
    if curLen >= niceLen {
      return;
    }
    var better, nextLen, nextOffset;
    better, nextLen, nextOffset, niceLen := LookAt(mf, data, at, curLen, curOffset, nice, niceLen, depth, 1);
    if better {
      AheadAtHand(data, at, cur, nice, depth, 1, 2);
      PutOff(st, data, p, at, 1);
      return false, at + 1, nextLen, nextOffset, niceLen, 0;
    }
    ahead := 2;
    if lazy2 {
      better, nextLen, nextOffset, niceLen := LookAt(mf, data, at, curLen, curOffset, nice, niceLen, depth, 2);
      if better {
        AheadAtHand(data, at, cur, nice, depth, 2, 6);
        PutOff(st, data, p, at, 2);
        return false, at + 2, nextLen, nextOffset, niceLen, 0;
      }
      ahead := 3;
    }
  }

  /** Chooses one or two literals. */
  method PutOff(st: Store, data: seq<u8>, ghost p: nat, at: nat, d: nat)
    requires st.Holds(data, p, at) && 1 <= d <= 2 && at + d <= |data|
    modifies st, st.litlenFreqs
    ensures st.Holds(data, p, at + d) && st.seqs == old(st.seqs)
    ensures st.items == old(st.items) + Literals(data[at..at + d])
  {
    hide Stand, Tiles, Counted;
    st.ChooseLiteral(data, p, at);
    if d == 2 {
      st.ChooseLiteral(data, p, at + 1);
    }
  }

  /** Has a match at q: looks for better ones at the next positions, choosing literals for the bytes
      before them, until the match at hand is chosen. */
  method LazyMatch(mf: HcMatchfinder, st: Store, data: seq<u8>, ghost p: nat, q: nat, length: nat, offset: nat,
                   niceLen0: nat, depth: nat, lazy2: bool)
    returns (q': nat, niceLen: nat)
    requires st.Holds(data, p, q) && HcReady(mf, data, q + 1) && HcApart(mf, st) && |st.seqs| < st.capacity
    requires AtHand(data, q, LzMatch(length, offset)) && niceLen0 == NiceAt(data, q, niceLen0) && depth >= 4
    modifies mf, mf.hash3, mf.hash4, mf.next, st, st.litlenFreqs, st.offsetFreqs
    ensures st.Holds(data, p, q') && HcReady(mf, data, q') && q < q' <= |data| && q' <= q + 345 + MAX_MATCH
    ensures var (at, m) := LazyEnd(data, q, LzMatch(length, offset), niceLen0, depth, lazy2);
      st.items == old(st.items) + Literals(data[q..at]) + [Match(m.length, m.offset)] && q' == at + m.length
    ensures |st.seqs| == |old(st.seqs)| + 1 && NiceFrom(data, q', niceLen, niceLen0)
  {
    hide Stand, Tiles, Counted, HcReady, TrueMatch, FoundAt, BetterBy, LazyEnd, Literals, Looked;
    ghost var goal := LazyEnd(data, q, LzMatch(length, offset), niceLen0, depth, lazy2);
    LazySoon(data, q, LzMatch(length, offset), niceLen0, depth, lazy2);
    var curLen, curOffset, at := length, offset, q;
    niceLen := niceLen0;
    assert data[q..q] == [] && Literals([]) == [];
    var settled, ahead := false, 0;
    while !settled
      invariant q <= at && AtHand(data, at, LzMatch(curLen, curOffset))
      invariant NiceFrom(data, at + 2, niceLen, niceLen0)
      invariant st.Holds(data, p, at) && st.seqs == old(st.seqs) && ahead <= 3
      invariant HcReady(mf, data, at + if settled then ahead else 1)
      invariant st.items == old(st.items) + Literals(data[q..at])
      invariant !settled ==> niceLen == NiceAt(data, at, niceLen0)
      invariant goal == if settled then (at, LzMatch(curLen, curOffset))
                        else LazyEnd(data, at, LzMatch(curLen, curOffset), niceLen0, depth, lazy2)
      decreases |data| - at, !settled
    {
      ghost var was, cur := at, LzMatch(curLen, curOffset);
      settled, at, curLen, curOffset, niceLen, ahead :=
        LookAhead(mf, st, data, p, at, curLen, curOffset, niceLen0, niceLen, depth, lazy2);
      LookedOn(data, was, cur, niceLen0, depth, lazy2, settled, at, LzMatch(curLen, curOffset));
      LiteralsJoin(data, q, was, at);
    }
    Settle(mf, st, data, p, at, curLen, curOffset, ahead);
    q' := at + curLen;
  }

  lemma LiteralsJoin(data: seq<u8>, p: nat, q: nat, r: nat)
    requires p <= q <= r <= |data|
    ensures Literals(data[p..q]) + Literals(data[q..r]) == Literals(data[p..r])
  {
  }

  method LazyStep(mf: HcMatchfinder, st: Store, data: seq<u8>, ghost p: nat, q: nat, minLen: nat, niceLen0: nat,
                  depth: nat, lazy2: bool)
    returns (q': nat, niceLen: nat)
    requires st.Holds(data, p, q) && HcReady(mf, data, q) && HcApart(mf, st) && |st.seqs| < st.capacity
    requires q < |data| && niceLen0 <= MAX_MATCH && minLen >= 3 && depth >= 4
    modifies mf, mf.hash3, mf.hash4, mf.next, st, st.litlenFreqs, st.offsetFreqs
    ensures st.Holds(data, p, q') && HcReady(mf, data, q') && q < q' <= |data| && q' <= q + 345 + MAX_MATCH
    ensures var c := LazyChoice(data, q, minLen, niceLen0, depth, lazy2);
      st.items == old(st.items) + c && q' == AfterAll(q, c) && |st.seqs| == |old(st.seqs)| + MatchCount(c)
    ensures |st.seqs| <= |old(st.seqs)| + 1 && NiceFrom(data, q', niceLen, niceLen0)
  {
    hide Stand, Tiles, Counted, HcReady, TrueMatch, FoundAt, LazyEnd, Literals, LazyChoice, AfterAll, MatchCount;
    LazyAdds(data, q, minLen, niceLen0, depth, lazy2);
    var curLen, curOffset;
    curLen, curOffset, niceLen := Find(mf, data, q, minLen - 1, niceLen0, depth);
    if curLen < minLen || (curLen == MIN_MATCH && curOffset > 8192) {
      st.ChooseLiteral(data, p, q);
      q' := q + 1;
    } else {
      q', niceLen := LazyMatch(mf, st, data, p, q, curLen, curOffset, niceLen, depth, lazy2);
    }
  }

  // ---- blocks of the greedy and lazy parsers

  /** One choice at q of the greedy parser or of a lazy one. */
  method HcStep(mf: HcMatchfinder, st: Store, data: seq<u8>, p: nat, q: nat, niceLen0: nat, depth: nat,
                strategy: Strategy, minLen: (nat, nat) -> nat, ghost parser: Parser, ghost n: nat)
    returns (q': nat, niceLen: nat)
    requires st.Holds(data, p, q) && HcReady(mf, data, q) && HcApart(mf, st) && |st.seqs| < st.capacity
    requires q < |data| && depth >= 4 && Sound(parser) && parser.ChainParser?
    requires parser.strategy == strategy && parser.depth == depth && parser.minLen == minLen
    requires niceLen0 <= MAX_MATCH && NiceFrom(data, q, niceLen0, parser.niceLen)
    requires Taken(parser, data, p, n) == (st.items, q) && MatchCount(st.items) == |st.seqs|
    modifies mf, mf.hash3, mf.hash4, mf.next, st, st.litlenFreqs, st.offsetFreqs
    ensures st.Holds(data, p, q') && HcReady(mf, data, q') && q < q' <= |data| && q' <= q + 345 + MAX_MATCH
    ensures niceLen <= MAX_MATCH && NiceFrom(data, q', niceLen, parser.niceLen)
    ensures Taken(parser, data, p, n + 1) == (st.items, q') && MatchCount(st.items) == |st.seqs| <= |old(st.seqs)| + 1
  {
    hide Stand, Tiles, Counted, HcReady, Taken, GreedyChoice, LazyChoice;
    TakenMore(parser, data, p, n, st.items, q);
    SameChoice(parser, data, p, q, niceLen0);
    ghost var c := ChoiceAt(parser, data, p, q);
    MatchesJoin(st.items, c);
    match strategy {
      case Greedy =>
        OneItem(q, st.items, GreedyChoice(data, q, minLen(p, p), niceLen0, depth));
        q', niceLen := GreedyStep(mf, st, data, p, q, minLen(p, p), niceLen0, depth);
      case _ =>
        q', niceLen := LazyStep(mf, st, data, p, q, minLen(p, q), niceLen0, depth, strategy == Lazy2);
    }
  }

  /** Parses one block. */
  method HcBlock(mf: HcMatchfinder, st: Store, data: seq<u8>, p: nat, niceLen0: nat, depth: nat, strategy: Strategy,
                 minLen: (nat, nat) -> nat, split: (nat, nat) -> bool, ghost nice: nat)
    returns (q: nat, niceLen: nat)
    requires st.Ready() && HcReady(mf, data, p) && HcApart(mf, st) && st.capacity >= SEQ_STORE_LENGTH
    requires p < |data| && depth >= 4 && forall i: nat, j: nat :: minLen(i, j) >= 3
    requires niceLen0 <= MAX_MATCH && NiceFrom(data, p, niceLen0, nice)
    modifies mf, mf.hash3, mf.hash4, mf.next, st, st.litlenFreqs, st.offsetFreqs
    ensures BlockParsed(st, data, p, q) && HcReady(mf, data, q)
    ensures niceLen <= MAX_MATCH && NiceFrom(data, q, niceLen, nice)
    ensures ParsedBlock(ChainParser(strategy, depth, nice, minLen, split), data, p, q, st.items)
  {
    hide Stand, Tiles, Counted, HcReady, Taken, GreedyChoice, LazyChoice;
    ghost var parser, n: nat := ChainParser(strategy, depth, nice, minLen, split), 0;
    NothingTaken(parser, data, p);
    var maxBlockEnd := ChooseMaxBlockEnd(p, |data|, SOFT_MAX_BLOCK_LENGTH);
    st.Begin(data, p);
    q, niceLen := p, niceLen0;
    var going := true;
    while going
      invariant p <= q <= |data| && st.Holds(data, p, q) && HcReady(mf, data, q)
      invariant niceLen <= MAX_MATCH && NiceFrom(data, q, niceLen, nice)
      invariant Taken(parser, data, p, n) == (st.items, q) && MatchCount(st.items) == |st.seqs|
      invariant going <==> !StopsAfter(parser, data, p, n)
      invariant forall k: nat :: k < n ==> !StopsAfter(parser, data, p, k)
      invariant going ==> q < maxBlockEnd && |st.seqs| < SEQ_STORE_LENGTH
      invariant q <= maxBlockEnd + 345 + MAX_MATCH && |st.seqs| <= SEQ_STORE_LENGTH
      invariant !going ==>
        q > p && (q >= maxBlockEnd || |st.seqs| == SEQ_STORE_LENGTH || q - p >= MIN_BLOCK_LENGTH)
      decreases |data| - q, if going then 1 else 0
    {
      q, niceLen := HcStep(mf, st, data, p, q, niceLen, depth, strategy, minLen, parser, n);
      n := n + 1;
      var shouldEnd := q - p >= MIN_BLOCK_LENGTH && |data| - q >= MIN_BLOCK_LENGTH && split(p, q);
      going := q < maxBlockEnd && |st.seqs| < SEQ_STORE_LENGTH && !shouldEnd;
    }
  }
}
