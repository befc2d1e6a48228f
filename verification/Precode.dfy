/** Run-length coding of the codeword lengths (section 3.2.7 of RFC 1951). */
module Precode {
  import opened LengthCounts
  import opened Canonical
  import opened Arith

  const REPEAT: nat := 16
  const ZEROS: nat := 17
  const MANY_ZEROS: nat := 18
  const PRECODE_SYMS: nat := 19

  /** A length, or one of the three repeat symbols with its extra bits. */
  datatype PreItem = PreItem(sym: nat, extra: nat)

  function ExtraBitsOf(sym: nat): nat {
    if sym == REPEAT then 2 else if sym == ZEROS then 3 else if sym == MANY_ZEROS then 7 else 0
  }

  predicate ValidPre(it: PreItem) {
    && it.sym < PRECODE_SYMS
    && it.extra <
       (if it.sym == REPEAT then 4 else if it.sym == ZEROS then 8 else if it.sym == MANY_ZEROS then 128 else 1)
  }

  function Repeat(v: nat, n: nat): (s: seq<nat>)
    ensures |s| == n && forall k :: 0 <= k < n ==> s[k] == v
  {
    seq(n, _ => v)
  }

  /** Only a repetition of the previous length needs a previous length. */
  predicate CanExpand(out: seq<nat>, it: PreItem) {
    it.sym == REPEAT ==> out != []
  }

  /** The lengths after one more item. */
  function ExpandOne(out: seq<nat>, it: PreItem): (r: seq<nat>)
    requires CanExpand(out, it)
    ensures |r| > |out|
  {
    if it.sym == REPEAT then out + Repeat(out[|out| - 1], 3 + it.extra)
    else if it.sym == ZEROS then out + Repeat(0, 3 + it.extra)
    else if it.sym == MANY_ZEROS then out + Repeat(0, 11 + it.extra)
    else out + [it.sym]
  }

  function AllButLast(items: seq<PreItem>): seq<PreItem>
    requires items != []
  {
    items[..|items| - 1]
  }

  /** The items expand, one after the other, to lens. */
  ghost predicate ExpandsTo(items: seq<PreItem>, lens: seq<nat>) {
    if items == [] then lens == []
    else
      exists before ::
        && ExpandsTo(AllButLast(items), before)
        && CanExpand(before, items[|items| - 1]) && lens == ExpandOne(before, items[|items| - 1])
  }

  lemma ExpandsMore(items: seq<PreItem>, lens: seq<nat>, it: PreItem)
    requires ExpandsTo(items, lens) && CanExpand(lens, it)
    ensures ExpandsTo(items + [it], ExpandOne(lens, it))
  {
    assert AllButLast(items + [it]) == items;
  }

  lemma {:induction false} ExpandsUnique(items: seq<PreItem>, a: seq<nat>, b: seq<nat>)
    requires ExpandsTo(items, a) && ExpandsTo(items, b)
    ensures a == b
  {
    if items != [] {
      var last := |items| - 1;
      var a' :| ExpandsTo(items[..last], a') && CanExpand(a', items[last]) && a == ExpandOne(a', items[last]);
      var b' :| ExpandsTo(items[..last], b') && CanExpand(b', items[last]) && b == ExpandOne(b', items[last]);
      ExpandsUnique(items[..last], a', b');
    }
  }

  /** What the last item is added to. */
  lemma LastExpands(items: seq<PreItem>, lens: seq<nat>) returns (before: seq<nat>)
    requires ExpandsTo(items, lens) && items != []
    ensures var last := |items| - 1;
      ExpandsTo(items[..last], before) && CanExpand(before, items[last]) && lens == ExpandOne(before, items[last])
    ensures before < lens
  {
    before :| ExpandsTo(AllButLast(items), before) && CanExpand(before, items[|items| - 1])
      && lens == ExpandOne(before, items[|items| - 1]);
  }

  /** Fewer items expand to a proper prefix, so that only the last one reaches the end. */
  lemma {:induction false} ExpandsPrefix(items: seq<PreItem>, lens: seq<nat>, i: nat) returns (before: seq<nat>)
    requires ExpandsTo(items, lens) && i < |items|
    ensures ExpandsTo(items[..i], before) && before < lens && CanExpand(before, items[i])
    ensures ExpandOne(before, items[i]) <= lens
    decreases |items|
  {
    hide ExpandsTo, ExpandOne, CanExpand;
    var last := |items| - 1;
    var b := LastExpands(items, lens);
    if i == last {
      before := b;
    } else {
      before := ExpandsPrefix(items[..last], b, i);
      assert items[..last][..i] == items[..i];
    }
  }

  // ---- the items of a list of lengths

  function PackItem(it: PreItem): nat {
    it.sym + 32 * it.extra
  }

  lemma PackedParts(it: PreItem)
    requires ValidPre(it)
    ensures PackItem(it) % 32 == it.sym && PackItem(it) / 32 == it.extra
  {
    QuotientIs(PackItem(it), 32, it.extra, it.sym);
  }

  ghost function SymsOf(items: seq<PreItem>): (s: seq<nat>)
    ensures |s| == |items| && forall k :: 0 <= k < |items| ==> s[k] == items[k].sym
  {
    seq(|items|, k requires 0 <= k < |items| => items[k].sym)
  }

  // ---- the longest item at each place

  /** How many lengths an item stands for. */
  function Covers(it: PreItem): (n: nat)
    ensures n >= 1
  {
    if it.sym == REPEAT || it.sym == ZEROS then 3 + it.extra else if it.sym == MANY_ZEROS then 11 + it.extra else 1
  }

  /** The item can stand for the lengths from start on. */
  ghost predicate StandsAt(lens: seq<nat>, start: nat, it: PreItem) {
    && start + Covers(it) <= |lens| && ValidPre(it) && CanExpand(lens[..start], it)
    && forall k :: start <= k < start + Covers(it) ==>
      lens[k] == if it.sym == REPEAT then lens[start - 1] else if it.sym > REPEAT then 0 else it.sym
  }

  /** No item stands for more lengths; zeros have repeat symbols of their own. */
  ghost predicate LongestAt(lens: seq<nat>, start: nat, it: PreItem) {
    && StandsAt(lens, start, it) && (it.sym == REPEAT ==> lens[start] != 0)
    && forall other :: StandsAt(lens, start, other) ==> Covers(other) <= Covers(it)
  }

  /** How many lengths the items stand for. */
  ghost function Covered(items: seq<PreItem>): nat {
    if items == [] then 0 else Covered(AllButLast(items)) + Covers(items[|items| - 1])
  }

  /** Each item is the longest where it begins. */
  ghost predicate EachLongest(lens: seq<nat>, items: seq<PreItem>) {
    forall i :: 0 <= i < |items| ==> LongestAt(lens, Covered(items[..i]), items[i])
  }

  lemma LongestUnique(lens: seq<nat>, start: nat, a: PreItem, b: PreItem)
    requires LongestAt(lens, start, a) && LongestAt(lens, start, b)
    ensures a == b
  {
    assert Covers(a) == Covers(b);
    assert a.sym < REPEAT ==> lens[start] == a.sym;
    assert b.sym < REPEAT ==> lens[start] == b.sym;
    assert a.sym > REPEAT || b.sym > REPEAT ==> lens[start] == 0;
    assert a.sym == b.sym && a.extra == b.extra;
  }

  lemma {:induction false} SameBeginning(lens: seq<nat>, a: seq<PreItem>, b: seq<PreItem>, n: nat)
    requires EachLongest(lens, a) && EachLongest(lens, b) && n <= |a| && n <= |b|
    ensures a[..n] == b[..n]
  {
    hide LongestAt, Covered;
    if n > 0 {
      SameBeginning(lens, a, b, n - 1);
      LongestUnique(lens, Covered(a[..n - 1]), a[n - 1], b[n - 1]);
    }
  }

  lemma {:induction false} CoveredMore(items: seq<PreItem>, n: nat)
    requires n <= |items|
    ensures Covered(items) >= Covered(items[..n]) + (|items| - n)
  {
    if n < |items| {
      CoveredMore(AllButLast(items), n);
      assert AllButLast(items)[..n] == items[..n];
    } else {
      assert items[..n] == items;
    }
  }

  /** Lengths have only one list of items each of which is the longest where it begins. */
  lemma EachLongestUnique(lens: seq<nat>, a: seq<PreItem>, b: seq<PreItem>)
    requires EachLongest(lens, a) && EachLongest(lens, b) && Covered(a) == Covered(b)
    ensures a == b
  {
    hide EachLongest, Covered;
    var n := if |a| < |b| then |a| else |b|;
    SameBeginning(lens, a, b, n);
    CoveredMore(a, n);
    CoveredMore(b, n);
    assert a[..|a|] == a && b[..|b|] == b;
  }

  /** No three zeros are left as single lengths, nor three further repetitions of a length. */
  lemma RunsAreRepeated(lens: seq<nat>, items: seq<PreItem>, i: nat)
    requires EachLongest(lens, items) && i < |items|
    ensures var s := Covered(items[..i]);
      && (s + 3 <= |lens| && lens[s] == lens[s + 1] == lens[s + 2] == 0 ==> items[i].sym in {ZEROS, MANY_ZEROS})
      && (0 < s && s + 3 <= |lens| && lens[s - 1] == lens[s] == lens[s + 1] == lens[s + 2] != 0 ==>
        items[i].sym == REPEAT)
  {
    hide Covered;
    var s := Covered(items[..i]);
    assert LongestAt(lens, s, items[i]);
    if s + 3 <= |lens| && lens[s] == lens[s + 1] == lens[s + 2] == 0 {
      assert StandsAt(lens, s, PreItem(ZEROS, 0));
    } else if 0 < s && s + 3 <= |lens| && lens[s - 1] == lens[s] == lens[s + 1] == lens[s + 2] != 0 {
      assert StandsAt(lens, s, PreItem(REPEAT, 0));
    }
  }

  /** What has been computed for the first `start` lengths. */
  ghost predicate Itemized(lens: seq<nat>, start: nat, items: seq<PreItem>, freqs: seq<nat>) {
    && start <= |lens| && |freqs| == PRECODE_SYMS && |items| <= start
    && ExpandsTo(items, lens[..start]) && Covered(items) == start && EachLongest(lens, items)
    && (forall k :: 0 <= k < |items| ==> ValidPre(items[k]))
    && forall s :: 0 <= s < PRECODE_SYMS ==> freqs[s] == Count(SymsOf(items), s)
  }

  lemma ItemizedMore(lens: seq<nat>, start: nat, items: seq<PreItem>, freqs: seq<nat>, it: PreItem)
    requires Itemized(lens, start, items, freqs) && LongestAt(lens, start, it)
    ensures Itemized(lens, start + Covers(it), items + [it], freqs[it.sym := freqs[it.sym] + 1])
  {
    hide ExpandsTo, Count, Covered, EachLongest;
    assert ExpandOne(lens[..start], it) == lens[..start + Covers(it)];
    ExpandsMore(items, lens[..start], it);
    LongestMore(lens, items, it);
    var freqs' := freqs[it.sym := freqs[it.sym] + 1];
    forall s | 0 <= s < PRECODE_SYMS ensures freqs'[s] == Count(SymsOf(items + [it]), s) {
      assert SymsOf(items + [it]) == SymsOf(items) + [it.sym];
      CountSplit(SymsOf(items), [it.sym], s);
      CountOne(it.sym, s);
    }
  }

  lemma LongestMore(lens: seq<nat>, items: seq<PreItem>, it: PreItem)
    requires EachLongest(lens, items) && LongestAt(lens, Covered(items), it)
    ensures EachLongest(lens, items + [it]) && Covered(items + [it]) == Covered(items) + Covers(it)
  {
    hide LongestAt;
    assert AllButLast(items + [it]) == items;
    forall i | 0 <= i < |items| + 1 ensures LongestAt(lens, Covered((items + [it])[..i]), (items + [it])[i]) {
      assert (items + [it])[..i] == items[..i];
      assert items[..|items|] == items;
    }
  }

  lemma ItemizedNone(lens: seq<nat>, freqs: seq<nat>)
    requires |freqs| == PRECODE_SYMS && forall s :: 0 <= s < PRECODE_SYMS ==> freqs[s] == 0
    ensures Itemized(lens, 0, [], freqs)
  {
    hide Count;
    forall s | 0 <= s < PRECODE_SYMS ensures Count(SymsOf([]), s) == 0 {
      assert SymsOf([]) == [];
      CountOfNothing(s);
    }
  }

  lemma CountOfNothing(s: nat)
    ensures Count([], s) == 0
  {
    assert Marks([], s) == [];
  }

  ghost predicate ItemsIn(A: seq<nat>, items: seq<PreItem>) {
    |items| <= |A| && forall k :: 0 <= k < |items| ==> A[k] == PackItem(items[k])
  }

  /** Adds the longest item. */
  method Emit(lens: seq<nat>, start: nat, A: array<nat>, freqs: array<nat>, count: nat, it: PreItem,
              ghost items: seq<PreItem>)
    returns (start': nat, count': nat, ghost items': seq<PreItem>)
    requires A != freqs && A.Length >= |lens| && Itemized(lens, start, items, freqs[..]) && ItemsIn(A[..], items)
    requires count == |items| && LongestAt(lens, start, it)
    modifies A, freqs
    ensures start' == start + Covers(it) && count' == count + 1 == |items'| && items' == items + [it]
    ensures Itemized(lens, start', items', freqs[..]) && ItemsIn(A[..], items')
  {
    hide ExpandsTo, Count, Covered, EachLongest;
    ItemizedMore(lens, start, items, freqs[..], it);
    freqs[it.sym] := freqs[it.sym] + 1;
    A[count] := PackItem(it);
    start', count', items' := start + Covers(it), count + 1, items + [it];
    ItemizedLength(lens, start', items', freqs[..]);
  }

  lemma ItemizedLength(lens: seq<nat>, start: nat, items: seq<PreItem>, freqs: seq<nat>)
    requires Itemized(lens, start, items, freqs)
    ensures |items| <= start
  {
  }

  /** The lengths from start to end are all len. */
  ghost predicate Run(lens: seq<nat>, start: nat, end: nat, len: nat) {
    start <= end <= |lens| && len < REPEAT && forall k :: start <= k < end ==> lens[k] == len
  }

  /** And the next one is another. */
  ghost predicate WholeRun(lens: seq<nat>, start: nat, end: nat, len: nat) {
    Run(lens, start, end, len) && (end < |lens| ==> lens[end] != len)
  }

  lemma WithinRun(lens: seq<nat>, start: nat, end: nat, len: nat, it: PreItem)
    requires WholeRun(lens, start, end, len) && start < end && StandsAt(lens, start, it)
    ensures Covers(it) <= end - start && Covers(it) <= (if len == 0 then 138 else 6)
    ensures len == 0 && end - start < 11 ==> Covers(it) <= 10
    ensures it.sym < REPEAT ==> it == PreItem(len, 0)
    ensures len != 0 && (start == 0 || lens[start - 1] != len) ==> Covers(it) == 1
  {
    assert lens[start] == len;
  }

  /** The longest item for the rest of a run of zeros. */
  lemma LongestZeros(lens: seq<nat>, start: nat, end: nat, it: PreItem)
    requires WholeRun(lens, start, end, 0) && start < end
    requires var n := end - start;
      it == if n >= 11 then PreItem(MANY_ZEROS, if n - 11 < 127 then n - 11 else 127)
            else if n >= 3 then PreItem(ZEROS, if n - 3 < 7 then n - 3 else 7) else PreItem(0, 0)
    ensures LongestAt(lens, start, it)
  {
    forall other | StandsAt(lens, start, other) ensures Covers(other) <= Covers(it) {
      WithinRun(lens, start, end, 0, other);
    }
  }

  /** The longest item for the rest of a run of another length, with or without one of them before it. */
  lemma LongestLens(lens: seq<nat>, start: nat, end: nat, len: nat, it: PreItem)
    requires WholeRun(lens, start, end, len) && start < end && len != 0
    requires var n := end - start;
      it == if start > 0 && lens[start - 1] == len && n >= 3 then PreItem(REPEAT, if n - 3 < 3 then n - 3 else 3)
            else PreItem(len, 0)
    ensures LongestAt(lens, start, it)
  {
    forall other | StandsAt(lens, start, other) ensures Covers(other) <= Covers(it) {
      WithinRun(lens, start, end, len, other);
    }
  }

  /** The items of a run of zeros, as long as three or more are left. */
  method EmitZeros(lens: seq<nat>, start0: nat, end: nat, A: array<nat>, freqs: array<nat>, count0: nat,
                   ghost items0: seq<PreItem>)
    returns (start: nat, count: nat, ghost items: seq<PreItem>)
    requires A != freqs && A.Length >= |lens| && Itemized(lens, start0, items0, freqs[..]) && ItemsIn(A[..], items0)
    requires count0 == |items0| && WholeRun(lens, start0, end, 0)
    modifies A, freqs
    ensures Itemized(lens, start, items, freqs[..]) && ItemsIn(A[..], items) && count == |items|
    ensures start0 <= start <= end < start + 3
  {
    hide Itemized, ItemsIn, LongestAt;
    start, count, items := start0, count0, items0;
    while end - start >= 11
      invariant Itemized(lens, start, items, freqs[..]) && ItemsIn(A[..], items) && count == |items|
      invariant start0 <= start <= end
    {
      var extra := if end - start - 11 < 0x7F then end - start - 11 else 0x7F;
      LongestZeros(lens, start, end, PreItem(MANY_ZEROS, extra));
      start, count, items := Emit(lens, start, A, freqs, count, PreItem(MANY_ZEROS, extra), items);
    }
    if end - start >= 3 {
      var extra := if end - start - 3 < 7 then end - start - 3 else 7;
      LongestZeros(lens, start, end, PreItem(ZEROS, extra));
      start, count, items := Emit(lens, start, A, freqs, count, PreItem(ZEROS, extra), items);
    }
  }

  /** The items of a run of at least four equal lengths, as long as three or more are left. */
  method EmitRepeats(lens: seq<nat>, start0: nat, end: nat, len: nat, A: array<nat>, freqs: array<nat>, count0: nat,
                     ghost items0: seq<PreItem>)
    returns (start: nat, count: nat, ghost items: seq<PreItem>)
    requires A != freqs && A.Length >= |lens| && Itemized(lens, start0, items0, freqs[..]) && ItemsIn(A[..], items0)
    requires count0 == |items0| && WholeRun(lens, start0, end, len) && end - start0 >= 4 && len != 0
    requires start0 > 0 ==> lens[start0 - 1] != len
    modifies A, freqs
    ensures Itemized(lens, start, items, freqs[..]) && ItemsIn(A[..], items) && count == |items|
    ensures start0 < start <= end < start + 3
  {
    hide Itemized, ItemsIn, LongestAt;
    LongestLens(lens, start0, end, len, PreItem(len, 0));
    start, count, items := Emit(lens, start0, A, freqs, count0, PreItem(len, 0), items0);
    while end - start >= 3
      invariant Itemized(lens, start, items, freqs[..]) && ItemsIn(A[..], items) && count == |items|
      invariant start0 < start <= end
    {
      var extra := if end - start - 3 < 3 then end - start - 3 else 3;
      LongestLens(lens, start, end, len, PreItem(REPEAT, extra));
      start, count, items := Emit(lens, start, A, freqs, count, PreItem(REPEAT, extra), items);
    }
  }

  /** The items of a run. */
  method EmitRun(lens: seq<nat>, start0: nat, end: nat, len: nat, A: array<nat>, freqs: array<nat>, count0: nat,
                 ghost items0: seq<PreItem>)
    returns (start: nat, count: nat, ghost items: seq<PreItem>)
    requires A != freqs && A.Length >= |lens| && Itemized(lens, start0, items0, freqs[..]) && ItemsIn(A[..], items0)
    requires count0 == |items0| && WholeRun(lens, start0, end, len)
    requires start0 > 0 ==> lens[start0 - 1] != len
    modifies A, freqs
    ensures Itemized(lens, start, items, freqs[..]) && ItemsIn(A[..], items) && count == |items| && start == end
  {
    hide Itemized, ItemsIn, LongestAt;
    start, count, items := start0, count0, items0;
    if len == 0 {
      start, count, items := EmitZeros(lens, start, end, A, freqs, count, items);
    } else if end - start >= 4 {
      start, count, items := EmitRepeats(lens, start, end, len, A, freqs, count, items);
    }
    while start != end
      invariant start0 <= start <= end && Itemized(lens, start, items, freqs[..]) && ItemsIn(A[..], items)
      invariant count == |items| && (end - start < 3 || (start == start0 && end - start < 4 && len != 0))
      decreases end - start
    {
      if len == 0 {
        LongestZeros(lens, start, end, PreItem(0, 0));
      } else {
        LongestLens(lens, start, end, len, PreItem(len, 0));
      }
      start, count, items := Emit(lens, start, A, freqs, count, PreItem(len, 0), items);
    }
  }

  /** Computes the items of the lengths and how often each symbol occurs in them. */
  method ComputePrecodeItems(lens: seq<nat>, freqs: array<nat>, A: array<nat>)
    returns (count: nat, ghost items: seq<PreItem>)
    requires |lens| > 0 && (forall k :: 0 <= k < |lens| ==> lens[k] < REPEAT)
    requires freqs.Length == PRECODE_SYMS && A.Length >= |lens| && A != freqs
    modifies freqs, A
    ensures count == |items| <= |lens| && ItemsIn(A[..], items)
    ensures ExpandsTo(items, lens) && Covered(items) == |lens| && EachLongest(lens, items)
    ensures forall k :: 0 <= k < |items| ==> ValidPre(items[k])
    ensures forall s :: 0 <= s < PRECODE_SYMS ==> freqs[s] == Count(SymsOf(items), s)
  {
    hide ExpandsTo, Count, LongestAt;
    forall s | 0 <= s < PRECODE_SYMS {
      freqs[s] := 0;
    }
    ItemizedNone(lens, freqs[..]);
    var start := 0;
    count, items := 0, [];
    while start != |lens|
      invariant 0 <= start <= |lens| && Itemized(lens, start, items, freqs[..]) && ItemsIn(A[..], items)
      invariant count == |items| && (0 < start < |lens| ==> lens[start - 1] != lens[start])
      decreases |lens| - start
    {
      hide Itemized, ItemsIn, EachLongest, Covered;
      var len := lens[start];
      var end := start + 1;
      while end != |lens| && len == lens[end]
        invariant start < end <= |lens| && Run(lens, start, end, len)
        decreases |lens| - end
      {
        end := end + 1;
      }
      start, count, items := EmitRun(lens, start, end, len, A, freqs, count, items);
    }
    assert lens[..|lens|] == lens;
  }

  // ---- the longest items are not always the fewest

  lemma ExpandsFirst(it: PreItem)
    requires it.sym != REPEAT
    ensures ExpandsTo([it], ExpandOne([], it))
  {
    ExpandsMore([], [], it);
    assert [] + [it] == [it];
  }

  lemma LongestFirst(lens: seq<nat>, it: PreItem)
    requires LongestAt(lens, 0, it)
    ensures EachLongest(lens, [it]) && Covered([it]) == Covers(it)
  {
    LongestMore(lens, [], it);
    assert [] + [it] == [it];
  }

  /** For 140 zeros the longest items are one of 138 zeros and two single ones; one of 137 and one of three would do. */
  lemma FewerItems()
    ensures var lens := Repeat(0, 140);
      var longest := [PreItem(MANY_ZEROS, 127), PreItem(0, 0), PreItem(0, 0)];
      && EachLongest(lens, longest) && Covered(longest) == 140
      && ExpandsTo([PreItem(MANY_ZEROS, 126), PreItem(ZEROS, 0)], lens)
  {
    hide LongestAt, EachLongest, ExpandsTo, Covered;
    var lens, a, b, c := Repeat(0, 140), PreItem(MANY_ZEROS, 127), PreItem(0, 0), PreItem(MANY_ZEROS, 126);
    LongestZeros(lens, 0, 140, a);
    LongestFirst(lens, a);
    LongestZeros(lens, 138, 140, b);
    LongestMore(lens, [a], b);
    LongestZeros(lens, 139, 140, b);
    LongestMore(lens, [a] + [b], b);
    assert [a] + [b] + [b] == [a, b, b];
    ExpandsFirst(c);
    ExpandsMore([c], ExpandOne([], c), PreItem(ZEROS, 0));
    assert [c] + [PreItem(ZEROS, 0)] == [c, PreItem(ZEROS, 0)];
    assert ExpandOne(ExpandOne([], c), PreItem(ZEROS, 0)) == lens;
  }
}
