/** Assigning code lengths to symbols and generating their codewords. */
module GenCodewords {
  import opened Arith
  import opened Packed
  import opened Bits
  import opened LengthCounts
  import opened Canonical
  import opened Reverse

  // ---- the lengths in the order of the sorted symbols

  ghost function Repeat(x: nat, n: nat): (s: seq<nat>)
    ensures |s| == n && forall k :: 0 <= k < n ==> s[k] == x
  {
    seq(n, _ => x)
  }

  /** c[l] copies of each length l from the largest down to 1. */
  ghost function Descending(c: seq<nat>): seq<nat> {
    if |c| <= 1 then [] else Repeat(|c| - 1, c[|c| - 1]) + Descending(c[..|c| - 1])
  }

  ghost predicate NonIncreasing(s: seq<nat>) {
    forall j, k :: 0 <= j < k < |s| ==> s[j] >= s[k]
  }

  lemma {:induction false} DescendingShape(c: seq<nat>)
    ensures NonIncreasing(Descending(c))
    ensures forall k :: 0 <= k < |Descending(c)| ==> 0 < Descending(c)[k] < |c|
  {
    if |c| > 1 {
      DescendingShape(c[..|c| - 1]);
    }
  }

  lemma {:induction false} CountRepeat(x: nat, n: nat, d: nat)
    ensures Count(Repeat(x, n), d) == if x == d then n else 0
  {
    if n == 0 {
      assert Marks(Repeat(x, 0), d) == [];
    } else {
      assert Repeat(x, n) == Repeat(x, n - 1) + [x];
      CountSplit(Repeat(x, n - 1), [x], d);
      CountOne(x, d);
      CountRepeat(x, n - 1, d);
    }
  }

  lemma {:induction false} CountDescending(c: seq<nat>, d: nat)
    ensures Count(Descending(c), d) == if 0 < d < |c| then c[d] else 0
  {
    if |c| > 1 {
      var m := |c| - 1;
      CountSplit(Repeat(m, c[m]), Descending(c[..m]), d);
      CountRepeat(m, c[m], d);
      CountDescending(c[..m], d);
    } else {
      assert Marks([], d) == [];
    }
  }

  lemma {:induction false} DescendingLength(c: seq<nat>)
    requires c != [] && c[0] == 0
    ensures |Descending(c)| == Sum(c)
  {
    var m := |c| - 1;
    assert c == c[..m] + [c[m]];
    SumAppend(c[..m], [c[m]]);
    assert Sum([c[m]]) == c[m];
    if m > 0 {
      DescendingLength(c[..m]);
    } else {
      assert c[..0] == [];
    }
  }

  lemma CountPositive(s: seq<nat>, k: nat)
    requires k < |s|
    ensures Count(s, s[k]) > 0
  {
    assert s == s[..k] + ([s[k]] + s[k + 1..]);
    CountSplit(s[..k], [s[k]] + s[k + 1..], s[k]);
    CountSplit([s[k]], s[k + 1..], s[k]);
    CountOne(s[k], s[k]);
  }

  lemma {:induction false} CountFind(s: seq<nat>, d: nat) returns (k: nat)
    requires Count(s, d) > 0
    ensures k < |s| && s[k] == d
  {
    if s == [] {
      assert false;
    }
    assert s == [s[0]] + s[1..];
    CountSplit([s[0]], s[1..], d);
    CountOne(s[0], d);
    if s[0] == d {
      k := 0;
    } else {
      k := CountFind(s[1..], d);
      k := k + 1;
    }
  }

  /** Sorted sequences with the same elements are the same. */
  lemma {:induction false} SameCounts(a: seq<nat>, b: seq<nat>)
    requires NonIncreasing(a) && NonIncreasing(b) && |a| == |b|
    requires forall d: nat :: Count(a, d) == Count(b, d)
    ensures a == b
  {
    if a != [] {
      CountPositive(a, 0);
      CountPositive(b, 0);
      var j := CountFind(b, a[0]);
      var k := CountFind(a, b[0]);
      assert a[0] == b[0];
      forall d: nat ensures Count(a[1..], d) == Count(b[1..], d) {
        assert a == [a[0]] + a[1..] && b == [b[0]] + b[1..];
        CountSplit([a[0]], a[1..], d);
        CountSplit([b[0]], b[1..], d);
      }
      SameCounts(a[1..], b[1..]);
      assert a == [a[0]] + a[1..] && b == [b[0]] + b[1..];
    }
  }

  // ---- giving the lengths to the symbols

  /** Distinct symbols below n. */
  ghost predicate Symbols(syms: seq<nat>, n: nat) {
    && (forall k :: 0 <= k < |syms| ==> syms[k] < n)
    && (forall j, k :: 0 <= j < k < |syms| ==> syms[j] != syms[k])
  }

  /** syms[k] has length L[k], all other symbols have none. */
  ghost predicate Assigned(lens: seq<nat>, syms: seq<nat>, L: seq<nat>) {
    && Symbols(syms, |lens|) && |syms| == |L|
    && (forall k :: 0 <= k < |L| ==> lens[syms[k]] == L[k])
    && (forall s :: 0 <= s < |lens| && s !in syms ==> lens[s] == 0)
  }

  lemma MarksUpdate(s: seq<nat>, k: nat, v: nat, d: nat)
    requires k < |s|
    ensures Count(s[k := v], d) + (if s[k] == d then 1 else 0) == Count(s, d) + (if v == d then 1 else 0)
  {
    assert Marks(s[k := v], d) == Marks(s, d)[k := if v == d then 1 else 0];
    SumUpdate(Marks(s, d), k, if v == d then 1 else 0);
  }

  lemma {:induction false} NoneCounted(lens: seq<nat>, d: nat)
    requires d > 0 && forall s :: 0 <= s < |lens| ==> lens[s] == 0
    ensures Count(lens, d) == 0
  {
    if Count(lens, d) > 0 {
      var k := CountFind(lens, d);
    }
  }

  /** The alphabet has as many codewords of each length as the sorted list. */
  lemma {:induction false} AssignedCount(lens: seq<nat>, syms: seq<nat>, L: seq<nat>, d: nat)
    requires Assigned(lens, syms, L) && d > 0
    ensures Count(lens, d) == Count(L, d)
    decreases |L|
  {
    if L == [] {
      NoneCounted(lens, d);
      assert Marks(L, d) == [];
    } else {
      var s := syms[0];
      var lens' := lens[s := 0];
      assert Assigned(lens', syms[1..], L[1..]) by {
        assert syms == [s] + syms[1..];
      }
      AssignedCount(lens', syms[1..], L[1..], d);
      MarksUpdate(lens, s, 0, d);
      assert L == [L[0]] + L[1..];
      CountSplit([L[0]], L[1..], d);
      CountOne(L[0], d);
    }
  }

  lemma AssignedComplete(lens: seq<nat>, syms: seq<nat>, c: seq<nat>, max: nat)
    requires |c| == max + 1 && c[0] == 0 && Codespace(c) == Pow2(max)
    requires Assigned(lens, syms, Descending(c))
    ensures Complete(lens, max)
    ensures forall l :: 0 < l <= max ==> Count(lens, l) == c[l]
  {
    forall l | 0 < l <= max ensures Count(lens, l) == c[l] {
      AssignedCount(lens, syms, Descending(c), l);
      CountDescending(c, l);
    }
    assert Counts(lens, max + 1) == c;
    DescendingShape(c);
  }

  // ---- the two halves of gen_codewords

  /** The symbols up to i have their lengths; the others that occur are still to come. */
  ghost predicate AssignedUpTo(lens: seq<nat>, syms: seq<nat>, L: seq<nat>, i: nat) {
    && Symbols(syms, |lens|) && |syms| == |L| && i <= |L|
    && (forall k :: 0 <= k < i ==> lens[syms[k]] == L[k])
    && (forall s :: 0 <= s < |lens| && s !in syms ==> lens[s] == 0)
  }

  lemma AssignNext(lens: seq<nat>, syms: seq<nat>, L: seq<nat>, i: nat)
    requires AssignedUpTo(lens, syms, L, i) && i < |L|
    ensures AssignedUpTo(lens[syms[i] := L[i]], syms, L, i + 1)
  {
  }

  method AssignLengths(A: array<u32>, lens: array<nat>, lenCounts: array<nat>, maxLen: nat, ghost syms: seq<nat>)
    requires A as object != lens && lens != lenCounts
    requires 1 <= maxLen < lenCounts.Length && lenCounts[0] == 0
    requires |syms| == |Descending(lenCounts[..maxLen + 1])| <= A.Length && Symbols(syms, lens.Length)
    requires forall k :: 0 <= k < |syms| ==> Sym(A[k]) == syms[k]
    requires forall s :: 0 <= s < lens.Length && s !in syms ==> lens[s] == 0
    modifies lens
    ensures Assigned(lens[..], syms, Descending(lenCounts[..maxLen + 1]))
  {
    ghost var c := lenCounts[..maxLen + 1];
    ghost var L := Descending(c);
    var i: nat, len: nat := 0, maxLen;
    assert L[0..] == L && c[..maxLen + 1] == c;
    while len >= 1
      invariant len <= maxLen && i <= |L|
      invariant lenCounts[..maxLen + 1] == c
      invariant L[i..] == Descending(c[..len + 1])
      invariant AssignedUpTo(lens[..], syms, L, i)
    {
      assert c[..len + 1][..len] == c[..len];
      i := AssignOne(A, lens, lenCounts[len], len, i, syms, L, Descending(c[..len]));
      len := len - 1;
    }
    assert L[i..] == [];
  }

  /** Assigns the length to the next symbols, as many as have it. */
  method AssignOne(A: array<u32>, lens: array<nat>, count0: nat, len: nat, i0: nat, ghost syms: seq<nat>,
                   ghost L: seq<nat>, ghost rest: seq<nat>)
    returns (i: nat)
    requires A as object != lens && |syms| == |L| <= A.Length && Symbols(syms, lens.Length)
    requires forall k :: 0 <= k < |syms| ==> Sym(A[k]) == syms[k]
    requires i0 <= |L| && L[i0..] == Repeat(len, count0) + rest && AssignedUpTo(lens[..], syms, L, i0)
    modifies lens
    ensures i <= |L| && L[i..] == rest && AssignedUpTo(lens[..], syms, L, i)
  {
    var count := count0;
    i := i0;
    while count > 0
      invariant i <= |L| && L[i..] == Repeat(len, count) + rest
      invariant AssignedUpTo(lens[..], syms, L, i)
    {
      assert L[i..][0] == len;
      AssignNext(lens[..], syms, L, i);
      ghost var was := lens[..];
      lens[Sym(A[i])] := len;
      assert lens[..] == was[syms[i] := L[i]];
      assert L[i + 1..] == L[i..][1..];
      i := i + 1;
      count := count - 1;
    }
  }

  /** The next codeword of each length once the symbols below `sym` have theirs. */
  ghost predicate NextCodewords(next: seq<nat>, lens: seq<nat>, max: nat, sym: nat) {
    && |next| > max && sym <= |lens|
    && next[0] <= sym
    && forall l :: 0 < l <= max ==> next[l] == 2 * Used(lens, l - 1) + Count(lens[..sym], l)
  }

  lemma NextStep(next: seq<nat>, lens: seq<nat>, max: nat, sym: nat)
    requires NextCodewords(next, lens, max, sym) && sym < |lens| && lens[sym] <= max
    ensures lens[sym] > 0 ==> next[lens[sym]] == CodeValue(lens, sym)
    ensures NextCodewords(next[lens[sym] := next[lens[sym]] + 1], lens, max, sym + 1)
  {
    hide Used;
    forall l | 0 < l <= max
      ensures Count(lens[..sym + 1], l) == Count(lens[..sym], l) + if lens[sym] == l then 1 else 0
    {
      CountPrefix(lens, sym, l);
    }
  }

  lemma CodeIsSmall(lens: seq<nat>, s: nat, max: nat)
    requires Valid(lens, max) && max <= 15 && s < |lens| && lens[s] > 0
    ensures CodeValue(lens, s) < Pow2(lens[s]) <= Pow2(15) == 0x8000
    ensures ReverseCodeword(CodeValue(lens, s), lens[s]) == Le(Code(lens, s)) < 0x8000
  {
    CodeFits(lens, s, max);
    Pow2Monotone(lens[s], 15);
    assert Pow2(8) == 256;
    Pow2Add(8, 7);
    Reverses(CodeValue(lens, s), lens[s]);
    LeBound(Code(lens, s));
  }

  /** Where the codewords of each length start. */
  method FirstCodewords(lenCounts: array<nat>, maxLen: nat, ghost lens: seq<nat>) returns (nextCodewords: array<nat>)
    requires 1 <= maxLen <= 15 && maxLen < lenCounts.Length && lenCounts[0] == 0
    requires forall l :: 0 < l <= maxLen ==> Count(lens, l) == lenCounts[l]
    ensures fresh(nextCodewords) && nextCodewords.Length == 16 && nextCodewords[0] == 0
    ensures forall l :: 0 < l <= maxLen ==> nextCodewords[l] == 2 * Used(lens, l - 1)
  {
    hide Used, Count;
    nextCodewords := new nat[16](_ => 0);
    UsedStep(lens, 0);
    for len := 2 to maxLen + 1
      invariant nextCodewords[0] == 0
      invariant forall l :: 0 < l < len ==> nextCodewords[l] == 2 * Used(lens, l - 1)
    {
      UsedStep(lens, len - 2);
      nextCodewords[len] := 2 * (nextCodewords[len - 1] + lenCounts[len - 1]);
    }
  }

  method GenerateCodes(A: array<u32>, lens: array<nat>, lenCounts: array<nat>, maxLen: nat, numSyms: nat)
    requires A as object != lens && A as object != lenCounts && lens != lenCounts
    requires 1 <= maxLen <= 15 && maxLen < lenCounts.Length && numSyms == lens.Length <= A.Length
    requires numSyms <= SYMBOL_VALUES
    requires Complete(lens[..], maxLen)
    requires forall l :: 0 < l <= maxLen ==> Count(lens[..], l) == lenCounts[l]
    requires lenCounts[0] == 0
    modifies A
    ensures forall s :: 0 <= s < numSyms && lens[s] > 0 ==> A[s] == Le(Code(lens[..], s))
  {
    hide Used, Count, Code, CodeValue, ReverseCodeword;
    ghost var ls := lens[..];
    var nextCodewords := FirstCodewords(lenCounts, maxLen, ls);
    NoneBefore(ls);
    for sym := 0 to numSyms
      invariant NextCodewords(nextCodewords[..], ls, maxLen, sym)
      invariant forall s :: 0 <= s < sym && ls[s] > 0 ==> A[s] == Le(Code(ls, s))
    {
      var l := lens[sym];
      assert l == ls[sym];
      NextStep(nextCodewords[..], ls, maxLen, sym);
      var codeword := nextCodewords[l];
      ghost var was := nextCodewords[..];
      nextCodewords[l] := codeword + 1;
      assert nextCodewords[..] == was[l := codeword + 1];
      if l > 0 {
        CodeIsSmall(ls, sym, maxLen);
      } else {
        ReversesNothing(codeword);
      }
      A[sym] := ReverseCodeword(codeword, l);
    }
  }

  lemma NoneBefore(lens: seq<nat>)
    ensures forall l :: Count(lens[..0], l) == 0
  {
    forall l ensures Count(lens[..0], l) == 0 {
      assert Marks(lens[..0], l) == [];
    }
  }

  method GenCodewords(A: array<u32>, lens: array<nat>, lenCounts: array<nat>, maxLen: nat, numSyms: nat,
                      ghost syms: seq<nat>)
    requires A as object != lens && A as object != lenCounts && lens != lenCounts
    requires 1 <= maxLen <= 15 && maxLen < lenCounts.Length && numSyms == lens.Length <= A.Length
    requires numSyms <= SYMBOL_VALUES
    requires lenCounts[0] == 0 && Codespace(lenCounts[..maxLen + 1]) == Pow2(maxLen)
    requires Sum(lenCounts[..maxLen + 1]) == |syms| <= numSyms && Symbols(syms, numSyms)
    requires forall k :: 0 <= k < |syms| ==> Sym(A[k]) == syms[k]
    requires forall s :: 0 <= s < lens.Length && s !in syms ==> lens[s] == 0
    modifies A, lens
    ensures Assigned(lens[..], syms, Descending(lenCounts[..maxLen + 1]))
    ensures Complete(lens[..], maxLen)
    ensures forall s :: 0 <= s < numSyms && lens[s] > 0 ==> A[s] == Le(Code(lens[..], s))
  {
    hide Used, Count, Code, Codespace, Sum, Pow2, Descending;
    ghost var c := lenCounts[..maxLen + 1];
    DescendingLength(c);
    AssignLengths(A, lens, lenCounts, maxLen, syms);
    AssignedComplete(lens[..], syms, c, maxLen);
    GenerateCodes(A, lens, lenCounts, maxLen, numSyms);
  }
}
