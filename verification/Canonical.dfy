/** Canonical Huffman codes (section 3.2.2 of RFC 1951). */
module Canonical {
  import opened Arith
  import opened Bits
  import opened LengthCounts

  /** The number of codewords of each length below l; length 0 means no codeword. */
  ghost function Counts(lens: seq<nat>, l: nat): (c: seq<nat>)
    ensures |c| == l && forall j :: 0 <= j < l ==> c[j] == if j == 0 then 0 else Count(lens, j)
  {
    seq(l, j requires 0 <= j < l => if j == 0 then 0 else Count(lens, j))
  }

  /** The code space used by the codewords of length at most l, in units of 2^-l. */
  ghost function Used(lens: seq<nat>, l: nat): nat {
    Codespace(Counts(lens, l + 1))
  }

  lemma UsedStep(lens: seq<nat>, l: nat)
    ensures Used(lens, 0) == 0
    ensures Used(lens, l + 1) == 2 * Used(lens, l) + Count(lens, l + 1)
  {
    assert Counts(lens, l + 2)[..l + 1] == Counts(lens, l + 1);
    assert Counts(lens, 1) == [0] && [0][..0] == [];
    assert Codespace([]) == 0;
  }

  /** The position of symbol s among the symbols with a codeword of the same length. */
  ghost function Rank(lens: seq<nat>, s: nat): nat
    requires s < |lens|
  {
    Count(lens[..s], lens[s])
  }

  /** The codeword of s as a number, most significant bit first. */
  ghost function CodeValue(lens: seq<nat>, s: nat): nat
    requires s < |lens| && lens[s] > 0
  {
    2 * Used(lens, lens[s] - 1) + Rank(lens, s)
  }

  ghost function Code(lens: seq<nat>, s: nat): (b: Bits)
    requires s < |lens| && lens[s] > 0
    ensures |b| == lens[s]
  {
    Digits(CodeValue(lens, s), lens[s])
  }

  /** No length exceeds max and the code space is not overused. */
  ghost predicate Valid(lens: seq<nat>, max: nat) {
    && (forall s :: 0 <= s < |lens| ==> lens[s] <= max)
    && Used(lens, max) <= Pow2(max)
  }

  ghost predicate Complete(lens: seq<nat>, max: nat) {
    && (forall s :: 0 <= s < |lens| ==> lens[s] <= max)
    && Used(lens, max) == Pow2(max)
  }

  /** The bits begin with the codeword of s. */
  ghost predicate Decodes(lens: seq<nat>, b: Bits, s: nat) {
    s < |lens| && lens[s] > 0 && Code(lens, s) <= b
  }

  // ---- counting

  lemma CountSplit(a: seq<nat>, b: seq<nat>, d: nat)
    ensures Count(a + b, d) == Count(a, d) + Count(b, d)
  {
    assert Marks(a + b, d) == Marks(a, d) + Marks(b, d);
    SumAppend(Marks(a, d), Marks(b, d));
  }

  lemma CountOne(x: nat, d: nat)
    ensures Count([x], d) == if x == d then 1 else 0
  {
    var m := Marks([x], d);
    assert m[1..] == [];
    assert Sum(m) == m[0] + Sum(m[1..]);
  }

  lemma CountPrefix(s: seq<nat>, n: nat, d: nat)
    requires n < |s|
    ensures Count(s[..n + 1], d) == Count(s[..n], d) + if s[n] == d then 1 else 0
  {
    assert s[..n + 1] == s[..n] + [s[n]];
    CountSplit(s[..n], [s[n]], d);
    CountOne(s[n], d);
  }

  lemma {:induction false} CountPrefixMonotone(s: seq<nat>, m: nat, n: nat, d: nat)
    requires m <= n <= |s|
    ensures Count(s[..m], d) <= Count(s[..n], d)
    decreases n
  {
    if m < n {
      CountPrefix(s, n - 1, d);
      CountPrefixMonotone(s, m, n - 1, d);
    }
  }

  lemma RankBound(lens: seq<nat>, s: nat)
    requires s < |lens|
    ensures Rank(lens, s) < Count(lens, lens[s])
  {
    CountPrefix(lens, s, lens[s]);
    CountPrefixMonotone(lens, s + 1, |lens|, lens[s]);
    assert lens[..|lens|] == lens;
  }

  lemma RankStrict(lens: seq<nat>, s: nat, t: nat)
    requires s < t < |lens| && lens[s] == lens[t]
    ensures Rank(lens, s) < Rank(lens, t)
  {
    CountPrefix(lens, s, lens[s]);
    CountPrefixMonotone(lens, s + 1, t, lens[s]);
  }

  /** Every rank below the count is taken. */
  lemma {:induction false} RankExists(lens: seq<nat>, l: nat, r: nat, n: nat) returns (s: nat)
    requires n <= |lens| && r < Count(lens[..n], l)
    ensures s < n && lens[s] == l && Rank(lens, s) == r
    decreases n
  {
    if n == 0 {
      assert false;
    }
    CountPrefix(lens, n - 1, l);
    if r < Count(lens[..n - 1], l) {
      s := RankExists(lens, l, r, n - 1);
    } else {
      s := n - 1;
    }
  }

  // ---- code space

  lemma {:induction false} UsedGrows(lens: seq<nat>, l: nat, m: nat)
    requires l <= m
    ensures Used(lens, l) * Pow2(m - l) <= Used(lens, m)
    decreases m
  {
    hide Used;
    if l < m {
      UsedGrows(lens, l, m - 1);
      UsedStep(lens, m - 1);
      Twice(Used(lens, l), Pow2(m - 1 - l));
    }
  }

  lemma CancelFactor(a: nat, b: nat, p: nat)
    requires p > 0 && a * p <= b * p
    ensures a <= b
  {
  }

  lemma UsedFits(lens: seq<nat>, l: nat, max: nat)
    requires Valid(lens, max) && l <= max
    ensures Used(lens, l) <= Pow2(l)
  {
    hide Used, Pow2;
    UsedGrows(lens, l, max);
    Pow2Add(l, max - l);
    CancelFactor(Used(lens, l), Pow2(l), Pow2(max - l));
  }

  lemma CodeFits(lens: seq<nat>, s: nat, max: nat)
    requires Valid(lens, max) && s < |lens| && lens[s] > 0
    ensures CodeValue(lens, s) < Used(lens, lens[s]) <= Pow2(lens[s])
    ensures Val(Code(lens, s)) == CodeValue(lens, s)
  {
    RankBound(lens, s);
    UsedStep(lens, lens[s] - 1);
    UsedFits(lens, lens[s], max);
    ValDigits(CodeValue(lens, s), lens[s]);
  }

  // ---- decoding by prefix values

  lemma ValPrefix(b: Bits, l: nat)
    requires l < |b|
    ensures Val(b[..l + 1]) == 2 * Val(b[..l]) + Bit(b[l])
  {
    assert b[..l + 1][..l] == b[..l];
  }

  lemma DecodesIff(lens: seq<nat>, b: Bits, s: nat, max: nat)
    requires Valid(lens, max) && s < |lens| && 0 < lens[s] <= |b|
    ensures Decodes(lens, b, s) <==> Val(b[..lens[s]]) == CodeValue(lens, s)
  {
    CodeFits(lens, s, max);
    if Code(lens, s) <= b {
      assert b[..lens[s]] == Code(lens, s);
    }
    if Val(b[..lens[s]]) == CodeValue(lens, s) {
      ValInjective(b[..lens[s]], Code(lens, s));
    }
  }

  /** Once a prefix lies in the used code space, all longer prefixes lie below the codewords of
      their length. */
  lemma {:induction false} Overtaken(lens: seq<nat>, b: Bits, l: nat, m: nat)
    requires l < m <= |b| && Val(b[..l]) < Used(lens, l)
    ensures Val(b[..m]) < 2 * Used(lens, m - 1)
    decreases m
  {
    ValPrefix(b, m - 1);
    if l < m - 1 {
      Overtaken(lens, b, l, m - 1);
      UsedStep(lens, m - 2);
    }
  }

  /** No codeword is a prefix of another: at most one symbol can be decoded. */
  lemma DecodesUnique(lens: seq<nat>, b: Bits, s: nat, t: nat, max: nat)
    requires Valid(lens, max) && Decodes(lens, b, s) && Decodes(lens, b, t)
    ensures s == t
  {
    DecodesIff(lens, b, s, max);
    DecodesIff(lens, b, t, max);
    CodeFits(lens, s, max);
    CodeFits(lens, t, max);
    if lens[s] < lens[t] {
      Overtaken(lens, b, lens[s], lens[t]);
    } else if lens[t] < lens[s] {
      Overtaken(lens, b, lens[t], lens[s]);
    } else if s < t {
      RankStrict(lens, s, t);
    } else if t < s {
      RankStrict(lens, t, s);
    }
  }

  lemma PrefixFree(lens: seq<nat>, s: nat, t: nat, max: nat)
    requires Valid(lens, max) && s < |lens| && t < |lens| && lens[s] > 0 && lens[t] > 0 && s != t
    ensures !(Code(lens, s) <= Code(lens, t))
  {
    if Code(lens, s) <= Code(lens, t) {
      DecodesUnique(lens, Code(lens, t), s, t, max);
    }
  }

  /** The search of a canonical decoder: the first length whose used code space covers the prefix. */
  lemma {:induction false} Search(lens: seq<nat>, b: Bits, l: nat, max: nat) returns (s: nat)
    requires Valid(lens, max) && 0 < l <= max <= |b|
    requires Val(b[..l - 1]) >= Used(lens, l - 1)
    requires Val(b[..max]) < Used(lens, max)
    ensures Decodes(lens, b, s)
    decreases max - l
  {
    ValPrefix(b, l - 1);
    UsedStep(lens, l - 1);
    var p := Val(b[..l]);
    if p < Used(lens, l) {
      assert lens[..|lens|] == lens;
      s := RankExists(lens, l, p - 2 * Used(lens, l - 1), |lens|);
      DecodesIff(lens, b, s, max);
    } else {
      s := Search(lens, b, l + 1, max);
    }
  }

  /** With a complete code every long enough bit string begins with exactly one codeword. */
  lemma DecodesExists(lens: seq<nat>, b: Bits, max: nat) returns (s: nat)
    requires Complete(lens, max) && 0 < max <= |b|
    ensures Decodes(lens, b, s)
  {
    UsedStep(lens, 0);
    ValBound(b[..max]);
    s := Search(lens, b, 1, max);
  }
}
