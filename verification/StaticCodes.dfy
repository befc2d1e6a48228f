/** The fixed codes of static blocks (section 3.2.6 of RFC 1951). */
module StaticCodes {
  import opened Arith
  import opened LengthCounts
  import opened Canonical
  import opened BuildDecodeTable
  import opened SortByLength
  import opened Precode

  const MAX_LEN: nat := 15

  function StaticLitlen(): (lens: seq<nat>)
    ensures |lens| == 288
  {
    Repeat(8, 144) + Repeat(9, 112) + Repeat(7, 24) + Repeat(8, 8)
  }

  function StaticOffset(): (lens: seq<nat>)
    ensures |lens| == 32
  {
    Repeat(5, 32)
  }

  lemma {:induction false} CountRepeat(v: nat, n: nat, d: nat)
    ensures Count(Repeat(v, n), d) == if v == d then n else 0
  {
    if n == 0 {
      assert Repeat(v, 0) == [];
      CountOfNothing(d);
    } else {
      assert Repeat(v, n) == Repeat(v, n - 1) + [v];
      CountSplit(Repeat(v, n - 1), [v], d);
      CountOne(v, d);
      CountRepeat(v, n - 1, d);
    }
  }

  lemma StaticLitlenCounts(d: nat)
    ensures Count(StaticLitlen(), d) == if d == 7 then 24 else if d == 8 then 152 else if d == 9 then 112 else 0
  {
    CountSplit(Repeat(8, 144) + Repeat(9, 112) + Repeat(7, 24), Repeat(8, 8), d);
    CountSplit(Repeat(8, 144) + Repeat(9, 112), Repeat(7, 24), d);
    CountSplit(Repeat(8, 144), Repeat(9, 112), d);
    CountRepeat(8, 144, d);
    CountRepeat(9, 112, d);
    CountRepeat(7, 24, d);
    CountRepeat(8, 8, d);
  }

  /** Unused lengths double the code space in use. */
  lemma {:induction false} UsedUnused(lens: seq<nat>, l: nat, m: nat)
    requires l <= m && forall d :: l < d <= m ==> Count(lens, d) == 0
    ensures Used(lens, m) == Used(lens, l) * Pow2(m - l)
    decreases m
  {
    hide Used, Count;
    if l < m {
      UsedUnused(lens, l, m - 1);
      UsedStep(lens, m - 1);
      Twice(Used(lens, l), Pow2(m - 1 - l));
    }
  }

  /** A code that is complete at some length is complete at every greater one. */
  lemma CompleteLonger(lens: seq<nat>, l: nat, m: nat)
    requires Complete(lens, l) && l <= m
    ensures Complete(lens, m)
  {
    hide Used, Count, Pow2;
    forall d | l < d <= m ensures Count(lens, d) == 0 {
      NoneOfLength(lens, d);
    }
    UsedUnused(lens, l, m);
    Pow2Add(l, m - l);
  }

  lemma AcceptedLonger(lens: seq<nat>, l: nat, m: nat)
    requires Accepted(lens, l) && l <= m
    ensures Accepted(lens, m)
  {
    hide Used, Pow2;
    if Complete(lens, l) {
      CompleteLonger(lens, l, m);
    }
  }

  lemma StaticAccepted()
    ensures Complete(StaticLitlen(), MAX_LEN) && Complete(StaticOffset(), MAX_LEN)
  {
    StaticLitlenComplete();
    CompleteLonger(StaticLitlen(), 9, MAX_LEN);
    StaticOffsetComplete();
    CompleteLonger(StaticOffset(), 5, MAX_LEN);
  }

  lemma StaticLitlenComplete()
    ensures Complete(StaticLitlen(), 9)
  {
    hide Used, Count;
    var lens := StaticLitlen();
    forall d | 0 < d <= 6 ensures Count(lens, d) == 0 {
      StaticLitlenCounts(d);
    }
    UsedUnused(lens, 0, 6);
    UsedStep(lens, 6);
    UsedStep(lens, 7);
    UsedStep(lens, 8);
    StaticLitlenCounts(7);
    StaticLitlenCounts(8);
    StaticLitlenCounts(9);
    assert Pow2(9) == 512;
  }

  lemma StaticOffsetComplete()
    ensures Complete(StaticOffset(), 5)
  {
    hide Used, Count;
    var lens := StaticOffset();
    forall d | 0 < d <= 4 ensures Count(lens, d) == 0 {
      CountRepeat(5, 32, d);
    }
    UsedUnused(lens, 0, 4);
    UsedStep(lens, 4);
    CountRepeat(5, 32, 5);
    assert Pow2(5) == 32;
  }

  // ---- the codewords

  lemma StaticUsed()
    ensures Used(StaticLitlen(), 6) == 0 && Used(StaticLitlen(), 7) == 24 && Used(StaticLitlen(), 8) == 200
    ensures Used(StaticOffset(), 4) == 0
  {
    hide Used, Count;
    forall d | 0 < d <= 6 ensures Count(StaticLitlen(), d) == 0 {
      StaticLitlenCounts(d);
    }
    forall d | 0 < d <= 4 ensures Count(StaticOffset(), d) == 0 {
      CountRepeat(5, 32, d);
    }
    UsedUnused(StaticLitlen(), 0, 6);
    UsedUnused(StaticOffset(), 0, 4);
    UsedStep(StaticLitlen(), 6);
    UsedStep(StaticLitlen(), 7);
    UsedStep(StaticOffset(), 0);
    StaticLitlenCounts(7);
    StaticLitlenCounts(8);
  }

  /** How many symbols before s have a codeword as long as that of s. */
  lemma StaticRank(s: nat)
    requires s < 288
    ensures Rank(StaticLitlen(), s) ==
      if s < 144 then s else if s < 256 then s - 144 else if s < 280 then s - 256 else s - 136
  {
    hide Count;
    var lens := StaticLitlen();
    var n := if s < 144 then s else 144;
    var m := if s < 144 then 0 else if s < 256 then s - 144 else 112;
    var l := if s < 256 then 0 else if s < 280 then s - 256 else 24;
    var k := if s < 280 then 0 else s - 280;
    assert lens[..s] == Repeat(8, n) + Repeat(9, m) + Repeat(7, l) + Repeat(8, k);
    var d := lens[s];
    CountSplit(Repeat(8, n) + Repeat(9, m) + Repeat(7, l), Repeat(8, k), d);
    CountSplit(Repeat(8, n) + Repeat(9, m), Repeat(7, l), d);
    CountSplit(Repeat(8, n), Repeat(9, m), d);
    CountRepeat(8, n, d);
    CountRepeat(9, m, d);
    CountRepeat(7, l, d);
    CountRepeat(8, k, d);
  }

  /** The codewords as the standard lists them: of 8 bits from 00110000 on, of 9 bits from 110010000 on, of 7 bits from
      0000000 on, and of 8 bits from 11000000 on. */
  lemma StaticCodewords(s: nat)
    requires s < 288
    ensures StaticLitlen()[s] > 0 && CodeValue(StaticLitlen(), s) ==
      if s < 144 then 48 + s else if s < 256 then 400 + (s - 144) else if s < 280 then s - 256 else 192 + (s - 280)
    ensures |Code(StaticLitlen(), s)| == if s < 144 then 8 else if s < 256 then 9 else if s < 280 then 7 else 8
  {
    hide Used, Rank;
    StaticUsed();
    StaticRank(s);
  }

  lemma StaticOffsetCodewords(s: nat)
    requires s < 32
    ensures StaticOffset()[s] == 5 == |Code(StaticOffset(), s)| && CodeValue(StaticOffset(), s) == s
  {
    hide Count, Used;
    StaticUsed();
    assert StaticOffset()[..s] == Repeat(5, s);
    CountRepeat(5, s, 5);
  }
}
