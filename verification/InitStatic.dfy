/** The compressor's static codes, made from frequencies that determine them. */
module InitStatic {
  import opened Arith
  import opened Packed
  import opened Bits
  import opened Canonical
  import opened HuffmanCode
  import opened UsableCode
  import opened WriteBlock
  import opened WriteHeader
  import opened Precode
  import opened StaticCodes
  import opened FlushBlock

  lemma {:induction false} SumRepeat(v: nat, n: nat)
    ensures Sum(Repeat(v, n)) == v * n
  {
    if n > 0 {
      assert Repeat(v, n)[1..] == Repeat(v, n - 1);
      SumRepeat(v, n - 1);
      Distribute(v, n - 1, 1);
    }
  }

  function LitlenFreqs(): (f: seq<nat>)
    ensures |f| == 288
  {
    Repeat(2, 144) + Repeat(1, 112) + Repeat(4, 24) + Repeat(2, 8)
  }

  lemma SmallPowers()
    ensures Pow2(0) == 1 && Pow2(1) == 2 && Pow2(2) == 4 && Pow2(5) == 32 && Pow2(9) == 512
  {
  }

  lemma LitlenStands()
    ensures StandsFor(LitlenFreqs(), StaticLitlen(), 9) && Sum(LitlenFreqs()) == 512
  {
    hide Pow2, Sum;
    SmallPowers();
    SumRepeat(2, 144);
    SumRepeat(1, 112);
    SumRepeat(4, 24);
    SumRepeat(2, 8);
    SumAppend(Repeat(2, 144) + Repeat(1, 112) + Repeat(4, 24), Repeat(2, 8));
    SumAppend(Repeat(2, 144) + Repeat(1, 112), Repeat(4, 24));
    SumAppend(Repeat(2, 144), Repeat(1, 112));
  }

  lemma OffsetStands()
    ensures StandsFor(Repeat(1, 32), StaticOffset(), 5) && Sum(Repeat(1, 32)) == 32
  {
    hide Pow2, Sum;
    SmallPowers();
    SumRepeat(1, 32);
  }

  /** The lengths that come out are those of the static codes. */
  method InitStaticCodes() returns (sl: Coder, so: Coder)
    ensures StaticCoders(sl, so) && sl.lens == StaticLitlen() && so.lens == StaticOffset()
  {
    hide Usable, StandsFor, Sum, StaticLitlen, StaticOffset, Codewords, Pow2;
    var lf, of := new nat[LITLEN_SYMS], new nat[OFFSET_SYMS];
    for i := 0 to LITLEN_SYMS
      invariant forall j :: 0 <= j < i ==> lf[j] == LitlenFreqs()[j]
    {
      lf[i] := if i < 144 then 2 else if i < 256 then 1 else if i < 280 then 4 else 2;
    }
    assert lf[..] == LitlenFreqs();
    for i := 0 to OFFSET_SYMS
      invariant lf[..] == LitlenFreqs()
      invariant forall j :: 0 <= j < i ==> of[j] == 1
    {
      of[i] := 1;
    }
    assert of[..] == Repeat(1, OFFSET_SYMS);
    LitlenStands();
    OffsetStands();
    SmallPowers();
    Pow2Monotone(9, MAX_LITLEN_LEN);
    Pow2Monotone(9, MAX_OFFSET_LEN);
    var ll, lcw := new nat[LITLEN_SYMS], new u32[LITLEN_SYMS];
    var ol, ocw := new nat[OFFSET_SYMS], new u32[OFFSET_SYMS];
    MakeCode(lf[..], MAX_LITLEN_LEN, ll, lcw);
    sl := Coder(ll[..], lcw[..]);
    UsableCoder(LitlenFreqs(), sl, MAX_LITLEN_LEN);
    MakeCode(of[..], MAX_OFFSET_LEN, ol, ocw);
    so := Coder(ol[..], ocw[..]);
    UsableCoder(Repeat(1, OFFSET_SYMS), so, MAX_OFFSET_LEN);
  }

  lemma UsableCoder(freqs: seq<nat>, c: Coder, max: nat)
    requires Usable(freqs, c.lens, c.codewords, max)
    ensures Codewords(c.lens, c, max) && |c.lens| == |freqs|
  {
  }
}
