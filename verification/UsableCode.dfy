/** What the rest of the compressor needs to know about a code made from frequencies. */
module UsableCode {
  import opened Arith
  import opened Packed
  import opened Bits
  import opened Canonical
  import opened HuffmanTree
  import opened HuffmanCode
  import opened BuildDecodeTable
  import opened Items
  import opened WriteBlock

  /** The decoder accepts the code, the stored codewords are right, and every symbol that occurs has one. */
  ghost predicate Usable(freqs: seq<nat>, lens: seq<nat>, codewords: seq<u32>, max: nat) {
    && |lens| == |freqs| && Accepted(lens, max)
    && (forall s :: 0 <= s < |lens| ==> lens[s] <= max)
    && Codewords(lens, Coder(lens, codewords), max)
    && forall s :: 0 <= s < |freqs| && freqs[s] > 0 ==> HasCode(lens, s)
  }

  lemma GoodIsUsable(freqs: seq<nat>, lens: seq<nat>, codewords: seq<u32>, max: nat)
    requires Good(freqs, lens, codewords, max)
    ensures Usable(freqs, lens, codewords, max)
  {
    hide Code, Le, Used, Pow2;
  }

  lemma SingleIsUsable(freqs: seq<nat>, lens: seq<nat>, codewords: seq<u32>, max: nat, s: nat)
    requires Single(freqs, lens, codewords, max, s)
    ensures Usable(freqs, lens, codewords, max)
  {
    hide Code, Le, Used, Pow2;
  }

  lemma OneOnly(freqs: seq<nat>, lens: seq<nat>, codewords: seq<u32>, max: nat, s: nat)
    requires Single(freqs, lens, codewords, max, s)
    ensures |freqs| >= 2 && !(freqs[0] > 0 && freqs[1] > 0)
  {
    hide Code, Le, Used, Pow2;
  }

  lemma EmptyIsUsable(freqs: seq<nat>, lens: seq<nat>, codewords: seq<u32>, max: nat)
    requires |lens| == |freqs| <= |codewords| && forall s :: 0 <= s < |freqs| ==> lens[s] == 0 == freqs[s]
    ensures Usable(freqs, lens, codewords, max)
  {
    hide Code, Le, Used, Pow2;
  }

  /** Frequencies that determine the lengths belong to symbols that all occur. */
  lemma NotFew(freqs: seq<nat>, l: seq<nat>, d: nat)
    requires |freqs| >= 3 && StandsFor(freqs, l, d)
    ensures freqs[0] > 0 && freqs[1] > 0
  {
  }

  /** Makes a code for the symbols that occur. */
  method MakeCode(freqs: seq<nat>, max: nat, lens: array<nat>, codewords: array<u32>)
    requires 3 <= |freqs| == lens.Length <= codewords.Length && |freqs| <= SYMBOL_VALUES
    requires 1 <= max <= 15 && |freqs| <= Pow2(max) && Sum(freqs) < HIGH_VALUES && codewords as object != lens
    modifies lens, codewords
    ensures Usable(freqs, lens[..], codewords[..], max) && Made(freqs, lens[..], max)
    ensures forall l: seq<nat>, d: nat :: StandsFor(freqs, l, d) && d <= max ==> lens[..] == l
  {
    hide Sum, Pow2, Good, Single, Usable, Made;
    ghost var f, g;
    f, g := MakeHuffmanCode(|freqs|, max, freqs, lens, codewords);
    forall l: seq<nat>, d: nat | StandsFor(freqs, l, d) && d <= max ensures |f| >= 2 {
      NotFew(freqs, l, d);
      if |f| == 1 {
        var s :| Single(freqs, lens[..], codewords[..], max, s);
        OneOnly(freqs, lens[..], codewords[..], max, s);
      }
    }
    if f == [] {
      EmptyIsUsable(freqs, lens[..], codewords[..], max);
    } else if |f| == 1 {
      ghost var s :| Single(freqs, lens[..], codewords[..], max, s);
      SingleIsUsable(freqs, lens[..], codewords[..], max, s);
    } else {
      GoodIsUsable(freqs, lens[..], codewords[..], max);
    }
  }
}
