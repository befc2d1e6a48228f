/** Codewords as they appear in the low bits of a bit buffer, and how to step through them in
    lexicographic order. */
module Words {
  import opened Arith
  import opened Bits
  import opened LengthCounts
  import opened Canonical
  import opened Reverse

  /** The codeword of s with its first bit lowest. */
  ghost function Word(lens: seq<nat>, s: nat): nat
    requires s < |lens| && lens[s] > 0
  {
    Reversed(CodeValue(lens, s), lens[s])
  }

  /** The bit buffer x starts with the codeword of s. */
  ghost predicate Starts(lens: seq<nat>, x: nat, s: nat) {
    s < |lens| && lens[s] > 0 && Low(x, lens[s]) == Word(lens, s)
  }

  /** The n low bits of x, in stream order. */
  ghost function Front(x: nat, n: nat): (b: Bits)
    ensures |b| == n
  {
    if n == 0 then [] else [x % 2 == 1] + Front(x / 2, n - 1)
  }

  lemma {:induction false} LeFront(x: nat, n: nat)
    ensures Le(Front(x, n)) == Low(x, n)
  {
    if n > 0 {
      LeFront(x / 2, n - 1);
      assert Front(x, n)[1..] == Front(x / 2, n - 1);
    }
  }

  lemma {:induction false} FrontPrefix(x: nat, m: nat, n: nat)
    requires m <= n
    ensures Front(x, n)[..m] == Front(x, m)
  {
    if m > 0 {
      FrontPrefix(x / 2, m - 1, n - 1);
      assert Front(x, n)[..m] == [x % 2 == 1] + Front(x / 2, n - 1)[..m - 1];
    }
  }

  lemma StartsIff(lens: seq<nat>, x: nat, n: nat, s: nat)
    requires s < |lens| && 0 < lens[s] <= n
    ensures Starts(lens, x, s) <==> Decodes(lens, Front(x, n), s)
  {
    var l, c := lens[s], Code(lens, s);
    FrontPrefix(x, l, n);
    LeFront(x, l);
    LeDigits(CodeValue(lens, s), l);
    if Starts(lens, x, s) {
      LeInjective(c, Front(x, l));
    }
    if Decodes(lens, Front(x, n), s) {
      assert Front(x, n)[..l] == c;
    }
  }

  lemma StartsUnique(lens: seq<nat>, x: nat, s: nat, t: nat, max: nat)
    requires Valid(lens, max) && Starts(lens, x, s) && Starts(lens, x, t)
    ensures s == t
  {
    StartsIff(lens, x, max, s);
    StartsIff(lens, x, max, t);
    DecodesUnique(lens, Front(x, max), s, t, max);
  }

  lemma StartsExists(lens: seq<nat>, x: nat, max: nat) returns (s: nat)
    requires Complete(lens, max) && max > 0
    ensures Starts(lens, x, s)
  {
    s := DecodesExists(lens, Front(x, max), max);
    StartsIff(lens, x, max, s);
  }

  // ---- stepping through the codewords

  /** The position of the highest set bit. */
  function Bsr(x: nat): nat
    requires x > 0
  {
    if x == 1 then 0 else 1 + Bsr(x / 2)
  }

  lemma {:induction false} BsrIs(x: nat, n: nat)
    requires Pow2(n) <= x < 2 * Pow2(n)
    ensures Bsr(x) == n
  {
    if n > 0 {
      BsrIs(x / 2, n - 1);
    }
  }

  /** Sets the highest zero bit of an l-bit word and clears the bits above it. */
  function NextWord(w: nat, l: nat): nat
    requires w < Pow2(l) - 1
  {
    var h := Bsr(Pow2(l) - 1 - w);
    Low(w, h) + Pow2(h)
  }

  lemma LowOfLow(x: nat, m: nat, n: nat)
    requires m <= n
    ensures Low(Low(x, n), m) == Low(x, m)
  {
    if m > 0 {
      LowOfLow(x / 2, m - 1, n - 1);
      assert Low(x, n) / 2 == Low(x / 2, n - 1);
    }
  }

  lemma LowFits(x: nat, n: nat)
    requires x < Pow2(n)
    ensures Low(x, n) == x && Shr(x, n) == 0
  {
    ShrIs(x, n, 0, x);
  }

  lemma {:induction false} LowOfShr(x: nat, m: nat, n: nat)
    ensures Low(Shr(x, m), n) == Shr(Low(x, m + n), m)
    ensures Low(x, m + n) == Low(x, m) + Pow2(m) * Low(Shr(x, m), n)
  {
    if m == 0 {
    } else {
      LowOfShr(x / 2, m - 1, n);
      assert Low(x, m + n) / 2 == Low(x / 2, m - 1 + n);
      Associate(2, Pow2(m - 1), Low(Shr(x, m), n));
    }
  }

  lemma LowAddPow(x: nat, n: nat, m: nat)
    requires x < Pow2(n) && m <= n
    ensures Low(x + Pow2(n), m) == Low(x, m)
  {
    ShrIs(x + Pow2(n), n, 1, x);
    LowOfLow(x + Pow2(n), m, n);
  }

  /** The word ends in a zero: it becomes a one. */
  lemma NextWordEven(v: nat, l: nat)
    requires v + 1 < Pow2(l) && v % 2 == 0 && l > 0
    ensures Reversed(v, l) < Pow2(l) - 1
    ensures NextWord(Reversed(v, l), l) == Reversed(v + 1, l)
  {
    var w := Reversed(v, l);
    assert w == Reversed(v / 2, l - 1) && (v + 1) / 2 == v / 2;
    BsrIs(Pow2(l) - 1 - w, l - 1);
    LowFits(w, l - 1);
  }

  /** A one in front of the word changes nothing. */
  lemma NextWordOne(u: nat, l: nat)
    requires u < Pow2(l) - 1
    ensures Pow2(l + 1) == 2 * Pow2(l) && NextWord(Pow2(l) + u, l + 1) == NextWord(u, l)
  {
    hide Bsr, Low;
    BsrBound(Pow2(l) - 1 - u, l);
    LowAddPow(u, l, Bsr(Pow2(l) - 1 - u));
  }

  /** Setting the highest zero bit of the reversed word increments the codeword. */
  lemma {:induction false} NextWordIncrements(v: nat, l: nat)
    requires v + 1 < Pow2(l)
    ensures Reversed(v, l) < Pow2(l) - 1
    ensures NextWord(Reversed(v, l), l) == Reversed(v + 1, l)
  {
    if v % 2 == 0 {
      NextWordEven(v, l);
    } else {
      NextWordIncrements(v / 2, l - 1);
      NextWordOne(Reversed(v / 2, l - 1), l - 1);
      assert (v + 1) % 2 == 0 && (v + 1) / 2 == v / 2 + 1;
    }
  }

  lemma {:induction false} BsrBound(x: nat, n: nat)
    requires 0 < x < Pow2(n)
    ensures Bsr(x) < n
  {
    if x > 1 {
      BsrBound(x / 2, n - 1);
    }
  }

  lemma {:induction false} ReversedOnes(l: nat)
    ensures Reversed(Pow2(l) - 1, l) == Pow2(l) - 1
  {
    if l > 0 {
      ReversedOnes(l - 1);
      assert (Pow2(l) - 1) / 2 == Pow2(l - 1) - 1 && (Pow2(l) - 1) % 2 == 1;
    }
  }

  lemma {:induction false} ReversedInjective(v: nat, w: nat, l: nat)
    requires v < Pow2(l) && w < Pow2(l) && Reversed(v, l) == Reversed(w, l)
    ensures v == w
  {
    if l > 0 {
      ReversedInjective(v / 2, w / 2, l - 1);
    }
  }

  /** All ones is the last codeword. */
  lemma OnesIff(v: nat, l: nat)
    requires v < Pow2(l)
    ensures Reversed(v, l) == Pow2(l) - 1 <==> v + 1 == Pow2(l)
  {
    ReversedOnes(l);
    if Reversed(v, l) == Pow2(l) - 1 {
      ReversedInjective(v, Pow2(l) - 1, l);
    }
  }

  /** Appending a zero to a codeword leaves its word alone. */
  lemma ReversedDouble(v: nat, l: nat)
    requires v < Pow2(l)
    ensures Reversed(2 * v, l + 1) == Reversed(v, l)
  {
    assert 2 * v / 2 == v && 2 * v % 2 == 0;
  }

  /** The first m bits of an (m + n)-bit codeword, and the n bits after them. */
  lemma ReversedParts(v: nat, m: nat, n: nat)
    ensures Low(Reversed(v, m + n), m) == Reversed(Shr(v, n), m)
    ensures Shr(Reversed(v, m + n), m) == Reversed(Low(v, n), n)
  {
    ReversedSplit(v, n, m);
    assert n + m == m + n;
    ShrIs(Reversed(v, m + n), m, Reversed(Low(v, n), n), Reversed(Shr(v, n), m));
  }
}
