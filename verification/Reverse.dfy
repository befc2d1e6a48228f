/** Bit-reversal of codewords through a table of reversed bytes. */
module Reverse {
  import opened Arith
  import opened Bits

  /** The n low bits of b in opposite order. */
  function Reversed(b: nat, n: nat): (r: nat)
    ensures r < Pow2(n)
  {
    if n == 0 then 0 else (if b % 2 == 1 then Pow2(n - 1) else 0) + Reversed(b / 2, n - 1)
  }

  /** ReversedByte(b) is entry b of the table of reversed bytes. */
  function ReversedByte(b: nat): (r: nat)
    requires b < 256
    ensures r < 256
  {
    assert Pow2(8) == 256;
    Reversed(b, 8)
  }

  function ReverseCodeword(codeword: nat, len: nat): nat
    requires codeword < 0x1_0000 && len <= 16
  {
    Shr(ReversedByte(codeword % 256) * 256 + ReversedByte(codeword / 256), 16 - len)
  }

  lemma Shifted(top: nat, x: nat, w: nat, p: nat, l: nat, m: nat, bit: bool)
    requires top == (if bit then Pow2(l + m) else 0) && p == Pow2(m) && w == (if bit then Pow2(l) else 0) + x
    ensures top + p * x == p * w
  {
    Pow2Add(l, m);
    Distribute(p, if bit then Pow2(l) else 0, x);
  }

  lemma ReversedMore(v: nat, n: nat)
    requires n > 0
    ensures Reversed(v, n) == (if v % 2 == 1 then Pow2(n - 1) else 0) + Reversed(v / 2, n - 1)
  {
  }

  lemma LowestOff(v: nat, n: nat)
    requires n > 0
    ensures Low(v, n) % 2 == v % 2 && Low(v, n) / 2 == Low(v / 2, n - 1) && Shr(v, n) == Shr(v / 2, n - 1)
  {
  }

  lemma {:induction false} ReversedSplit(v: nat, a: nat, b: nat)
    ensures Reversed(v, a + b) == Pow2(b) * Reversed(Low(v, a), a) + Reversed(Shr(v, a), b)
  {
    if a > 0 {
      hide Reversed, Shr, Low, Pow2;
      ReversedSplit(v / 2, a - 1, b);
      LowestOff(v, a);
      ReversedMore(v, a + b);
      ReversedMore(Low(v, a), a);
      Shifted(if v % 2 == 1 then Pow2(a - 1 + b) else 0, Reversed(Low(v / 2, a - 1), a - 1), Reversed(Low(v, a), a),
              Pow2(b), a - 1, b, v % 2 == 1);
    }
  }

  lemma {:induction false} ReversedPadding(v: nat, l: nat, m: nat)
    requires v < Pow2(l)
    ensures Reversed(v, l + m) == Pow2(m) * Reversed(v, l)
  {
    if l == 0 {
      ReversedZero(m);
    } else {
      ReversedPadding(v / 2, l - 1, m);
      var x, top := Reversed(v / 2, l - 1), if v % 2 == 1 then Pow2(l - 1 + m) else 0;
      assert Reversed(v, l + m) == top + Reversed(v / 2, l - 1 + m);
      Shifted(top, x, Reversed(v, l), Pow2(m), l - 1, m, v % 2 == 1);
    }
  }

  lemma {:induction false} ReversedZero(m: nat)
    ensures Reversed(0, m) == 0
  {
    if m > 0 {
      ReversedZero(m - 1);
    }
  }

  /** A codeword's bits, first bit lowest, are its digits in opposite order. */
  lemma {:induction false} LeDigits(v: nat, l: nat)
    ensures Le(Digits(v, l)) == Reversed(v, l)
  {
    if l > 0 {
      LeDigits(v / 2, l - 1);
      LeAppend(Digits(v / 2, l - 1), [v % 2 == 1]);
      assert Le([v % 2 == 1]) == v % 2 by {
        assert [v % 2 == 1][1..] == [];
      }
    }
  }

  /** Reversing 16 bits and dropping the padding leaves the codeword with its first bit lowest. */
  lemma Reverses(codeword: nat, len: nat)
    requires len <= 16 && codeword < Pow2(len) && codeword < 0x1_0000
    ensures ReverseCodeword(codeword, len) == Le(Digits(codeword, len))
  {
    hide Shr, Reversed, ReversedByte, Pow2;
    ReversedBytes(codeword);
    ReversedPadding(codeword, len, 16 - len);
    LeDigits(codeword, len);
    ShrIs(Reversed(codeword, 16), 16 - len, Reversed(codeword, len), 0);
  }

  /** Two lookups reverse 16 bits. */
  lemma ReversedBytes(x: nat)
    requires x < 0x1_0000
    ensures ReversedByte(x % 256) * 256 + ReversedByte(x / 256) == Reversed(x, 16)
  {
    hide Shr, Low, Reversed;
    assert Pow2(8) == 256;
    ReversedSplit(x, 8, 8);
    ShrLow(x, 8);
  }

  /** A length of zero gives zero, whatever the codeword. */
  lemma ReversesNothing(codeword: nat)
    requires codeword < 0x1_0000
    ensures ReverseCodeword(codeword, 0) == 0
  {
    assert Pow2(8) == 256;
    Pow2Add(8, 8);
    ShrIs(ReversedByte(codeword % 256) * 256 + ReversedByte(codeword / 256), 16, 0,
          ReversedByte(codeword % 256) * 256 + ReversedByte(codeword / 256));
  }
}
