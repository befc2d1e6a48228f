/** Bit strings, in the order in which they travel in a DEFLATE stream. */
module Bits {
  import opened Arith

  type Bits = seq<bool>

  function Bit(b: bool): nat { if b then 1 else 0 }

  /** The number whose binary digits are b, most significant first. */
  ghost function Val(b: Bits): nat {
    if b == [] then 0 else 2 * Val(b[..|b| - 1]) + Bit(b[|b| - 1])
  }

  /** The number whose binary digits are b, least significant first: how a bit buffer holds b. */
  ghost function Le(b: Bits): nat {
    if b == [] then 0 else Bit(b[0]) + 2 * Le(b[1..])
  }

  /** The l low digits of v, most significant first. */
  ghost function Digits(v: nat, l: nat): (b: Bits)
    ensures |b| == l
  {
    if l == 0 then [] else Digits(v / 2, l - 1) + [v % 2 == 1]
  }

  lemma {:induction false} ValBound(b: Bits)
    ensures Val(b) < Pow2(|b|)
  {
    if b != [] {
      ValBound(b[..|b| - 1]);
    }
  }

  lemma {:induction false} LeBound(b: Bits)
    ensures Le(b) < Pow2(|b|)
  {
    if b != [] {
      LeBound(b[1..]);
    }
  }

  lemma {:induction false} ValDigits(v: nat, l: nat)
    requires v < Pow2(l)
    ensures Val(Digits(v, l)) == v
  {
    if l > 0 {
      ValDigits(v / 2, l - 1);
      var b := Digits(v, l);
      assert b[..l - 1] == Digits(v / 2, l - 1) && b[l - 1] == (v % 2 == 1);
      assert Val(b) == 2 * Val(b[..l - 1]) + Bit(b[l - 1]);
    }
  }

  lemma {:induction false} DigitsVal(b: Bits)
    ensures Digits(Val(b), |b|) == b
  {
    if b != [] {
      var c := b[..|b| - 1];
      DigitsVal(c);
      assert Val(b) / 2 == Val(c);
      assert b == c + [b[|b| - 1]];
    }
  }

  lemma ValInjective(a: Bits, b: Bits)
    requires |a| == |b| && Val(a) == Val(b)
    ensures a == b
  {
    DigitsVal(a);
    DigitsVal(b);
  }

  lemma {:induction false} LeInjective(a: Bits, b: Bits)
    requires |a| == |b| && Le(a) == Le(b)
    ensures a == b
  {
    if a != [] {
      LeInjective(a[1..], b[1..]);
      assert a == [a[0]] + a[1..] && b == [b[0]] + b[1..];
    }
  }

  lemma {:induction false} LeAppend(a: Bits, b: Bits)
    ensures Le(a + b) == Le(a) + Pow2(|a|) * Le(b)
  {
    if a == [] {
      assert a + b == b;
    } else {
      LeAppend(a[1..], b);
      assert (a + b)[1..] == a[1..] + b;
      assert Pow2(|a|) * Le(b) == 2 * (Pow2(|a| - 1) * Le(b));
    }
  }

  ghost function Zeros(n: nat): (b: Bits)
    ensures |b| == n
  {
    seq(n, _ => false)
  }

  ghost function Ones(n: nat): (b: Bits)
    ensures |b| == n
  {
    seq(n, _ => true)
  }

  lemma {:induction false} LeZeros(n: nat)
    ensures Le(Zeros(n)) == 0
  {
    if n > 0 {
      LeZeros(n - 1);
      assert Zeros(n)[1..] == Zeros(n - 1);
    }
  }

  lemma {:induction false} ValZeros(n: nat)
    ensures Val(Zeros(n)) == 0
  {
    if n > 0 {
      ValZeros(n - 1);
      assert Zeros(n)[..n - 1] == Zeros(n - 1);
    }
  }

  lemma {:induction false} LeOnes(n: nat)
    ensures Le(Ones(n)) == Pow2(n) - 1
  {
    if n > 0 {
      LeOnes(n - 1);
      assert Ones(n)[1..] == Ones(n - 1);
    }
  }

  lemma {:induction false} ValOnes(n: nat)
    ensures Val(Ones(n)) == Pow2(n) - 1
  {
    if n > 0 {
      ValOnes(n - 1);
      assert Ones(n)[..n - 1] == Ones(n - 1);
    }
  }

  lemma {:induction false} ValAppend(a: Bits, b: Bits)
    ensures Val(a + b) == Val(a) * Pow2(|b|) + Val(b)
  {
    if b == [] {
      assert a + b == a;
    } else {
      var n := |b| - 1;
      ValAppend(a, b[..n]);
      assert (a + b)[..|a + b| - 1] == a + b[..n];
      assert 2 * (Val(a) * Pow2(n)) == Val(a) * Pow2(|b|);
    }
  }
}
