/** Powers of two and sums over sequences, used by every Huffman module. */
module Arith {

  function Pow2(n: nat): (p: nat)
    ensures p >= 1
  {
    if n == 0 then 1 else 2 * Pow2(n - 1)
  }

  lemma PowStep(n: nat)
    ensures Pow2(n + 1) == 2 * Pow2(n)
  {
  }

  lemma {:induction false} Pow2Add(a: nat, b: nat)
    ensures Pow2(a + b) == Pow2(a) * Pow2(b)
  {
    if a > 0 {
      Pow2Add(a - 1, b);
      assert Pow2(a + b) == 2 * (Pow2(a - 1) * Pow2(b));
    }
  }

  lemma {:induction false} Pow2Monotone(a: nat, b: nat)
    requires a <= b
    ensures Pow2(a) <= Pow2(b)
    decreases b
  {
    if a < b {
      Pow2Monotone(a, b - 1);
    }
  }

  lemma Distribute(a: int, b: int, c: int)
    ensures a * (b + c) == a * b + a * c
  {
  }

  lemma Associate(a: int, b: int, c: int)
    ensures a * (b * c) == (a * b) * c
  {
  }

  lemma Twice(a: int, b: int)
    ensures 2 * (a * b) == a * (2 * b)
  {
  }

  lemma TimesPow(a: nat, n: nat)
    requires n > 0
    ensures a * Pow2(n) == 2 * (a * Pow2(n - 1))
  {
    Twice(a, Pow2(n - 1));
  }

  lemma MulMonotone(d: nat, a: int, b: int)
    requires a <= b
    ensures d * a <= d * b
  {
  }

  /** Division with remainder is unique. */
  lemma QuotientIs(v: nat, d: nat, q: nat, r: nat)
    requires d > 0 && v == d * q + r && r < d
    ensures v / d == q && v % d == r
  {
    var q' := v / d;
    Distribute(d, q, 1);
    Distribute(d, q', 1);
    if q < q' {
      MulMonotone(d, q + 1, q');
    } else if q' < q {
      MulMonotone(d, q' + 1, q);
    }
  }

  /** v shifted right by n bits. */
  function Shr(v: nat, n: nat): (r: nat)
    ensures r <= v
  {
    if n == 0 then v else Shr(v / 2, n - 1)
  }

  /** The n low bits of v. */
  function Low(v: nat, n: nat): (r: nat)
    ensures r < Pow2(n)
  {
    if n == 0 then 0 else v % 2 + 2 * Low(v / 2, n - 1)
  }

  lemma {:induction false} ShrLow(v: nat, n: nat)
    ensures v == Pow2(n) * Shr(v, n) + Low(v, n)
    ensures v / Pow2(n) == Shr(v, n) && v % Pow2(n) == Low(v, n)
  {
    if n > 0 {
      ShrLow(v / 2, n - 1);
      Associate(2, Pow2(n - 1), Shr(v, n));
    }
    QuotientIs(v, Pow2(n), Shr(v, n), Low(v, n));
  }

  lemma ShrIs(v: nat, n: nat, q: nat, r: nat)
    requires v == Pow2(n) * q + r && r < Pow2(n)
    ensures Shr(v, n) == q && Low(v, n) == r
  {
    ShrLow(v, n);
    QuotientIs(v, Pow2(n), q, r);
  }

  lemma Less(a: nat, b: nat, f: nat, v: nat)
    requires a * f <= v < b * f
    ensures a < b
  {
    if a >= b {
      MulMonotone(f, b, a);
    }
  }

  lemma MulSucc(q: nat, p: nat)
    ensures (q + 1) * p == p * q + p && q * p == p * q
  {
  }

  /** The bits of v above the lowest m, as bounds on v. */
  lemma ShrBounds(v: nat, n: nat, m: nat)
    requires v < Pow2(n + m)
    ensures Shr(v, m) < Pow2(n)
    ensures Shr(v, m) * Pow2(m) <= v < (Shr(v, m) + 1) * Pow2(m)
  {
    hide Pow2, Shr, Low;
    var q, p := Shr(v, m), Pow2(m);
    ShrLow(v, m);
    Pow2Add(n, m);
    MulSucc(q, p);
    Less(q, Pow2(n), p, v);
  }

  function Sum(s: seq<nat>): nat {
    if s == [] then 0 else s[0] + Sum(s[1..])
  }

  lemma {:induction false} SumAppend(a: seq<nat>, b: seq<nat>)
    ensures Sum(a + b) == Sum(a) + Sum(b)
  {
    if a == [] {
      assert a + b == b;
    } else {
      assert (a + b)[1..] == a[1..] + b;
      SumAppend(a[1..], b);
    }
  }

  lemma {:induction false} SumAdd(f: seq<nat>, s: nat)
    requires s < |f|
    ensures Sum(f[s := f[s] + 1]) == Sum(f) + 1
  {
    if s > 0 {
      assert f[s := f[s] + 1][1..] == f[1..][s - 1 := f[s] + 1];
      SumAdd(f[1..], s - 1);
    }
  }
}
