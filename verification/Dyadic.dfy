/** Frequencies that are powers of two determine the code: if every symbol's frequency is proportional
    to 2^-l and these shares fill the code space, a Huffman tree gives it exactly l bits. */
module Dyadic {
  import opened Arith
  import opened Packed
  import opened HuffmanTree
  import opened TreeDepths
  import opened Optimal
  import opened LengthCounts

  lemma {:induction false} Pow2Linear(j: nat)
    ensures Pow2(j) >= 1 + j
  {
    if j > 0 {
      Pow2Linear(j - 1);
    }
  }

  lemma {:induction false} TimesPlus(w: nat, a: nat, b: nat)
    ensures Times(w, a + b) == Times(w, a) + Times(w, b)
  {
    if b > 0 {
      TimesPlus(w, a, b - 1);
    }
  }

  /** One symbol: moving from l to m bits saves no more than its share of the code space grows. */
  lemma OneSymbol(l: nat, m: nat, d: nat)
    requires l <= d && m <= d
    ensures Pow2(d - m) + Times(Pow2(d - l), m) >= Pow2(d - l) + Times(Pow2(d - l), l)
    ensures Pow2(d - m) + Times(Pow2(d - l), m) == Pow2(d - l) + Times(Pow2(d - l), l) ==> m <= l
  {
    hide Pow2;
    var a := Pow2(d - l);
    if m <= l {
      var j: nat := l - m;
      TimesPlus(a, m, j);
      Pow2Add(d - l, j);
      Pow2Linear(j);
      TimesIsProduct(a, j);
      Distribute(a, 1, j);
      MulMonotone(a, 1 + j, Pow2(j));
    } else {
      TimesPlus(a, l, m - l);
      TimesPlus(a, 1, m - l - 1);
      assert Times(a, 1) == a + Times(a, 0);
    }
  }

  /** By how much the cost and the code space of m exceed those of l. */
  ghost function Left(l: seq<nat>, m: seq<nat>, d: nat): nat
    requires |l| == |m| && forall k :: 0 <= k < |l| ==> l[k] <= d && m[k] <= d
  {
    Sum(Shares(m, d)) + Sum(Products(Shares(l, d), m))
  }

  ghost function Right(l: seq<nat>, d: nat): nat
    requires forall k :: 0 <= k < |l| ==> l[k] <= d
  {
    Sum(Shares(l, d)) + Sum(Products(Shares(l, d), l))
  }

  lemma LeftStep(l: seq<nat>, m: seq<nat>, d: nat)
    requires |l| == |m| > 0 && forall k :: 0 <= k < |l| ==> l[k] <= d && m[k] <= d
    ensures Left(l, m, d) == Pow2(d - m[0]) + Times(Pow2(d - l[0]), m[0]) + Left(l[1..], m[1..], d)
  {
    hide Pow2, Times;
    var w := Shares(l, d);
    assert Shares(l[1..], d) == w[1..] && Shares(m[1..], d) == Shares(m, d)[1..];
    assert Products(w[1..], m[1..]) == Products(w, m)[1..];
  }

  lemma RightStep(l: seq<nat>, d: nat)
    requires |l| > 0 && forall k :: 0 <= k < |l| ==> l[k] <= d
    ensures Right(l, d) == Pow2(d - l[0]) + Times(Pow2(d - l[0]), l[0]) + Right(l[1..], d)
  {
    hide Pow2, Times;
    var w := Shares(l, d);
    assert Shares(l[1..], d) == w[1..];
    assert Products(w[1..], l[1..]) == Products(w, l)[1..];
  }

  /** The same, summed over all symbols. */
  lemma {:induction false} AllSymbols(l: seq<nat>, m: seq<nat>, d: nat)
    requires |l| == |m| && forall k :: 0 <= k < |l| ==> l[k] <= d && m[k] <= d
    ensures Left(l, m, d) >= Right(l, d)
    ensures Left(l, m, d) == Right(l, d) ==> forall k :: 0 <= k < |l| ==> m[k] <= l[k]
  {
    if l != [] {
      LeftStep(l, m, d);
      RightStep(l, d);
      hide *;
      AllSymbols(l[1..], m[1..], d);
      OneSymbol(l[0], m[0], d);
      if Left(l, m, d) == Right(l, d) {
        forall k | 0 <= k < |l| ensures m[k] <= l[k] {
          if k > 0 {
            assert m[1..][k - 1] <= l[1..][k - 1];
          }
        }
      }
    }
  }

  /** Fewer bits for some symbol and more for none would cost less. */
  lemma {:induction false} SameCost(w: seq<nat>, l: seq<nat>, m: seq<nat>)
    requires |w| == |l| == |m| && forall k :: 0 <= k < |w| ==> w[k] > 0 && m[k] <= l[k]
    ensures Sum(Products(w, m)) <= Sum(Products(w, l))
    ensures Sum(Products(w, m)) == Sum(Products(w, l)) ==> m == l
  {
    hide Times;
    if w != [] {
      SameCost(w[1..], l[1..], m[1..]);
      assert Products(w[1..], m[1..]) == Products(w, m)[1..] && Products(w[1..], l[1..]) == Products(w, l)[1..];
      TimesPlus(w[0], m[0], l[0] - m[0]);
      TimesIsProduct(w[0], l[0] - m[0]);
      MulMonotone(w[0], if m[0] < l[0] then 1 else 0, l[0] - m[0]);
      assert l == [l[0]] + l[1..] && m == [m[0]] + m[1..];
    }
  }

  lemma {:induction false} Scaled(w: seq<nat>, v: seq<nat>, c: nat, l: seq<nat>)
    requires |w| == |v| == |l| && forall k :: 0 <= k < |w| ==> w[k] == c * v[k]
    ensures Sum(Products(w, l)) == c * Sum(Products(v, l)) && Sum(w) == c * Sum(v)
  {
    hide Times;
    if w != [] {
      Scaled(w[1..], v[1..], c, l[1..]);
      assert Products(w[1..], l[1..]) == Products(w, l)[1..] && Products(v[1..], l[1..]) == Products(v, l)[1..];
      TimesIsProduct(w[0], l[0]);
      TimesIsProduct(v[0], l[0]);
      Associate(c, v[0], l[0]);
      Distribute(c, Times(v[0], l[0]), Sum(Products(v[1..], l[1..])));
      Distribute(c, v[0], Sum(v[1..]));
    }
  }

  /** The leaves of the tree are at the depths that the frequencies stand for. */
  lemma DepthsAreLengths(f: seq<nat>, g: Merge, l: seq<nat>, d: nat)
    requires Tree(f, g) && |l| == |f| && Sum(f) == Pow2(d)
    requires forall k :: 0 <= k < |l| ==> l[k] <= d && f[k] == Pow2(d - l[k])
    ensures LeafDepths(g) == l
  {
    hide Times, Steps, Pow2, Sum, Depth, Sorted;
    var m, e := LeafDepths(g), |f|;
    DepthsFit(f, g);
    assert f == Shares(l, d);
    TreeIsOptimal(f, g, l, d);
    TreeKraft(f, g, d + e);
    var w := Shares(l, d + e);
    forall k | 0 <= k < |w| ensures w[k] == Pow2(e) * f[k] {
      Pow2Add(e, d - l[k]);
    }
    Scaled(w, f, Pow2(e), m);
    Scaled(w, f, Pow2(e), l);
    Pow2Add(e, d);
    MulMonotone(Pow2(e), Sum(Products(f, m)), Sum(Products(f, l)));
    AllSymbols(l, m, d + e);
    SameCost(w, l, m);
  }

  lemma DepthsFit(f: seq<nat>, g: Merge)
    requires Tree(f, g)
    ensures forall k :: 0 <= k < |f| ==> LeafDepths(g)[k] <= |f|
  {
    hide Steps, Sorted;
    forall k | 0 <= k < |f| ensures Depth(g.p, g.lp[k]) < |f| {
      DepthBound(g.p, g.lp[k]);
    }
  }
}
