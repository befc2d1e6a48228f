/** Minimum-redundancy codes.  A competitor is any assignment of lengths to weights that
    satisfies the Kraft inequality; every binary tree and every prefix code is one. */
module Optimal {
  import opened Arith

  datatype Item = Item(w: nat, l: nat)

  type Assignment = seq<Item>

  ghost function Weights(s: Assignment): multiset<nat> {
    if s == [] then multiset{} else multiset{s[0].w} + Weights(s[1..])
  }

  /** Repeated addition: it keeps the solver in linear arithmetic. */
  ghost function Times(w: nat, l: nat): nat {
    if l == 0 then 0 else w + Times(w, l - 1)
  }

  lemma {:induction false} TimesIsProduct(w: nat, l: nat)
    ensures Times(w, l) == w * l
  {
    if l > 0 {
      TimesIsProduct(w, l - 1);
    }
  }

  lemma {:induction false} TimesAdd(x: nat, y: nat, l: nat)
    ensures Times(x + y, l) == Times(x, l) + Times(y, l)
  {
    if l > 0 {
      TimesAdd(x, y, l - 1);
    }
  }

  ghost function Cost(s: Assignment): nat {
    if s == [] then 0 else Times(s[0].w, s[0].l) + Cost(s[1..])
  }

  ghost predicate Within(s: Assignment, d: nat) {
    forall k :: 0 <= k < |s| ==> s[k].l <= d
  }

  /** The Kraft sum scaled by 2^d. */
  ghost function Kraft(s: Assignment, d: nat): nat
    requires Within(s, d)
  {
    if s == [] then 0 else Pow2(d - s[0].l) + Kraft(s[1..], d)
  }

  ghost predicate IsCode(s: Assignment, d: nat) {
    Within(s, d) && Kraft(s, d) <= Pow2(d)
  }

  /** No code for the weights `m` costs less than `c`. */
  ghost predicate LowerBound(m: multiset<nat>, c: nat) {
    forall s, d :: Weights(s) == m && IsCode(s, d) ==> Cost(s) >= c
  }

  /** x and y are two lightest weights of `m`, and `q` is the rest. */
  ghost predicate Lightest(m: multiset<nat>, x: nat, y: nat, q: multiset<nat>) {
    && m == multiset{x} + (multiset{y} + q)
    && forall z :: z in q ==> x <= z && y <= z
  }

  // ---- taking one item out of an assignment

  ghost function Without(s: Assignment, k: nat): Assignment
    requires k < |s|
  {
    s[..k] + s[k + 1..]
  }

  lemma {:induction false} WithoutWeights(s: Assignment, k: nat)
    requires k < |s|
    ensures Weights(s) == multiset{s[k].w} + Weights(Without(s, k))
  {
    if k == 0 {
      assert Without(s, 0) == s[1..];
    } else {
      WithoutWeights(s[1..], k - 1);
      assert Without(s, k)[1..] == Without(s[1..], k - 1);
    }
  }

  lemma {:induction false} WithoutCost(s: Assignment, k: nat)
    requires k < |s|
    ensures Cost(s) == Times(s[k].w, s[k].l) + Cost(Without(s, k))
  {
    if k == 0 {
      assert Without(s, 0) == s[1..];
    } else {
      WithoutCost(s[1..], k - 1);
      assert Without(s, k)[1..] == Without(s[1..], k - 1);
    }
  }

  lemma {:induction false} WithoutKraft(s: Assignment, k: nat, d: nat)
    requires k < |s| && Within(s, d)
    ensures Within(Without(s, k), d)
    ensures Kraft(s, d) == Pow2(d - s[k].l) + Kraft(Without(s, k), d)
  {
    if k == 0 {
      assert Without(s, 0) == s[1..];
    } else {
      WithoutKraft(s[1..], k - 1, d);
      assert Without(s, k)[1..] == Without(s[1..], k - 1);
    }
  }

  lemma {:induction false} Find(s: Assignment, x: nat) returns (k: nat)
    requires x in Weights(s)
    ensures k < |s| && s[k].w == x
  {
    if s[0].w == x {
      k := 0;
    } else {
      k := Find(s[1..], x);
      k := k + 1;
    }
  }

  lemma {:induction false} WeightsSize(s: Assignment)
    ensures |Weights(s)| == |s|
  {
    if s != [] {
      WeightsSize(s[1..]);
    }
  }

  // ---- lengths equal to the bound d

  ghost function AtBound(s: Assignment, d: nat): nat {
    if s == [] then 0 else (if s[0].l == d then 1 else 0) + AtBound(s[1..], d)
  }

  lemma {:induction false} KraftParity(s: Assignment, d: nat)
    requires Within(s, d)
    ensures Kraft(s, d) % 2 == AtBound(s, d) % 2
  {
    if s != [] {
      KraftParity(s[1..], d);
    }
  }

  lemma {:induction false} Rescale(s: Assignment, d: nat)
    requires d > 0 && Within(s, d) && AtBound(s, d) == 0
    ensures Within(s, d - 1) && Kraft(s, d) == 2 * Kraft(s, d - 1)
  {
    if s != [] {
      Rescale(s[1..], d);
      forall k | 0 <= k < |s| ensures s[k].l <= d - 1 {
        if k > 0 { assert s[k] == s[1..][k - 1]; }
      }
    }
  }

  lemma {:induction false} AtBoundZero(s: Assignment)
    requires Within(s, 0)
    ensures Kraft(s, 0) == |s|
  {
    if s != [] {
      AtBoundZero(s[1..]);
    }
  }

  /** A position other than `avoid` whose length is the bound. */
  lemma {:induction false} FindBound(s: Assignment, d: nat, avoid: int) returns (k: nat)
    requires AtBound(s, d) >= 2 || (AtBound(s, d) == 1 && !(0 <= avoid < |s| && s[avoid].l == d))
    ensures k < |s| && k != avoid && s[k].l == d
  {
    if s[0].l == d && avoid != 0 {
      k := 0;
    } else {
      k := FindBound(s[1..], d, avoid - 1);
      k := k + 1;
    }
  }

  lemma {:induction false} AtBoundCount(s: Assignment, d: nat, k: nat)
    requires k < |s|
    ensures AtBound(s, d) == (if s[k].l == d then 1 else 0) + AtBound(Without(s, k), d)
  {
    if k == 0 {
      assert Without(s, 0) == s[1..];
    } else {
      AtBoundCount(s[1..], d, k - 1);
      assert Without(s, k)[0] == s[0];
      assert Without(s, k)[1..] == Without(s[1..], k - 1);
    }
  }

  // ---- exchange

  lemma WithLengthSums(s: Assignment, k: nat, l: nat, d: nat) returns (t: Assignment)
    requires k < |s| && Within(s, d) && l <= d
    ensures t == s[k := Item(s[k].w, l)]
    ensures Within(t, d)
    ensures Weights(t) == Weights(s)
    ensures Cost(t) + Times(s[k].w, s[k].l) == Cost(s) + Times(s[k].w, l)
    ensures Kraft(t, d) + Pow2(d - s[k].l) == Kraft(s, d) + Pow2(d - l)
    ensures AtBound(t, d) == AtBound(s, d) - (if s[k].l == d then 1 else 0) + (if l == d then 1 else 0)
  {
    t := s[k := Item(s[k].w, l)];
    var r := Without(s, k);
    assert Without(t, k) == r;
    WithoutWeights(s, k);
    WithoutWeights(t, k);
    WithoutCost(s, k);
    WithoutCost(t, k);
    WithoutKraft(s, k, d);
    WithoutKraft(t, k, d);
    AtBoundCount(s, d, k);
    AtBoundCount(t, d, k);
  }

  lemma {:induction false} SwapArithmetic(wa: nat, wp: nat, la: nat, d: nat)
    requires wa <= wp && la <= d
    ensures Times(wa, d) + Times(wp, la) <= Times(wa, la) + Times(wp, d)
  {
    if la < d {
      SwapArithmetic(wa, wp, la, d - 1);
    }
  }

  /** Giving the bound length d to the lightest item `a` and a's length to `p` costs no more. */
  lemma Swap(s: Assignment, a: nat, p: nat, d: nat) returns (t: Assignment)
    requires Within(s, d) && a < |s| && p < |s| && a != p && s[p].l == d
    requires s[a].w <= s[p].w
    ensures |t| == |s| && Within(t, d) && Weights(t) == Weights(s) && Kraft(t, d) == Kraft(s, d)
    ensures Cost(t) <= Cost(s) && AtBound(t, d) == AtBound(s, d)
    ensures forall k :: 0 <= k < |s| ==> t[k].w == s[k].w
    ensures forall k :: 0 <= k < |s| && k != a && k != p ==> t[k] == s[k]
    ensures t[a].l == d
  {
    var la := s[a].l;
    var u := WithLengthSums(s, a, d, d);
    assert u[p] == s[p];
    t := WithLengthSums(u, p, la, d);
    SwapArithmetic(s[a].w, s[p].w, la, d);
  }

  lemma Cancel(x: nat, a: multiset<nat>, b: multiset<nat>)
    requires multiset{x} + a == multiset{x} + b
    ensures a == b
  {
    forall z: nat ensures a[z] == b[z] {
      assert (multiset{x} + a)[z] == (multiset{x} + b)[z];
    }
  }

  /** A position of x, and in the rest of the assignment a position of y. */
  lemma FindTwo(s: Assignment, x: nat, y: nat, q: multiset<nat>) returns (a: nat, b': nat)
    requires Weights(s) == multiset{x} + (multiset{y} + q)
    ensures a < |s| && s[a].w == x
    ensures b' < |s| - 1 && Without(s, a)[b'].w == y
    ensures Weights(Without(Without(s, a), b')) == q
  {
    a := Find(s, x);
    WithoutWeights(s, a);
    var r := Without(s, a);
    Cancel(x, Weights(r), multiset{y} + q);
    b' := Find(r, y);
    WithoutWeights(r, b');
    Cancel(y, Weights(Without(r, b')), q);
  }

  /** Everything outside the two removed positions is still there. */
  lemma WithoutTwo(s: Assignment, a: nat, b': nat, k: nat)
    requires a < |s| && b' < |s| - 1 && k < |s| && k != a && k != (if b' < a then b' else b' + 1)
    ensures s[k].w in Weights(Without(Without(s, a), b'))
  {
    var k' := if k < a then k else k - 1;
    var k'' := if k' < b' then k' else k' - 1;
    InWeights(Without(Without(s, a), b'), k'');
  }

  /** Two distinct positions of the two lightest weights. */
  lemma FindPair(s: Assignment, x: nat, y: nat, q: multiset<nat>) returns (a: nat, b: nat)
    requires Lightest(Weights(s), x, y, q)
    ensures a < |s| && b < |s| && a != b && s[a].w == x && s[b].w == y
    ensures forall k :: 0 <= k < |s| && k != a && k != b ==> x <= s[k].w && y <= s[k].w
  {
    var b';
    a, b' := FindTwo(s, x, y, q);
    b := if b' < a then b' else b' + 1;
    forall k | 0 <= k < |s| && k != a && k != b ensures x <= s[k].w && y <= s[k].w {
      WithoutTwo(s, a, b', k);
    }
  }

  lemma {:induction false} InWeights(s: Assignment, k: nat)
    requires k < |s|
    ensures s[k].w in Weights(s)
  {
    if k > 0 {
      InWeights(s[1..], k - 1);
    }
  }

  lemma ConsSums(it: Item, q: Assignment, d: nat)
    requires it.l <= d && Within(q, d)
    ensures Weights([it] + q) == multiset{it.w} + Weights(q)
    ensures Cost([it] + q) == Times(it.w, it.l) + Cost(q)
    ensures Within([it] + q, d) && Kraft([it] + q, d) == Pow2(d - it.l) + Kraft(q, d)
  {
    assert ([it] + q)[1..] == q;
  }

  /** Takes position k out and says where position j has gone. */
  lemma Remove(s: Assignment, k: nat, j: nat, d: nat) returns (r: Assignment, j': nat)
    requires k < |s| && Within(s, d) && (|s| > 1 ==> j < |s| && j != k)
    ensures |r| == |s| - 1 && Within(r, d)
    ensures |s| > 1 ==> j' < |r| && r[j'] == s[j]
    ensures Weights(s) == multiset{s[k].w} + Weights(r)
    ensures Cost(s) == Times(s[k].w, s[k].l) + Cost(r)
    ensures Kraft(s, d) == Pow2(d - s[k].l) + Kraft(r, d)
  {
    r := Without(s, k);
    j' := if j < k then j else if j > 0 then j - 1 else 0;
    WithoutWeights(s, k);
    WithoutCost(s, k);
    WithoutKraft(s, k, d);
  }

  lemma RemoveTwo(s: Assignment, d: nat, a: nat, b: nat, q: multiset<nat>) returns (p: Assignment)
    requires IsCode(s, d) && a < |s| && b < |s| && a != b && s[a].l == d && s[b].l == d
    requires Weights(s) == multiset{s[a].w} + (multiset{s[b].w} + q)
    ensures Within(p, d) && Weights(p) == q
    ensures Cost(s) == Times(s[a].w, d) + Times(s[b].w, d) + Cost(p)
    ensures Kraft(s, d) == 2 + Kraft(p, d)
  {
    var r, b' := Remove(s, a, b, d);
    Cancel(s[a].w, Weights(r), multiset{s[b].w} + q);
    var j;
    p, j := Remove(r, b', if b' == 0 then 1 else 0, d);
    Cancel(s[b].w, Weights(p), q);
  }

  /** Two items of length d replaced by one of their joint weight and length d - 1. */
  lemma Merge(s: Assignment, d: nat, a: nat, b: nat, q: multiset<nat>, m: multiset<nat>)
    returns (t: Assignment)
    requires d > 0 && IsCode(s, d) && a < |s| && b < |s| && a != b && s[a].l == d && s[b].l == d
    requires m == multiset{s[a].w + s[b].w} + q
    requires Weights(s) == multiset{s[a].w} + (multiset{s[b].w} + q)
    ensures IsCode(t, d)
    ensures Weights(t) == m
    ensures Cost(s) == Cost(t) + s[a].w + s[b].w
  {
    var p := RemoveTwo(s, d, a, b, q);
    var z := Item(s[a].w + s[b].w, d - 1);
    t := [z] + p;
    ConsSums(z, p, d);
    assert Pow2(d - z.l) == 2;
    TimesAdd(s[a].w, s[b].w, d - 1);
  }

  /** Exchanging lengths so that the two lightest items are among the longest. */
  lemma Exchange(s: Assignment, d: nat, a: nat, b: nat) returns (u: Assignment)
    requires IsCode(s, d) && AtBound(s, d) >= 2
    requires a < |s| && b < |s| && a != b
    requires forall k :: 0 <= k < |s| && k != a && k != b ==> s[a].w <= s[k].w && s[b].w <= s[k].w
    ensures |u| == |s| && IsCode(u, d) && Weights(u) == Weights(s) && Cost(u) <= Cost(s)
    ensures u[a].w == s[a].w && u[b].w == s[b].w && u[a].l == d && u[b].l == d
  {
    u := s;
    if u[a].l != d {
      var p := FindBound(u, d, b);
      u := Swap(u, a, p, d);
    }
    if u[b].l != d {
      var q := FindBound(u, d, a);
      u := Swap(u, b, q, d);
    }
  }

  /** With at most one item of length d, the bound can be lowered to d - 1 (parity of the Kraft sum). */
  lemma Shorten(s: Assignment, d: nat) returns (u: Assignment)
    requires |s| >= 2 && IsCode(s, d) && AtBound(s, d) <= 1
    ensures d > 0 && IsCode(u, d - 1) && Weights(u) == Weights(s) && Cost(u) <= Cost(s)
  {
    if d == 0 {
      AtBoundZero(s);
      assert false;
    }
    KraftParity(s, d);
    u := s;
    if AtBound(s, d) == 1 {
      var k := FindBound(s, d, -1);
      u := WithLengthSums(s, k, d - 1, d);
    }
    Rescale(u, d);
  }

  /** In every code, the two lightest weights can be merged at the price of their sum. */
  lemma {:induction false} MergeLightest(s: Assignment, d: nat, x: nat, y: nat, q: multiset<nat>, m: multiset<nat>)
    returns (t: Assignment, d': nat)
    requires m == multiset{x + y} + q
    requires Lightest(Weights(s), x, y, q) && IsCode(s, d)
    ensures IsCode(t, d')
    ensures Weights(t) == m
    ensures Cost(t) + x + y <= Cost(s)
    decreases d
  {
    var a, b := FindPair(s, x, y, q);
    if AtBound(s, d) >= 2 {
      if d == 0 {
        AtBoundZero(s);
        assert false;
      }
      var u := Exchange(s, d, a, b);
      t := Merge(u, d, a, b, q, m);
      d' := d;
    } else {
      var u := Shorten(s, d);
      t, d' := MergeLightest(u, d - 1, x, y, q, m);
    }
  }

  lemma MergeBound(m: multiset<nat>, x: nat, y: nat, q: multiset<nat>, c: nat)
    requires Lightest(m, x, y, q)
    requires LowerBound(multiset{x + y} + q, c)
    ensures LowerBound(m, c + x + y)
  {
    forall s, d | Weights(s) == m && IsCode(s, d) ensures Cost(s) >= c + x + y {
      var t, d' := MergeLightest(s, d, x, y, q, multiset{x + y} + q);
    }
  }

  // ---- greedy merging

  ghost predicate GreedyStep(m: multiset<nat>, m': multiset<nat>, w: nat) {
    exists x: nat, y: nat, q :: Lightest(m, x, y, q) && w == x + y && m' == multiset{x + y} + q
  }

  /** ms[k + 1] comes from ms[k] by joining two lightest weights; ws[k] is the joint weight. */
  ghost predicate Greedy(ms: seq<multiset<nat>>, ws: seq<nat>) {
    && |ms| == |ws| + 1
    && forall k :: 0 <= k < |ws| ==> GreedyStep(ms[k], ms[k + 1], ws[k])
  }

  /** Huffman's theorem: joining the two lightest weights again and again is optimal. */
  lemma {:induction false} GreedyIsOptimal(ms: seq<multiset<nat>>, ws: seq<nat>)
    requires Greedy(ms, ws)
    ensures LowerBound(ms[0], Sum(ws))
  {
    if ws != [] {
      var ms', ws' := ms[1..], ws[1..];
      assert Greedy(ms', ws') by {
        forall k | 0 <= k < |ws'| ensures GreedyStep(ms'[k], ms'[k + 1], ws'[k]) {
          assert GreedyStep(ms[k + 1], ms[k + 2], ws[k + 1]);
        }
      }
      GreedyIsOptimal(ms', ws');
      assert GreedyStep(ms[0], ms[1], ws[0]);
      var x: nat, y: nat, q :| Lightest(ms[0], x, y, q) && ws[0] == x + y && ms[1] == multiset{x + y} + q;
      MergeBound(ms[0], x, y, q, Sum(ws'));
    }
  }
}
