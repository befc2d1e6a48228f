/** Circular doubly linked lists as the contents of the memory that holds their nodes. */
module ListMemory {

  /** What the two links of every node are; nodes are numbers. */
  datatype Memory = Memory(next: seq<nat>, prev: seq<nat>)

  predicate Ok(m: Memory) {
    && |m.next| == |m.prev|
    && (forall i :: 0 <= i < |m.next| ==> m.next[i] < |m.next|)
    && (forall i :: 0 <= i < |m.prev| ==> m.prev[i] < |m.next|)
  }

  function SetNext(m: Memory, i: nat, v: nat): (r: Memory)
    requires Ok(m) && i < |m.next| && v < |m.next|
    ensures Ok(r) && |r.next| == |m.next|
  {
    m.(next := m.next[i := v])
  }

  function SetPrev(m: Memory, i: nat, v: nat): (r: Memory)
    requires Ok(m) && i < |m.next| && v < |m.next|
    ensures Ok(r) && |r.next| == |m.next|
  {
    m.(prev := m.prev[i := v])
  }

  // ---- the list operations, assignment by assignment

  function InitHead(m: Memory, n: nat): Memory
    requires Ok(m) && n < |m.next|
  {
    SetPrev(SetNext(m, n, n), n, n)
  }

  /** Puts n behind the node h. */
  function Add(m: Memory, n: nat, h: nat): Memory
    requires Ok(m) && n < |m.next| && h < |m.next|
  {
    var a := SetPrev(SetNext(m, n, m.next[h]), n, h);
    var b := SetPrev(a, a.next[h], n);
    SetNext(b, h, n)
  }

  /** Puts n before the node h, which is at the end of the list that h heads. */
  function AddTail(m: Memory, n: nat, h: nat): Memory
    requires Ok(m) && n < |m.next| && h < |m.next|
  {
    var a := SetNext(m, n, h);
    var b := SetPrev(a, n, a.prev[h]);
    var c := SetNext(b, b.prev[h], n);
    SetPrev(c, h, n)
  }

  function Del(m: Memory, n: nat): Memory
    requires Ok(m) && n < |m.next|
  {
    var a := SetNext(m, m.prev[n], m.next[n]);
    SetPrev(a, a.next[n], a.prev[n])
  }

  function DelInit(m: Memory, n: nat): Memory
    requires Ok(m) && n < |m.next|
  {
    InitHead(Del(m, n), n)
  }

  function MoveTail(m: Memory, n: nat, h: nat): Memory
    requires Ok(m) && n < |m.next| && h < |m.next|
  {
    AddTail(Del(m, n), n, h)
  }

  function Move(m: Memory, n: nat, h: nat): Memory
    requires Ok(m) && n < |m.next| && h < |m.next|
  {
    Add(Del(m, n), n, h)
  }

  /** Puts n in the place of o. */
  function Replace(m: Memory, o: nat, n: nat): Memory
    requires Ok(m) && n < |m.next| && o < |m.next|
  {
    var a := SetNext(m, n, m.next[o]);
    var b := SetPrev(a, n, a.prev[o]);
    var c := SetPrev(b, b.next[n], n);
    SetNext(c, c.prev[n], n)
  }

  function ReplaceInit(m: Memory, o: nat, n: nat): Memory
    requires Ok(m) && n < |m.next| && o < |m.next|
  {
    InitHead(Replace(m, o, n), o)
  }

  // ---- rings

  function After(q: seq<nat>, i: nat): (j: nat)
    requires i < |q|
    ensures j < |q|
  {
    if i + 1 < |q| then i + 1 else 0
  }

  /** The nodes of q, in this order, are a circular list. */
  ghost predicate Ring(m: Memory, q: seq<nat>) {
    && Ok(m) && |q| > 0
    && (forall i :: 0 <= i < |q| ==> q[i] < |m.next|)
    && (forall i, j :: 0 <= i < |q| && 0 <= j < |q| && i != j ==> q[i] != q[j])
    && forall i :: 0 <= i < |q| ==> m.next[q[i]] == q[After(q, i)] && m.prev[q[After(q, i)]] == q[i]
  }

  /** The link of the node before the i-th one. */
  lemma Before(m: Memory, q: seq<nat>, i: nat)
    requires Ring(m, q) && i < |q|
    ensures m.prev[q[i]] == q[if i == 0 then |q| - 1 else i - 1]
  {
    var j := if i == 0 then |q| - 1 else i - 1;
    assert After(q, j) == i;
  }

  lemma RingSame(m: Memory, m': Memory, q: seq<nat>)
    requires Ring(m, q) && Ok(m') && |m'.next| == |m.next|
    requires forall x :: x in q ==> x < |m.next| && m'.next[x] == m.next[x] && m'.prev[x] == m.prev[x]
    ensures Ring(m', q)
  {
    forall i | 0 <= i < |q| ensures m'.next[q[i]] == q[After(q, i)] && m'.prev[q[After(q, i)]] == q[i] {
      assert q[i] in q && q[After(q, i)] in q;
    }
  }

  /** A node linked to itself is a list of its own. */
  lemma InitHeadRing(m: Memory, n: nat)
    requires Ok(m) && n < |m.next|
    ensures Ring(InitHead(m, n), [n])
    ensures forall x :: 0 <= x < |m.next| && x != n ==>
      InitHead(m, n).next[x] == m.next[x] && InitHead(m, n).prev[x] == m.prev[x]
  {
  }

  /** Nothing but the ring and the node is touched. */
  ghost predicate OnlyIn(m: Memory, m': Memory, q: seq<nat>, n: nat) {
    && Ok(m) && Ok(m') && |m'.next| == |m.next|
    && forall x :: 0 <= x < |m.next| && x !in q && x != n ==> m'.next[x] == m.next[x] && m'.prev[x] == m.prev[x]
  }

  lemma OthersKept(m: Memory, m': Memory, q: seq<nat>, n: nat, r: seq<nat>)
    requires OnlyIn(m, m', q, n) && Ring(m, r) && n !in r && forall x :: x in r ==> x !in q
    ensures Ring(m', r)
  {
    RingSame(m, m', r);
  }

  lemma AddFields(m: Memory, n: nat, h: nat)
    requires Ok(m) && n < |m.next| && h < |m.next| && n != h && m.next[h] != n
    ensures var r := Add(m, n, h);
      && Ok(r) && |r.next| == |m.next|
      && (forall x :: 0 <= x < |m.next| ==> r.next[x] == if x == h then n else if x == n then m.next[h] else m.next[x])
      && forall x :: 0 <= x < |m.next| ==> r.prev[x] == if x == m.next[h] then n else if x == n then h else m.prev[x]
  {
  }

  function Inserted(q: seq<nat>, i: nat, n: nat): (r: seq<nat>)
    requires i < |q|
    ensures |r| == |q| + 1
    ensures forall j :: 0 <= j < |r| ==> r[j] == if j <= i then q[j] else if j == i + 1 then n else q[j - 1]
  {
    q[..i + 1] + [n] + q[i + 1..]
  }

  function Without(q: seq<nat>, i: nat): (r: seq<nat>)
    requires i < |q|
    ensures |r| == |q| - 1 && forall j :: 0 <= j < |r| ==> r[j] == if j < i then q[j] else q[j + 1]
  {
    q[..i] + q[i + 1..]
  }

  ghost predicate Linked(m: Memory, q: seq<nat>, i: nat)
    requires i < |q|
  {
    Ok(m) && q[i] < |m.next| && q[After(q, i)] < |m.next|
    && m.next[q[i]] == q[After(q, i)] && m.prev[q[After(q, i)]] == q[i]
  }

  lemma RingLink(m: Memory, q: seq<nat>, i: nat)
    requires Ring(m, q) && i < |q|
    ensures Linked(m, q, i)
  {
  }

  lemma LinksApart(m: Memory, q: seq<nat>, i: nat, j: nat, n: nat)
    requires Ring(m, q) && i < |q| && j < |q| && i != j && n !in q
    ensures q[i] != q[j] && q[After(q, i)] != q[After(q, j)] && q[j] != n && q[After(q, j)] != n
  {
    assert q[j] in q && q[After(q, j)] in q;
    assert After(q, i) != After(q, j);
  }

  /** A link of the ring away from the new node. */
  lemma FarLink(m: Memory, q: seq<nat>, i: nat, n: nat, k: nat)
    requires Ring(m, q) && i < |q| && n < |m.next| && n !in q && k < |q| && k != i
    ensures Linked(Add(m, n, q[i]), q, k)
  {
    RingLink(m, q, i);
    RingLink(m, q, k);
    LinksApart(m, q, i, k, n);
    assert q[i] in q && q[After(q, i)] in q;
    hide Ring;
    AddFields(m, n, q[i]);
    hide Add, Ok;
  }

  /** The two links of the new node. */
  lemma NewLinks(m: Memory, q: seq<nat>, i: nat, n: nat)
    requires Ring(m, q) && i < |q| && n < |m.next| && n !in q
    ensures var m' := Add(m, n, q[i]);
      && Ok(m') && |m'.next| == |m.next|
      && m'.next[q[i]] == n && m'.prev[n] == q[i] && m'.next[n] == q[After(q, i)] && m'.prev[q[After(q, i)]] == n
  {
    RingLink(m, q, i);
    assert q[i] in q && q[After(q, i)] in q;
    hide Ring;
    AddFields(m, n, q[i]);
    hide Add, Ok;
  }

  /** One link of the ring with n in it. */
  lemma AddLink(m: Memory, q: seq<nat>, i: nat, n: nat, j: nat)
    requires Ring(m, q) && i < |q| && n < |m.next| && n !in q && j <= |q|
    ensures Linked(Add(m, n, q[i]), Inserted(q, i, n), j)
  {
    hide Add, Ring, Ok;
    RingLink(m, q, i);
    NewLinks(m, q, i, n);
    InsertedAfter(q, i, n, j);
    if j < i {
      FarLink(m, q, i, n, j);
    } else if j > i + 1 {
      FarLink(m, q, i, n, j - 1);
    }
  }

  lemma InsertedAfter(q: seq<nat>, i: nat, n: nat, j: nat)
    requires i < |q| && j <= |q|
    ensures var r := Inserted(q, i, n);
      r[After(r, j)] == if j < i then q[After(q, j)] else if j == i then n else q[After(q, j - 1)]
  {
  }

  lemma AddOnly(m: Memory, q: seq<nat>, i: nat, n: nat)
    requires Ring(m, q) && i < |q| && n < |m.next| && n !in q
    ensures Ok(Add(m, n, q[i])) && |Add(m, n, q[i]).next| == |m.next| && OnlyIn(m, Add(m, n, q[i]), q, n)
  {
    RingLink(m, q, i);
    AddFields(m, n, q[i]);
    hide Add;
  }

  /** Putting n behind the i-th node. */
  lemma AddRing(m: Memory, q: seq<nat>, i: nat, n: nat)
    requires Ring(m, q) && i < |q| && n < |m.next| && n !in q
    ensures Ring(Add(m, n, q[i]), Inserted(q, i, n)) && OnlyIn(m, Add(m, n, q[i]), q, n)
  {
    var m', r := Add(m, n, q[i]), Inserted(q, i, n);
    AddOnly(m, q, i, n);
    hide Add, OnlyIn;
    forall j | 0 <= j < |r| ensures m'.next[r[j]] == r[After(r, j)] && m'.prev[r[After(r, j)]] == r[j] {
      AddLink(m, q, i, n, j);
    }
  }

  /** Putting n at the end of the list that q[0] heads. */
  lemma AddTailRing(m: Memory, q: seq<nat>, n: nat)
    requires Ring(m, q) && n < |m.next| && n !in q
    ensures Ring(AddTail(m, n, q[0]), q + [n]) && OnlyIn(m, AddTail(m, n, q[0]), q, n)
  {
    var m', r := AddTail(m, n, q[0]), q + [n];
    Before(m, q, 0);
    forall j | 0 <= j < |r| ensures m'.next[r[j]] == r[After(r, j)] && m'.prev[r[After(r, j)]] == r[j] {
      if j < |q| - 1 {
        assert m.next[q[j]] == q[After(q, j)] && m.prev[q[After(q, j)]] == q[j];
      }
    }
  }

  lemma DelFields(m: Memory, n: nat)
    requires Ok(m) && n < |m.next| && m.next[n] != n && m.prev[n] != n
    ensures var r := Del(m, n);
      && Ok(r) && |r.next| == |m.next|
      && (forall x :: 0 <= x < |m.next| ==> r.next[x] == if x == m.prev[n] then m.next[n] else m.next[x])
      && forall x :: 0 <= x < |m.next| ==> r.prev[x] == if x == m.next[n] then m.prev[n] else m.prev[x]
  {
  }

  /** Taking the i-th node out. */
  lemma DelRing(m: Memory, q: seq<nat>, i: nat)
    requires Ring(m, q) && i < |q| && |q| >= 2
    ensures Ring(Del(m, q[i]), Without(q, i)) && OnlyIn(m, Del(m, q[i]), q, q[i])
  {
    var m', r := Del(m, q[i]), Without(q, i);
    Before(m, q, i);
    assert m.next[q[i]] == q[After(q, i)];
    DelFields(m, q[i]);
    hide Del, Without;
    forall j | 0 <= j < |r| ensures m'.next[r[j]] == r[After(r, j)] && m'.prev[r[After(r, j)]] == r[j] {
      WithoutAfter(q, i, j);
      RingLink(m, q, if j < i then j else j + 1);
    }
  }

  lemma WithoutAfter(q: seq<nat>, i: nat, j: nat)
    requires i < |q| && j < |q| - 1
    ensures var r, k := Without(q, i), if j < i then j else j + 1;
      && r[j] == q[k] && k != i
      && r[After(r, j)] == if After(q, k) == i then q[After(q, i)] else q[After(q, k)]
  {
  }

  /** Taking a node out of a list of its own changes nothing. */
  lemma DelAlone(m: Memory, n: nat)
    requires Ring(m, [n]) && n < |m.next|
    ensures Del(m, n) == m
  {
    assert m.next[[n][0]] == n && m.prev[[n][0]] == n;
  }

  /** Putting n in the place of the i-th node, in a list of at least two. */
  lemma ReplaceRing(m: Memory, q: seq<nat>, i: nat, n: nat)
    requires Ring(m, q) && i < |q| && |q| >= 2 && n < |m.next| && n !in q
    ensures Ring(Replace(m, q[i], n), q[i := n]) && OnlyIn(m, Replace(m, q[i], n), q, n)
  {
    var m', r := Replace(m, q[i], n), q[i := n];
    Before(m, q, i);
    assert m.next[q[i]] == q[After(q, i)];
    forall j | 0 <= j < |r| ensures m'.next[r[j]] == r[After(r, j)] && m'.prev[r[After(r, j)]] == r[j] {
      assert m.next[q[j]] == q[After(q, j)] && m.prev[q[After(q, j)]] == q[j];
    }
  }

  /** A node that is alone cannot be replaced: its replacement would be linked to it. */
  lemma ReplaceAlone(m: Memory, o: nat, n: nat)
    requires Ring(m, [o]) && o < |m.next| && n < |m.next| && n != o
    ensures !Ring(Replace(m, o, n), [n]) && Replace(m, o, n).next[n] == o
  {
    assert m.next[[o][0]] == o && m.prev[[o][0]] == o;
    var r := Replace(m, o, n);
    assert r.next[[n][0]] == o;
  }
}
