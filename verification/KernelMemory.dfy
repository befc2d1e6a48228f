/** How the kernel's state lies in memory: the queues and the thread groups as rings of nodes. */
module KernelMemory {
  import opened KernelState
  import opened KernelSteps
  import opened ListMemory

  /** The heads of the scheduler's, the sleepers' and the locks' queues are nodes 0, 1, 2 + k; behind
      them every task has a node for the queues and one for its group. */
  function Heads(s: State): (h: nat)
    ensures h >= 2
  {
    2 + |s.waiting|
  }

  function ListNode(h: nat, t: nat): nat {
    h + 2 * t
  }

  function GroupNode(h: nat, t: nat): nat {
    h + 2 * t + 1
  }

  datatype RingName = Queue(i: nat) | Single(t: nat) | Group(g: nat)

  function Nodes(h: nat, q: seq<nat>, o: nat): (r: seq<nat>)
    ensures |r| == |q| && forall i :: 0 <= i < |q| ==> r[i] == h + 2 * q[i] + o
  {
    seq(|q|, i requires 0 <= i < |q| => h + 2 * q[i] + o)
  }

  function QueueOf(s: State, i: nat): seq<nat>
    requires i < Heads(s)
  {
    if i == 0 then s.ready else if i == 1 then s.sleep else s.waiting[i - 2]
  }

  function PlaceOf(i: nat): Place {
    if i == 0 then ReadyQueue else if i == 1 then SleepQueue else LockQueue(i - 2)
  }

  predicate Queued(p: Place) {
    p == ReadyQueue || p == SleepQueue || p.LockQueue?
  }

  predicate Named(s: State, name: RingName) {
    match name
    case Queue(i) => i < Heads(s)
    case Single(t) => 0 < t < |s.place| && !Queued(s.place[t])
    case Group(g) => g < |s.rings|
  }

  /** The nodes of a ring: a queue behind its head, a task in no queue alone, the threads of a group. */
  function RingOf(s: State, name: RingName): seq<nat>
    requires Named(s, name)
  {
    match name
    case Queue(i) => [i] + Nodes(Heads(s), QueueOf(s, i), 0)
    case Single(t) => [ListNode(Heads(s), t)]
    case Group(g) => Nodes(Heads(s), s.rings[g], 1)
  }

  /** The ring that a node is in. */
  function Home(s: State, x: nat): RingName
    requires |s.ring| == |s.place|
  {
    var h := Heads(s);
    if x < h then Queue(x)
    else if (x - h) / 2 >= |s.place| then Single(0)
    else
      var t := (x - h) / 2;
      if (x - h) % 2 == 1 then Group(s.ring[t])
      else
        match s.place[t]
        case ReadyQueue => Queue(0)
        case SleepQueue => Queue(1)
        case LockQueue(k) => Queue(2 + k)
        case _ => Single(t)
  }

  lemma Halves(h: nat, t: nat)
    ensures (ListNode(h, t) - h) / 2 == t && (ListNode(h, t) - h) % 2 == 0
    ensures (GroupNode(h, t) - h) / 2 == t && (GroupNode(h, t) - h) % 2 == 1
  {
  }

  ghost predicate Sound(s: State) {
    Shape(s) && Placed(s) && RingsOk(s)
  }

  /** Rings have no node in common. */
  lemma AtHome(s: State, name: RingName, x: nat)
    requires Sound(s) && Named(s, name) && x in RingOf(s, name)
    ensures Home(s, x) == name
  {
    hide RingsOk, Holds, Placed;
    match name
    case Queue(i) =>
      if x != i {
        QueuedAtHome(s, i, x);
      }
    case Single(t) => Halves(Heads(s), t);
    case Group(g) => GroupedAtHome(s, g, x);
  }

  lemma QueuedAtHome(s: State, i: nat, x: nat)
    requires Sound(s) && i < Heads(s) && x in Nodes(Heads(s), QueueOf(s, i), 0)
    ensures Home(s, x) == Queue(i)
  {
    hide RingsOk, Holds, Placed;
    var j :| 0 <= j < |QueueOf(s, i)| && x == Nodes(Heads(s), QueueOf(s, i), 0)[j];
    var t := QueueOf(s, i)[j];
    Halves(Heads(s), t);
    InQueue(s, i, t);
  }

  lemma GroupedAtHome(s: State, g: nat, x: nat)
    requires Sound(s) && g < |s.rings| && x in Nodes(Heads(s), s.rings[g], 1)
    ensures Home(s, x) == Group(g)
  {
    hide RingsOk, Holds, Placed;
    var j :| 0 <= j < |s.rings[g]| && x == Nodes(Heads(s), s.rings[g], 1)[j];
    var t := s.rings[g][j];
    Halves(Heads(s), t);
    RingMember(s, g, t);
  }

  lemma InQueue(s: State, i: nat, t: nat)
    requires Sound(s) && i < Heads(s) && t in QueueOf(s, i)
    ensures t < |s.place| && s.place[t] == PlaceOf(i)
  {
    hide RingsOk;
    assert i >= 2 ==> Holds(s.place, s.waiting[i - 2], LockQueue(i - 2));
  }

  /** The memory holds the rings of the state. */
  ghost predicate Represented(m: Memory, s: State) {
    && Ok(m) && |m.next| == Heads(s) + 2 * |s.place|
    && forall name :: Named(s, name) ==> Ring(m, RingOf(s, name))
  }

  /** A change in one ring and at one node leaves the others. */
  lemma OtherRings(m: Memory, m': Memory, s: State, a: RingName, x: nat, b: RingName)
    requires Sound(s) && Represented(m, s) && Named(s, a) && Named(s, b) && b != a && Home(s, x) != b
    requires OnlyIn(m, m', RingOf(s, a), x)
    ensures Ring(m', RingOf(s, b))
  {
    hide Ring, Sound, OnlyIn, RingOf;
    forall y | y in RingOf(s, b) ensures y !in RingOf(s, a) && y != x {
      AtHome(s, b, y);
      if y in RingOf(s, a) {
        AtHome(s, a, y);
      }
    }
    OthersKept(m, m', RingOf(s, a), x, RingOf(s, b));
  }

  // ---- putting a task into a queue

  /** Task t, in no queue, goes to the end of queue i. */
  ghost predicate Enqueued(s: State, r: State, i: nat, t: nat) {
    && Sound(s) && Sound(r) && i < Heads(s) && 0 < t < |s.place| && !Queued(s.place[t])
    && Heads(r) == Heads(s) && |r.place| == |s.place| && r.rings == s.rings
    && r.place == s.place[t := PlaceOf(i)]
    && QueueOf(r, i) == QueueOf(s, i) + [t]
    && forall j :: 0 <= j < Heads(s) && j != i ==> QueueOf(r, j) == QueueOf(s, j)
  }

  lemma NodesMore(h: nat, q: seq<nat>, t: nat)
    ensures Nodes(h, q + [t], 0) == Nodes(h, q, 0) + [ListNode(h, t)]
  {
  }

  lemma EnqueueRing(m: Memory, s: State, r: State, i: nat, t: nat)
    requires Represented(m, s) && Enqueued(s, r, i, t)
    ensures ListNode(Heads(s), t) < |m.next|
    ensures Ring(AddTail(m, ListNode(Heads(s), t), i), RingOf(r, Queue(i)))
    ensures OnlyIn(m, AddTail(m, ListNode(Heads(s), t), i), RingOf(s, Queue(i)), ListNode(Heads(s), t))
    ensures MoveTail(m, ListNode(Heads(s), t), i) == AddTail(m, ListNode(Heads(s), t), i)
  {
    hide AddTail, OnlyIn, Sound;
    var h := Heads(s);
    var x, q := ListNode(h, t), RingOf(s, Queue(i));
    Halves(h, t);
    assert Ring(m, RingOf(s, Single(t)));
    assert Ring(m, q);
    hide Represented;
    DelAlone(m, x);
    hide Ring;
    if x in q {
      AtHome(s, Queue(i), x);
    }
    AddTailRing(m, q, x);
    NodesMore(h, QueueOf(s, i), t);
    assert q + [x] == RingOf(r, Queue(i));
  }

  lemma EnqueueKeeps(m: Memory, s: State, r: State, i: nat, t: nat)
    requires Represented(m, s) && Enqueued(s, r, i, t)
    ensures ListNode(Heads(s), t) < |m.next|
    ensures Represented(AddTail(m, ListNode(Heads(s), t), i), r)
    ensures MoveTail(m, ListNode(Heads(s), t), i) == AddTail(m, ListNode(Heads(s), t), i)
  {
    var x := ListNode(Heads(s), t);
    EnqueueRing(m, s, r, i, t);
    Halves(Heads(s), t);
    hide Ring, Sound, AddTail, MoveTail;
    var m' := AddTail(m, x, i);
    forall name | Named(r, name) ensures Ring(m', RingOf(r, name)) {
      if name != Queue(i) {
        EnqueueOther(s, r, i, t, name);
        OtherRings(m, m', s, Queue(i), x, name);
      }
    }
  }

  lemma EnqueueOther(s: State, r: State, i: nat, t: nat, name: RingName)
    requires Enqueued(s, r, i, t) && Named(r, name) && name != Queue(i)
    ensures Named(s, name) && RingOf(r, name) == RingOf(s, name) && Home(s, ListNode(Heads(s), t)) != name
  {
    hide Sound;
    Halves(Heads(s), t);
  }

  // ---- taking a task out of a queue

  /** The j-th task of queue i leaves it; `p` is its new place. */
  ghost predicate Dequeued(s: State, r: State, i: nat, j: nat, p: Place) {
    && Sound(s) && Sound(r) && i < Heads(s) && j < |QueueOf(s, i)|
    && Heads(r) == Heads(s) && |r.place| == |s.place| && r.rings == s.rings
    && QueueOf(s, i)[j] < |s.place| && r.place == s.place[QueueOf(s, i)[j] := p]
    && QueueOf(r, i) == Without(QueueOf(s, i), j)
    && forall k :: 0 <= k < Heads(s) && k != i ==> QueueOf(r, k) == QueueOf(s, k)
  }

  lemma NodesFewer(h: nat, head: nat, q: seq<nat>, j: nat)
    requires j < |q|
    ensures Without([head] + Nodes(h, q, 0), j + 1) == [head] + Nodes(h, Without(q, j), 0)
  {
    var a, b := Without([head] + Nodes(h, q, 0), j + 1), [head] + Nodes(h, Without(q, j), 0);
    forall k | 0 <= k < |a| ensures a[k] == b[k] {
    }
  }

  /** The list without the task; its own node is left as it is. */
  lemma DequeueRing(m: Memory, s: State, r: State, i: nat, j: nat, p: Place)
    requires Represented(m, s) && Dequeued(s, r, i, j, p)
    ensures var x := ListNode(Heads(s), QueueOf(s, i)[j]);
      && x < |m.next| && Ring(Del(m, x), RingOf(r, Queue(i))) && OnlyIn(m, Del(m, x), RingOf(s, Queue(i)), x)
      && x !in RingOf(r, Queue(i))
  {
    hide Del, OnlyIn, Sound;
    var h, q := Heads(s), RingOf(s, Queue(i));
    assert Ring(m, q);
    hide Represented;
    assert q[j + 1] == ListNode(h, QueueOf(s, i)[j]);
    DelRing(m, q, j + 1);
    NodesFewer(h, i, QueueOf(s, i), j);
    NotThere(m, q, j + 1);
  }

  lemma NotThere(m: Memory, q: seq<nat>, i: nat)
    requires Ring(m, q) && i < |q|
    ensures q[i] < |m.next| && q[i] !in Without(q, i)
  {
  }

  lemma DequeueOther(s: State, r: State, i: nat, j: nat, p: Place, name: RingName)
    requires Dequeued(s, r, i, j, p) && Named(r, name) && name != Queue(i) && name != Single(QueueOf(s, i)[j])
    ensures Named(s, name) && RingOf(r, name) == RingOf(s, name)
    ensures Home(s, ListNode(Heads(s), QueueOf(s, i)[j])) == Queue(i)
  {
    var t := QueueOf(s, i)[j];
    Halves(Heads(s), t);
    assert t in QueueOf(s, i);
    InQueue(s, i, t);
    hide Sound;
  }

  /** A task taken out of a queue and linked to itself. */
  lemma DequeueKeeps(m: Memory, s: State, r: State, i: nat, j: nat, p: Place)
    requires Represented(m, s) && Dequeued(s, r, i, j, p) && !Queued(p)
    ensures ListNode(Heads(s), QueueOf(s, i)[j]) < |m.next|
    ensures Represented(DelInit(m, ListNode(Heads(s), QueueOf(s, i)[j])), r)
  {
    var t := QueueOf(s, i)[j];
    var x := ListNode(Heads(s), t);
    DequeueRing(m, s, r, i, j, p);
    var a := Del(m, x);
    InitHeadRing(a, x);
    var m' := InitHead(a, x);
    hide Ring, Del, InitHead;
    OnlyThere(a, m', x);
    forall name | Named(r, name) ensures Ring(m', RingOf(r, name)) {
      if name == Queue(i) {
        OthersKept(a, m', [], x, RingOf(r, name));
      } else if name != Single(t) {
        DequeueOther(s, r, i, j, p, name);
        OtherRings(m, a, s, Queue(i), x, name);
        AwayFrom(s, name, x);
        OthersKept(a, m', [], x, RingOf(r, name));
      }
    }
  }

  lemma OnlyThere(m: Memory, m': Memory, x: nat)
    requires Ok(m) && x < |m.next| && m' == InitHead(m, x)
    ensures OnlyIn(m, m', [], x)
  {
  }

  lemma AwayFrom(s: State, name: RingName, x: nat)
    requires Sound(s) && Named(s, name) && Home(s, x) != name
    ensures x !in RingOf(s, name)
  {
    hide Sound, RingOf;
    if x in RingOf(s, name) {
      AtHome(s, name, x);
    }
  }

  // ---- moving a task to the end of another queue

  /** The j-th task of queue i goes to the end of queue e. */
  ghost predicate Requeued(s: State, r: State, i: nat, j: nat, e: nat) {
    && Sound(s) && Sound(r) && i < Heads(s) && e < Heads(s) && e != i && j < |QueueOf(s, i)|
    && Heads(r) == Heads(s) && |r.place| == |s.place| && r.rings == s.rings
    && QueueOf(s, i)[j] < |s.place| && r.place == s.place[QueueOf(s, i)[j] := PlaceOf(e)]
    && QueueOf(r, i) == Without(QueueOf(s, i), j) && QueueOf(r, e) == QueueOf(s, e) + [QueueOf(s, i)[j]]
    && forall k :: 0 <= k < Heads(s) && k != i && k != e ==> QueueOf(r, k) == QueueOf(s, k)
  }

  lemma RequeueTarget(m: Memory, a: Memory, s: State, r: State, i: nat, j: nat, e: nat, x: nat)
    requires Represented(m, s) && Requeued(s, r, i, j, e) && x == ListNode(Heads(s), QueueOf(s, i)[j]) < |m.next|
    requires OnlyIn(m, a, RingOf(s, Queue(i)), x) && Home(s, x) == Queue(i)
    ensures Ring(AddTail(a, x, e), RingOf(r, Queue(e))) && OnlyIn(a, AddTail(a, x, e), RingOf(s, Queue(e)), x)
  {
    hide Sound, AddTail, Ring;
    OtherRings(m, a, s, Queue(i), x, Queue(e));
    AwayFrom(s, Queue(e), x);
    AddTailRing(a, RingOf(s, Queue(e)), x);
    NodesMore(Heads(s), QueueOf(s, e), QueueOf(s, i)[j]);
    assert RingOf(s, Queue(e)) + [x] == RingOf(r, Queue(e));
  }

  lemma RequeueOther(s: State, r: State, i: nat, j: nat, e: nat, name: RingName)
    requires Requeued(s, r, i, j, e) && Named(r, name) && name != Queue(e)
    ensures Named(s, name) && (name != Queue(i) ==> RingOf(r, name) == RingOf(s, name))
  {
    hide Sound;
  }

  lemma RequeueHome(s: State, r: State, i: nat, j: nat, e: nat)
    requires Requeued(s, r, i, j, e)
    ensures Home(s, ListNode(Heads(s), QueueOf(s, i)[j])) == Queue(i)
    ensures forall x :: x in RingOf(r, Queue(i)) ==> x in RingOf(s, Queue(i))
  {
    var t := QueueOf(s, i)[j];
    Halves(Heads(s), t);
    assert t in QueueOf(s, i);
    InQueue(s, i, t);
    NodesFewer(Heads(s), i, QueueOf(s, i), j);
    hide Sound;
  }

  lemma RequeueSource(m: Memory, s: State, r: State, i: nat, j: nat, e: nat)
    requires Represented(m, s) && Requeued(s, r, i, j, e)
    ensures var x := ListNode(Heads(s), QueueOf(s, i)[j]);
      && x < |m.next| && Ring(Del(m, x), RingOf(r, Queue(i))) && OnlyIn(m, Del(m, x), RingOf(s, Queue(i)), x)
      && x !in RingOf(r, Queue(i))
  {
    hide Del, OnlyIn, Sound;
    var h, q := Heads(s), RingOf(s, Queue(i));
    assert Ring(m, q);
    hide Represented;
    assert q[j + 1] == ListNode(h, QueueOf(s, i)[j]);
    DelRing(m, q, j + 1);
    NodesFewer(h, i, QueueOf(s, i), j);
    NotThere(m, q, j + 1);
  }

  lemma RequeueKeeps(m: Memory, s: State, r: State, i: nat, j: nat, e: nat)
    requires Represented(m, s) && Requeued(s, r, i, j, e)
    ensures ListNode(Heads(s), QueueOf(s, i)[j]) < |m.next|
    ensures Represented(MoveTail(m, ListNode(Heads(s), QueueOf(s, i)[j]), e), r)
  {
    var x := ListNode(Heads(s), QueueOf(s, i)[j]);
    RequeueSource(m, s, r, i, j, e);
    RequeueHome(s, r, i, j, e);
    var a := Del(m, x);
    RequeueTarget(m, a, s, r, i, j, e, x);
    var m' := AddTail(a, x, e);
    hide Ring, Del, AddTail, Sound;
    forall name | Named(r, name) ensures Ring(m', RingOf(r, name)) {
      if name == Queue(i) {
        forall y | y in RingOf(r, name) ensures y !in RingOf(s, Queue(e)) {
          if y in RingOf(s, Queue(e)) {
            AtHome(s, Queue(i), y);
            AtHome(s, Queue(e), y);
          }
        }
        OthersKept(a, m', RingOf(s, Queue(e)), x, RingOf(r, name));
      } else if name != Queue(e) {
        RequeueOther(s, r, i, j, e, name);
        OtherRings(m, a, s, Queue(i), x, name);
        AwayFrom(s, name, x);
        ApartRings(s, name, Queue(e));
        OthersKept(a, m', RingOf(s, Queue(e)), x, RingOf(r, name));
      }
    }
  }

  lemma ApartRings(s: State, a: RingName, b: RingName)
    requires Sound(s) && Named(s, a) && Named(s, b) && a != b
    ensures forall x :: x in RingOf(s, a) ==> x !in RingOf(s, b)
  {
    hide Sound, RingOf;
    forall x | x in RingOf(s, a) ensures x !in RingOf(s, b) {
      AtHome(s, a, x);
      if x in RingOf(s, b) {
        AtHome(s, b, x);
      }
    }
  }

  // ---- threads

  /** Nothing moves between queues and groups. */
  lemma SameRings(m: Memory, s: State, r: State)
    requires Represented(m, s) && Heads(r) == Heads(s) && |r.place| == |s.place| && r.rings == s.rings
    requires r.ready == s.ready && r.sleep == s.sleep && r.waiting == s.waiting
    requires forall t :: 0 < t < |s.place| ==> Queued(r.place[t]) == Queued(s.place[t])
    ensures Represented(m, r)
  {
    hide Ring;
    forall name | Named(r, name) ensures Ring(m, RingOf(r, name)) {
      assert Named(s, name) && RingOf(r, name) == RingOf(s, name);
    }
  }

  /** Linking to itself a node that is alone changes nothing. */
  lemma InitAlone(m: Memory, s: State, t: nat)
    requires Represented(m, s) && 0 < t < |s.place| && !Queued(s.place[t])
    ensures ListNode(Heads(s), t) < |m.next| && InitHead(m, ListNode(Heads(s), t)) == m
  {
    var x := ListNode(Heads(s), t);
    assert Named(s, Single(t)) && RingOf(s, Single(t)) == [x];
    assert Ring(m, [x]);
    assert m.next[[x][0]] == x && m.prev[[x][0]] == x;
  }

  /** Two more nodes, each linked to itself. */
  function Grown(m: Memory): (r: Memory)
  {
    Memory(m.next + [|m.next|, |m.next| + 1], m.prev + [|m.next|, |m.next| + 1])
  }

  lemma GrownRings(m: Memory, q: seq<nat>)
    requires Ring(m, q)
    ensures Ok(Grown(m)) && Ring(Grown(m), q) && Ring(Grown(m), [|m.next|])
    ensures |m.next| !in q && |m.next| + 1 !in q
  {
    var g := Grown(m);
    forall i | 0 <= i < |q| ensures g.next[q[i]] == q[After(q, i)] && g.prev[q[After(q, i)]] == q[i] {
      assert m.next[q[i]] == q[After(q, i)] && m.prev[q[After(q, i)]] == q[i];
    }
  }

  lemma NodesInserted(h: nat, q: seq<nat>, i: nat, t: nat)
    requires i < |q|
    ensures Nodes(h, q[..i + 1] + [t] + q[i + 1..], 1) == Inserted(Nodes(h, q, 1), i, GroupNode(h, t))
  {
  }

  /** Where the running thread is in its ring. */
  lemma CurrentInRing(s: State) returns (g: nat, i: nat)
    requires Runs(s)
    ensures g == s.ring[s.current] < |s.rings| && s.current in s.rings[g] && i == Position(s.rings[g], s.current)
    ensures Named(s, Group(g)) && i < |RingOf(s, Group(g))| && RingOf(s, Group(g))[i] == GroupNode(Heads(s), s.current)
  {
    g := s.ring[s.current];
    RingMember(s, g, s.current);
    i := Position(s.rings[g], s.current);
  }

  lemma CreateKeeps(m: Memory, s: State)
    requires Represented(m, s) && Runs(s)
    ensures Ok(Grown(m)) && GroupNode(Heads(s), s.current) < |m.next|
    ensures Represented(Add(Grown(m), |m.next| + 1, GroupNode(Heads(s), s.current)), Create(s))
  {
    var g, i := CurrentInRing(s);
    var q := RingOf(s, Group(g));
    HeldGroup(m, s, g);
    hide *;
    var m' := GroupGrown(m, Heads(s), s.rings[g], i, |s.place|, q);
    CreateSizes(s);
    forall name | Named(Create(s), name) ensures Ring(m', RingOf(Create(s), name)) {
      if name == Single(|s.place|) {
        NewSingle(m, m', s, q);
      } else if name != Group(g) {
        OtherAfterCreate(m, m', s, g, q, |m.next| + 1, name);
      } else {
        CreatedGroup(s, g, i);
      }
    }
    RepresentedIf(m', Create(s));
  }

  lemma HeldGroup(m: Memory, s: State, g: nat)
    requires Represented(m, s) && Named(s, Group(g))
    ensures g < |s.rings| && Ok(m) && |m.next| == Heads(s) + 2 * |s.place|
    ensures Ring(m, RingOf(s, Group(g))) && RingOf(s, Group(g)) == Nodes(Heads(s), s.rings[g], 1)
    ensures |m.next| + 1 == GroupNode(Heads(s), |s.place|)
  {
  }

  /** A group with the new thread behind its i-th member. */
  lemma GroupGrown(m: Memory, h: nat, ring: seq<nat>, i: nat, t: nat, q: seq<nat>) returns (m': Memory)
    requires q == Nodes(h, ring, 1) && Ring(m, q) && i < |q| == |ring|
    ensures Ok(Grown(m)) && q[i] < |m.next| && m' == Add(Grown(m), |m.next| + 1, q[i]) && |m'.next| == |m.next| + 2
    ensures Ring(Grown(m), [|m.next|]) && |m.next| !in q && OnlyIn(Grown(m), m', q, |m.next| + 1)
    ensures |m.next| + 1 == GroupNode(h, t) ==> Ring(m', Nodes(h, ring[..i + 1] + [t] + ring[i + 1..], 1))
  {
    hide Ring, Add, Inserted, Nodes;
    InRange(m, q, i);
    GrownRings(m, q);
    AddRing(Grown(m), q, i, |m.next| + 1);
    NodesInserted(h, ring, i, t);
    m' := Add(Grown(m), |m.next| + 1, q[i]);
  }

  lemma InRange(m: Memory, q: seq<nat>, i: nat)
    requires Ring(m, q) && i < |q|
    ensures q[i] < |m.next|
  {
  }

  lemma RepresentedIf(m: Memory, s: State)
    requires Ok(m) && |m.next| == Heads(s) + 2 * |s.place|
    requires forall name :: Named(s, name) ==> Ring(m, RingOf(s, name))
    ensures Represented(m, s)
  {
  }

  lemma CreateSizes(s: State)
    requires Runs(s)
    ensures Heads(Create(s)) == Heads(s) && |Create(s).place| == |s.place| + 1
  {
    hide Position;
  }

  lemma NewSingle(m: Memory, m': Memory, s: State, q: seq<nat>)
    requires Represented(m, s) && Runs(s) && Named(Create(s), Single(|s.place|))
    requires Ring(Grown(m), [|m.next|]) && |m.next| !in q && OnlyIn(Grown(m), m', q, |m.next| + 1)
    ensures Ring(m', RingOf(Create(s), Single(|s.place|)))
  {
    hide Position, Ring, OnlyIn, Grown;
    OthersKept(Grown(m), m', q, |m.next| + 1, [|m.next|]);
  }

  lemma CreatedGroup(s: State, g: nat, i: nat)
    requires Runs(s) && g == s.ring[s.current] < |s.rings| && i == Position(s.rings[g], s.current) < |s.rings[g]|
    requires Named(Create(s), Group(g))
    ensures RingOf(Create(s), Group(g)) == Nodes(Heads(s), s.rings[g][..i + 1] + [|s.place|] + s.rings[g][i + 1..], 1)
  {
    hide Position, Nodes, Inv;
    CreatedRings(s);
  }

  lemma CreatedRings(s: State)
    requires Runs(s)
    ensures Heads(Create(s)) == Heads(s) && |s.status| == |s.place| && s.ring[s.current] < |s.rings|
    ensures var g := s.ring[s.current];
      && s.current in s.rings[g] && |Create(s).rings| == |s.rings|
      && var i := Position(s.rings[g], s.current);
        Create(s).rings[g] == s.rings[g][..i + 1] + [|s.place|] + s.rings[g][i + 1..]
  {
    hide Position;
    RingMember(s, s.ring[s.current], s.current);
  }

  /** A ring other than that of the running thread's group. */
  lemma OtherAfterCreate(m: Memory, m': Memory, s: State, g: nat, q: seq<nat>, y: nat, name: RingName)
    requires Represented(m, s) && Runs(s) && g == s.ring[s.current] < |s.rings| && Named(s, Group(g))
    requires q == RingOf(s, Group(g)) && y == |m.next| + 1 && OnlyIn(Grown(m), m', q, y)
    requires Named(Create(s), name) && name != Single(|s.place|) && name != Group(g)
    ensures Ring(m', RingOf(Create(s), name))
  {
    hide Ring, Inv, Ok, Create, OnlyIn, Grown;
    CreateOther(s, name);
    GrownRings(m, RingOf(s, name));
    InvSound(s);
    ApartRings(s, name, Group(g));
    OthersKept(Grown(m), m', q, y, RingOf(s, name));
  }

  lemma InvSound(s: State)
    requires Inv(s)
    ensures Sound(s)
  {
  }

  lemma CreateOther(s: State, name: RingName)
    requires Runs(s) && Named(Create(s), name) && name != Single(|s.place|) && name != Group(s.ring[s.current])
    ensures Named(s, name) && RingOf(Create(s), name) == RingOf(s, name)
  {
    hide Position, Nodes, Placed, StatusAgrees, LocksOk, NoDup, Members;
  }
}
