/** Setting up the tasks: each gets its nodes, and all but the boot task go to the ready queue. */
module KernelBoot {
  import opened KernelState
  import opened KernelRuns
  import opened ListMemory
  import opened KernelMemory
  import opened KernelList
  import K = Kernel

  /** Memory in which every node is linked to itself. */
  function Selves(n: nat): (m: Memory)
    ensures Ok(m) && |m.next| == n
  {
    Memory(seq(n, i => i), seq(n, i => i))
  }

  lemma SelfRing(n: nat, i: nat)
    requires i < n
    ensures Ring(Selves(n), [i])
  {
  }

  /** The state with the first i of n tasks in the ready queue; task 0 is the boot task. */
  ghost function Started(n: nat, locks: nat, i: nat): (s: State)
    requires i <= n
    ensures Shape(s)
  {
    State(0, seq(n + 1, t => if t == 0 then Blocked else Ready), seq(n + 1, _ => 0), seq(i, t => t + 1), [],
          seq(locks, _ => []), seq(locks, _ => false), seq(locks, _ => NO_KEY), seq(n, g => [g + 1]),
          seq(n + 1, t => if t == 0 then 0 else t - 1),
          seq(n + 1, t => if t == 0 then Cpu else if t <= i then ReadyQueue else Parked), seq(locks, _ => []))
  }

  lemma StartedSound(n: nat, locks: nat, i: nat)
    requires i <= n
    ensures Sound(Started(n, locks, i))
  {
    var s := Started(n, locks, i);
    forall t | 0 <= t < |s.place| && s.place[t] == ReadyQueue ensures t in s.ready {
      assert s.ready[t - 1] == t;
    }
    forall g | 0 <= g < |s.rings| ensures Members(s.rings[g], s.ring, g) && NoDup(s.rings[g]) {
    }
  }

  /** At first every node is a ring of its own. */
  lemma NothingLinked(n: nat, locks: nat)
    ensures Represented(Selves(Heads(Started(n, locks, 0)) + 2 * (n + 1)), Started(n, locks, 0))
  {
    hide Started, RingOf, Ring, Named;
    var s := Started(n, locks, 0);
    StartedFields(n, locks, 0);
    forall name | Named(s, name) ensures Ring(Selves(Heads(s) + 2 * (n + 1)), RingOf(s, name)) {
      var x := AloneAtFirst(n, locks, name);
      SelfRing(Heads(s) + 2 * (n + 1), x);
    }
  }

  lemma AloneAtFirst(n: nat, locks: nat, name: RingName) returns (x: nat)
    requires Named(Started(n, locks, 0), name)
    ensures RingOf(Started(n, locks, 0), name) == [x] && x < Heads(Started(n, locks, 0)) + 2 * (n + 1)
  {
    var s := Started(n, locks, 0);
    match name
    case Queue(i) =>
      x := i;
    case Single(t) =>
      x := ListNode(Heads(s), t);
    case Group(g) =>
      x := GroupNode(Heads(s), g + 1);
  }

  /** One more task is ready. */
  lemma StartedMore(n: nat, locks: nat, i: nat)
    requires i < n
    ensures Enqueued(Started(n, locks, i), Started(n, locks, i + 1), 0, i + 1)
  {
    StartedSound(n, locks, i);
    StartedSound(n, locks, i + 1);
    hide Sound;
  }

  lemma StartedBoots(n: nat, locks: nat)
    ensures Boot(Started(n, locks, n))
  {
  }

  /** Nodes with the numbers from 0 on.  The heads of the locks' queues are left as they are, the other nodes are
      linked to themselves. */
  method MakeNodes(n: nat, locks: nat) returns (nodes: seq<Node>)
    ensures |nodes| == n && RepresentsBut(nodes, Selves(n), 2, 2 + locks) && forall i :: 0 <= i < n ==> fresh(nodes[i])
  {
    nodes := [];
    for i := 0 to n
      invariant |nodes| == i && forall j :: 0 <= j < i ==> fresh(nodes[j])
      invariant forall j {:trigger nodes[j].id} :: 0 <= j < i ==> nodes[j].id == j
      invariant forall j {:trigger nodes[j].next} :: 0 <= j < i && !(2 <= j < 2 + locks) ==> nodes[j].next == nodes[j]
      invariant forall j {:trigger nodes[j].prev} :: 0 <= j < i && !(2 <= j < 2 + locks) ==> nodes[j].prev == nodes[j]
    {
      var node := new Node(i);
      if !(2 <= i < 2 + locks) {
        node.next, node.prev := node, node;
      }
      nodes := nodes + [node];
    }
  }

  method MakeTasks(nodes: seq<Node>, heads: nat, n: nat) returns (tasks: seq<K.Task>)
    requires |nodes| == heads + 2 * n
    ensures |tasks| == n && forall t, u :: 0 <= t < u < n ==> tasks[t] != tasks[u]
    ensures forall t :: 0 <= t < n ==>
      && fresh(tasks[t]) && tasks[t].list == nodes[ListNode(heads, t)] && tasks[t].group == nodes[GroupNode(heads, t)]
      && tasks[t].status == (if t == 0 then Blocked else Ready) && tasks[t].wakeupTime == 0
  {
    tasks := [];
    for i := 0 to n
      invariant |tasks| == i && forall t, u :: 0 <= t < u < i ==> tasks[t] != tasks[u]
      invariant forall t :: 0 <= t < i ==>
        && fresh(tasks[t]) && tasks[t].list == nodes[ListNode(heads, t)] && tasks[t].group == nodes[GroupNode(heads, t)]
        && tasks[t].status == (if t == 0 then Blocked else Ready) && tasks[t].wakeupTime == 0
    {
      var task := new K.Task(nodes[ListNode(heads, i)], nodes[GroupNode(heads, i)]);
      if i == 0 {
        task.status := Blocked;
      }
      tasks := tasks + [task];
    }
  }

  method MakeMutexes(nodes: seq<Node>, locks: nat) returns (mutexes: seq<K.Mutex>)
    requires |nodes| >= 2 + locks
    ensures |mutexes| == locks && forall j, k :: 0 <= j < k < locks ==> mutexes[j] != mutexes[k]
    ensures forall k :: 0 <= k < locks ==> fresh(mutexes[k]) && mutexes[k].queue == nodes[2 + k]
  {
    mutexes := [];
    for i := 0 to locks
      invariant |mutexes| == i && forall j, k :: 0 <= j < k < i ==> mutexes[j] != mutexes[k]
      invariant forall k :: 0 <= k < i ==> fresh(mutexes[k]) && mutexes[k].queue == nodes[2 + k]
    {
      var mutex := new K.Mutex(nodes[2 + i]);
      mutexes := mutexes + [mutex];
    }
  }

  lemma StartedFields(n: nat, locks: nat, i: nat)
    requires i <= n
    ensures var s := Started(n, locks, i);
      && s.current == 0 && |s.place| == n + 1 && |s.waiting| == locks && Heads(s) == 2 + locks
      && (forall t :: 0 <= t <= n ==> s.status[t] == (if t == 0 then Blocked else Ready) && s.wakeup[t] == 0)
      && |s.locked| == |s.keys| == |s.holders| == locks
      && forall k :: 0 <= k < locks ==> s.waiting[k] == [] && !s.locked[k] && s.keys[k] == NO_KEY && s.holders[k] == []
  {
  }

  lemma LocksStarted(n: nat, locks: nat, s: State)
    requires s == Started(n, locks, 0).(locked := s.locked, keys := s.keys, holders := s.holders)
    requires |s.locked| == |s.keys| == |s.holders| == locks
    requires forall k :: 0 <= k < locks ==> !s.locked[k] && s.keys[k] == NO_KEY && s.holders[k] == []
    ensures s == Started(n, locks, 0)
  {
    var start := Started(n, locks, 0);
    assert s.locked == start.locked && s.keys == start.keys && s.holders == start.holders;
  }

  /** A kernel with n tasks, none of which is in a queue, and with locks that are still to be set up. */
  method MakeKernel(n: nat, locks: nat) returns (kernel: K.Kernel)
    ensures fresh(kernel) && kernel.MatchesUpTo(0) && kernel.s == Started(n, locks, 0)
    ensures |kernel.tasks| == n + 1 && |kernel.mutexes| == locks
    ensures (forall i :: 0 <= i < |kernel.nodes| ==> fresh(kernel.nodes[i]))
    ensures (forall k :: 0 <= k < locks ==> fresh(kernel.mutexes[k]))
  {
    hide Represented, RepresentsBut, Started;
    var nodes := MakeNodes(2 + locks + 2 * (n + 1), locks);
    var tasks := MakeTasks(nodes, 2 + locks, n + 1);
    var mutexes := MakeMutexes(nodes, locks);
    StartedFields(n, locks, 0);
    NothingLinked(n, locks);
    kernel := new K.Kernel(tasks, mutexes, nodes[0], nodes[1], 0, nodes, Selves(2 + locks + 2 * (n + 1)),
                           Started(n, locks, 0));
  }

  /** Puts task i + 1 into the ready queue. */
  method MakeReady(kernel: K.Kernel, n: nat, locks: nat, i: nat)
    requires i < n && kernel.Matches() && kernel.s == Started(n, locks, i)
    modifies kernel`m, kernel`s, kernel.nodes
    ensures kernel.Matches() && kernel.s == Started(n, locks, i + 1)
  {
    hide Represented, Represents, Started, Enqueued;
    StartedFields(n, locks, i);
    StartedFields(n, locks, i + 1);
    StartedMore(n, locks, i);
    kernel.LayoutUnfolds();
    kernel.NodeOf(i + 1);
    kernel.HeadNodes();
    kernel.AddToReady(kernel.tasks[i + 1].list, i + 1, Started(n, locks, i + 1));
    kernel.s := Started(n, locks, i + 1);
  }

  /** Sets up locks and tasks: a kernel in order, with n tasks ready for the first call of the scheduler. */
  method InitPcb(n: nat, locks: nat) returns (kernel: K.Kernel)
    ensures kernel.Valid() && Boot(kernel.s) && |kernel.tasks| == n + 1 && |kernel.mutexes| == locks
  {
    hide Started, Boot, Inv, kernel.Matches, kernel.MatchesUpTo;
    kernel := MakeKernel(n, locks);
    StartedFields(n, locks, 0);
    kernel.InitLocks();
    LocksStarted(n, locks, kernel.s);
    for i := 0 to n
      invariant kernel.s == Started(n, locks, i) && kernel.Matches()
      invariant |kernel.tasks| == n + 1 && |kernel.mutexes| == locks && fresh(kernel)
      invariant forall i :: 0 <= i < |kernel.nodes| ==> fresh(kernel.nodes[i])
    {
      MakeReady(kernel, n, locks, i);
    }
    StartedBoots(n, locks);
    BootIsInv(kernel.s);
  }
}
