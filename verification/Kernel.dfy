/** The kernel's system calls, on tasks, locks and intrusive lists.  Every call does to the heap what its
    step does to the state. */
module Kernel {
  import opened KernelState
  import opened KernelSteps
  import opened ListMemory
  import opened KernelMemory
  import opened KernelWaking
  import opened KernelList

  class Task {
    var status: Status
    var wakeupTime: nat
    const list: Node
    const group: Node

    constructor (list: Node, group: Node)
      ensures this.list == list && this.group == group && status == Ready && wakeupTime == 0
    {
      this.list, this.group := list, group;
      status, wakeupTime := Ready, 0;
    }
  }

  class Mutex {
    var locked: bool
    var key: int
    const queue: Node

    constructor (queue: Node)
      ensures this.queue == queue && !locked && key == NO_KEY
    {
      this.queue := queue;
      locked, key := false, NO_KEY;
    }
  }

  /** Which node belongs to what. */
  ghost predicate LaidOut(nodes: seq<Node>, tasks: seq<Task>, mutexes: seq<Mutex>, ready: Node, sleep: Node, s: State) {
    && |mutexes| == |s.waiting| && |tasks| == |s.place|
    && |nodes| == Heads(s) + 2 * |tasks|
    && nodes[0] == ready && nodes[1] == sleep
    && (forall k :: 0 <= k < |mutexes| ==> nodes[2 + k] == mutexes[k].queue)
    && (forall t :: 0 <= t < |tasks| ==> nodes[ListNode(Heads(s), t)] == tasks[t].list)
    && (forall t :: 0 <= t < |tasks| ==> nodes[GroupNode(Heads(s), t)] == tasks[t].group)
    && (forall t, u :: 0 <= t < u < |tasks| ==> tasks[t] != tasks[u])
    && (forall j, k :: 0 <= j < k < |mutexes| ==> mutexes[j] != mutexes[k])
  }

  /** One more task, with two more nodes. */
  lemma LaidOutMore(nodes: seq<Node>, tasks: seq<Task>, mutexes: seq<Mutex>, ready: Node, sleep: Node, s: State,
                    more: seq<Node>, thread: Task, r: State)
    requires LaidOut(nodes, tasks, mutexes, ready, sleep, s) && thread !in tasks
    requires |r.waiting| == |s.waiting| && |r.place| == |s.place| + 1
    requires |more| == |nodes| + 2 && more[..|nodes|] == nodes && more[|nodes|] == thread.list
    requires more[|nodes| + 1] == thread.group
    ensures LaidOut(more, tasks + [thread], mutexes, ready, sleep, r)
  {
    assert forall i :: 0 <= i < |nodes| ==> more[i] == more[..|nodes|][i];
  }

  class Kernel {
    var tasks: seq<Task>
    const mutexes: seq<Mutex>
    const readyQueue: Node
    const sleepQueue: Node
    /** The number of the running task. */
    var current: nat
    /** All list nodes, by number. */
    ghost var nodes: seq<Node>
    ghost var m: Memory
    ghost var s: State

    /** A kernel whose memory has been set up. */
    constructor (tasks: seq<Task>, mutexes: seq<Mutex>, readyQueue: Node, sleepQueue: Node, current: nat,
                 ghost nodes: seq<Node>, ghost m: Memory, ghost s: State)
      ensures this.tasks == tasks && this.mutexes == mutexes && this.nodes == nodes && this.m == m && this.s == s
      ensures this.readyQueue == readyQueue && this.sleepQueue == sleepQueue && this.current == current
    {
      this.tasks, this.mutexes, this.readyQueue, this.sleepQueue := tasks, mutexes, readyQueue, sleepQueue;
      this.current, this.nodes, this.m, this.s := current, nodes, m, s;
    }

    ghost predicate Layout()
      reads this
    {
      LaidOut(nodes, tasks, mutexes, readyQueue, sleepQueue, s)
    }

    /** The heap is that of the state. */
    ghost predicate Matches()
      reads this, nodes, tasks, mutexes
    {
      && Shape(s) && Layout() && current == s.current
      && Ok(m) && |m.next| == |nodes| && Represents(nodes, m) && Represented(m, s)
      && (forall t :: 0 <= t < |tasks| ==> tasks[t].status == s.status[t] && tasks[t].wakeupTime == s.wakeup[t])
      && forall k :: 0 <= k < |mutexes| ==> mutexes[k].locked == s.locked[k] && mutexes[k].key == s.keys[k]
    }

    /** The same while the locks are set up: of those from i on nothing is known, not even the links of the heads of
        their queues.  `m` has them linked to themselves, which is what they will be. */
    ghost predicate MatchesUpTo(i: nat)
      reads this, nodes, tasks, mutexes
    {
      && Shape(s) && Layout() && current == s.current && i <= |mutexes|
      && Ok(m) && |m.next| == |nodes| && RepresentsBut(nodes, m, 2 + i, 2 + |mutexes|) && Represented(m, s)
      && (forall t :: 0 <= t < |tasks| ==> tasks[t].status == s.status[t] && tasks[t].wakeupTime == s.wakeup[t])
      && (forall k :: 0 <= k < |mutexes| ==> s.waiting[k] == [])
      && forall k :: 0 <= k < i ==> mutexes[k].locked == s.locked[k] && mutexes[k].key == s.keys[k]
    }

    /** Between system calls. */
    ghost predicate Valid()
      reads this, nodes, tasks, mutexes
    {
      Matches() && Inv(s)
    }

    lemma NodeOf(t: nat)
      requires Shape(s) && Layout() && t < |tasks| && Represents(nodes, m)
      ensures ListNode(Heads(s), t) < |nodes| && GroupNode(Heads(s), t) < |nodes|
      ensures Among(nodes, tasks[t].list) && tasks[t].list.id == ListNode(Heads(s), t)
      ensures Among(nodes, tasks[t].group) && tasks[t].group.id == GroupNode(Heads(s), t)
    {
      assert nodes[ListNode(Heads(s), t)].id == ListNode(Heads(s), t);
      assert nodes[GroupNode(Heads(s), t)].id == GroupNode(Heads(s), t);
    }

    lemma HeadNodes()
      requires Shape(s) && Layout() && Represents(nodes, m)
      ensures Among(nodes, readyQueue) && readyQueue.id == 0 && Among(nodes, sleepQueue) && sleepQueue.id == 1
      ensures forall k :: 0 <= k < |mutexes| ==> Among(nodes, mutexes[k].queue) && mutexes[k].queue.id == 2 + k
    {
      assert nodes[0].id == 0 && nodes[1].id == 1;
      forall k | 0 <= k < |mutexes| ensures Among(nodes, mutexes[k].queue) && mutexes[k].queue.id == 2 + k {
        assert nodes[2 + k].id == 2 + k;
      }
    }

    /** The number of the task that a list node belongs to. */
    function ListEntry(n: Node): nat
      requires n.id >= 2 + |mutexes|
      reads this
    {
      (n.id - (2 + |mutexes|)) / 2
    }

    /** Makes a task ready that is in the queue of sleepers or of a lock. */
    method DoUnblock(n: Node, ghost i: nat, ghost j: nat)
      requires Matches() && Base(s) && 1 <= i < Heads(s) && j < |QueueOf(s, i)|
      requires QueueOf(s, i)[j] < |tasks| && n == tasks[QueueOf(s, i)[j]].list
      modifies this`m, this`s, nodes, tasks
      ensures Matches() && Base(s) && s == Wake(old(s), i, j)
    {
      hide Inv, Base, Represented, Represents, Requeued, Layout, Ring, Wake;
      LayoutUnfolds();
      ghost var t := QueueOf(s, i)[j];
      NodeOf(t);
      HeadNodes();
      WakeKeepsBase(s, i, j);
      WakeFields(s, i, j);
      Halves(Heads(s), t);
      var u := ListEntry(n);
      tasks[u].status := Ready;
      RequeueKeeps(m, s, Wake(s, i, j), i, j, 0);
      ListMoveTail(n, readyQueue, nodes, m);
      m := MoveTail(m, n.id, 0);
      s := Wake(s, i, j);
      LayoutFolds(old(s));
    }

    lemma WakeFields(b: State, i: nat, j: nat)
      requires Base(b) && 1 <= i < Heads(b) && j < |QueueOf(b, i)| && QueueOf(b, i)[j] < |b.status|
      requires Base(Wake(b, i, j))
      ensures var r := Wake(b, i, j);
        && Shape(r) && r.current == b.current && r.status == b.status[QueueOf(b, i)[j] := Ready] && r.wakeup == b.wakeup
        && |r.place| == |b.place| && |r.waiting| == |b.waiting| && r.locked == b.locked && r.keys == b.keys
        && Heads(r) == Heads(b)
    {
      hide Placed, StatusAgrees, RingsOk, LocksOk;
    }

    lemma LayoutUnfolds()
      requires Layout()
      ensures |mutexes| == |s.waiting| && |tasks| == |s.place| && |nodes| == Heads(s) + 2 * |tasks|
      ensures forall t, u :: 0 <= t < u < |tasks| ==> tasks[t] != tasks[u]
      ensures forall j, k :: 0 <= j < k < |mutexes| ==> mutexes[j] != mutexes[k]
    {
    }

    twostate lemma LayoutFolds(before: State)
      requires old(Layout()) && old(s) == before
      requires |s.waiting| == |before.waiting| && |s.place| == |before.place|
      requires tasks == old(tasks) && nodes == old(nodes)
      ensures Layout()
    {
    }

    /** The node of the j-th task of queue i, or the head of the queue behind the last one. */
    ghost function QueueNode(i: nat, j: nat): Node
      requires Matches() && i < Heads(s) && j <= |QueueOf(s, i)| && (j < |QueueOf(s, i)| ==> QueueOf(s, i)[j] < |tasks|)
      reads this, nodes, tasks, mutexes
    {
      if j < |QueueOf(s, i)| then tasks[QueueOf(s, i)[j]].list
      else if i == 0 then readyQueue else if i == 1 then sleepQueue else mutexes[i - 2].queue
    }

    lemma QueueTasks(i: nat)
      requires Matches() && Base(s) && i < Heads(s)
      ensures forall j :: 0 <= j < |QueueOf(s, i)| ==> QueueOf(s, i)[j] < |tasks|
    {
      QueueHolds(s, i);
      forall j | 0 <= j < |QueueOf(s, i)| ensures QueueOf(s, i)[j] < |tasks| {
        assert QueueOf(s, i)[j] in QueueOf(s, i);
      }
    }

    lemma HeadOf(i: nat)
      requires Matches() && i < Heads(s)
      ensures Among(nodes, QueueNode(i, |QueueOf(s, i)|)) && QueueNode(i, |QueueOf(s, i)|).id == i
    {
      HeadNodes();
    }

    /** The links of a queue: the head leads to the first task, every task to the next one. */
    lemma QueueLinks(i: nat, j: nat)
      requires Matches() && Base(s) && i < Heads(s) && j <= |QueueOf(s, i)|
      requires forall k :: 0 <= k < |QueueOf(s, i)| ==> QueueOf(s, i)[k] < |tasks|
      ensures var n := if j == 0 then QueueNode(i, |QueueOf(s, i)|) else QueueNode(i, j - 1);
        Among(nodes, n) && n.next == QueueNode(i, j)
    {
      hide Base, Inv;
      var q, w, h := RingOf(s, Queue(i)), QueueOf(s, i), Heads(s);
      assert Ring(m, q);
      hide Represented;
      HeadOf(i);
      if j > 0 {
        NodeOf(w[j - 1]);
      }
      if j < |w| {
        NodeOf(w[j]);
      }
      assert m.next[q[j]] == q[After(q, j)];
      var n := if j == 0 then QueueNode(i, |w|) else QueueNode(i, j - 1);
      assert n.id == q[j];
      LinksOf(nodes, m, n);
    }

    // ---- waking

    lemma SleeperAt(start: State, clock: seq<nat>, k: nat, j: nat)
      requires Matches() && Base(s) && SleepersExist(start) && k <= |start.sleep| <= |clock|
      requires s == WokenTo(start, clock, k)
      requires j == |Asleep(start.sleep[..k], start.wakeup, clock)|
      ensures |s.sleep| == j + |start.sleep| - k
      ensures forall i :: 0 <= i < |s.sleep| ==> s.sleep[i] < |tasks|
      ensures forall i :: k <= i < |start.sleep| ==> s.sleep[j + i - k] == start.sleep[i] < |tasks|
      ensures k < |start.sleep| ==> tasks[start.sleep[k]].wakeupTime == start.wakeup[start.sleep[k]]
    {
      hide Asleep, Due;
      QueueTasks(1);
      assert s.sleep == QueueOf(s, 1);
    }

    lemma TaskNodes()
      requires Matches()
      ensures forall t :: 0 <= t < |tasks| ==>
        tasks[t].list != sleepQueue && tasks[t].list.id == 2 + |mutexes| + 2 * t && ListEntry(tasks[t].list) == t
    {
      HeadNodes();
      forall t | 0 <= t < |tasks| ensures tasks[t].list != sleepQueue && tasks[t].list.id == 2 + |mutexes| + 2 * t {
        NodeOf(t);
      }
    }

    /** Walks over the sleepers, remembering the next one before it looks at one; `clock` gives the
        time at which each is looked at. */
    method CheckSleepers(clock: seq<nat>)
      requires Matches() && Base(s) && ClockFor(s, clock)
      modifies this`m, this`s, nodes, tasks
      ensures SleepersExist(old(s)) && Matches() && Base(s) && s == CheckSleeping(old(s), clock)
    {
      hide Base, WokenTo, CheckSleeping, Asleep, Matches, SleepersExist;
      ghost var start := s;
      BaseSleepers(s);
      WokenNone(s, clock);
      QueueTasks(1);
      QueueLinks(1, 0);
      TaskNodes();
      ClockLength(s, clock);
      var pos := sleepQueue.next;
      var k: nat := 0;
      while pos != sleepQueue
        invariant 0 <= k <= |start.sleep| && Matches() && Base(s) && s == WokenTo(start, clock, k)
        invariant tasks == old(tasks) && nodes == old(nodes)
        invariant k < |start.sleep| ==> start.sleep[k] < |tasks| && pos == tasks[start.sleep[k]].list
        invariant k == |start.sleep| <==> pos == sleepQueue
        decreases |start.sleep| - k
      {
        ghost var j := |Asleep(start.sleep[..k], start.wakeup, clock)|;
        SleeperAt(start, clock, k, j);
        WokenStep(start, clock, k);
        QueueLinks(1, j + 1);
        TaskNodes();
        var next := pos.next;
        if clock[k] >= tasks[ListEntry(pos)].wakeupTime {
          DoUnblock(pos, 1, j);
        }
        pos := next;
        k := k + 1;
      }
      WokenAll(start, clock);
    }

    lemma BaseSleepers(s: State)
      requires Base(s)
      ensures SleepersExist(s)
    {
      PlacedSleepers(s);
    }

    lemma ClockLength(s: State, clock: seq<nat>)
      requires ClockFor(s, clock)
      ensures |clock| >= |s.sleep|
    {
    }

    // ---- the scheduler

    /** What the scheduler does to the running task before it takes the next one. */
    ghost function Requeue(s: State): State
      requires Shape(s)
    {
      var running := s.status[s.current] == Running;
      s.(ready := if running then s.ready + [s.current] else s.ready,
         status := if running then s.status[s.current := Ready] else s.status,
         place := LeaveCpu(s.place, s.current))
    }

    lemma RequeueSound(s: State)
      requires (Inv(s) || Leaving(s))
      ensures Shape(Requeue(s)) && Placed(Requeue(s)) && RingsOk(Requeue(s))
      ensures s.status[s.current] == Running ==> Enqueued(s, Requeue(s), 0, s.current)
      ensures s.status[s.current] != Running ==>
        forall t :: 0 < t < |s.place| ==> Queued(Requeue(s).place[t]) == Queued(s.place[t])
    {
      var r := Requeue(s);
      if s.status[s.current] == Running {
        HoldsMore(s.place, s.ready, ReadyQueue, s.current);
      } else {
        HoldsSame(s.place, r.place, s.ready, ReadyQueue);
      }
      HoldsSame(s.place, r.place, s.sleep, SleepQueue);
      forall k | 0 <= k < |s.waiting| ensures Holds(r.place, s.waiting[k], LockQueue(k)) {
        HoldsSame(s.place, r.place, s.waiting[k], LockQueue(k));
      }
      hide Holds, NoDup;
      RingsKept(s, r);
    }

    lemma SwitchDequeues(s: State)
      requires (Inv(s) || Leaving(s)) && ReadyExist(s) && s.ready != []
      ensures Shape(Requeue(s)) && Requeue(s).ready[0] == s.ready[0]
      ensures Dequeued(Requeue(s), Switch(s), 0, 0, Cpu)
    {
      RequeueSound(s);
      SwitchKeepsInv(s);
      hide Placed, StatusAgrees, RingsOk, LocksOk;
      QueueRest(s);
      hide Requeue, Switch;
    }

    lemma QueueRest(s: State)
      requires ReadyExist(s) && s.ready != []
      ensures var q, r := Requeue(s), Switch(s);
        && Shape(q) && q.ready != [] && q.ready[0] == s.ready[0] < |q.place| && r.ready == Without(q.ready, 0)
        && r.place == q.place[s.ready[0] := Cpu] && r.sleep == q.sleep && r.waiting == q.waiting && r.rings == q.rings
    {
    }

    lemma DelInitOk(m: Memory, n: nat)
      requires Ok(m) && n < |m.next|
      ensures Ok(DelInit(m, n)) && |DelInit(m, n).next| == |m.next|
    {
    }

    lemma AddTailOk(m: Memory, n: nat, h: nat)
      requires Ok(m) && n < |m.next| && h < |m.next|
      ensures Ok(AddTail(m, n, h)) && |AddTail(m, n, h).next| == |m.next|
    {
    }

    lemma RequeueFields(b: State)
      requires Inv(b) || Leaving(b)
      ensures var r := Requeue(b);
        && Shape(r) && r.current == b.current && r.wakeup == b.wakeup && |r.place| == |b.place| && Heads(r) == Heads(b)
        && r.waiting == b.waiting && r.locked == b.locked && r.keys == b.keys && r.rings == b.rings
          && r.sleep == b.sleep
        && (b.status[b.current] == Running ==> r.status == b.status[b.current := Ready])
        && (b.status[b.current] != Running ==> r.status == b.status && r.ready == b.ready)
    {
    }

    /** Puts the running task at the end of the ready queue. */
    method RequeueCurrent()
      requires Matches() && (Inv(s) || Leaving(s)) && s.status[s.current] == Running
      modifies this`m, this`s, nodes, tasks
      ensures Matches() && Shape(old(s)) && s == Requeue(old(s))
    {
      hide Inv, Leaving, Represented, Represents, Layout, Requeue, Ring, Enqueued, AddTail;
      RequeueFields(s);
      LayoutUnfolds();
      RequeueSound(s);
      NodeOf(current);
      HeadNodes();
      tasks[current].status := Ready;
      AddToReady(tasks[current].list, current, Requeue(s));
      s := Requeue(s);
      LayoutFolds(old(s));
    }

    /** Adds the list node of a task in no queue to the ready queue; r is the state that comes of it. */
    method AddToReady(n: Node, ghost t: nat, ghost r: State)
      requires Ok(m) && |m.next| == |nodes| && Represents(nodes, m) && Represented(m, s) && Enqueued(s, r, 0, t)
      requires Among(nodes, n) && n.id == ListNode(Heads(s), t) && Among(nodes, readyQueue) && readyQueue.id == 0
      modifies this`m, nodes
      ensures Ok(m) && |m.next| == |nodes| && Represents(nodes, m) && Represented(m, r)
    {
      hide Represented, Represents, Ring, Enqueued, AddTail, MoveTail;
      EnqueueKeeps(m, s, r, 0, t);
      AddTailOk(m, n.id, 0);
      ListAddTail(n, readyQueue, nodes, m);
      m := AddTail(m, n.id, 0);
    }

    /** A task that is not running stays where it is. */
    ghost method LeaveCurrent()
      requires Matches() && (Inv(s) || Leaving(s)) && s.status[s.current] != Running
      modifies this`s
      ensures Matches() && Shape(old(s)) && s == Requeue(old(s))
    {
      RequeueFields(s);
      hide Inv, Leaving, Represented, Represents, Layout, Requeue, Ring, Enqueued;
      RequeueSound(s);
      SameRings(m, s, Requeue(s));
      s := Requeue(s);
      LayoutFolds(old(s));
    }

    /** Gives the processor to the first task of the ready queue. */
    method RunFirst(ghost before: State)
      requires Matches() && (Inv(before) || Leaving(before)) && ReadyExist(before) && before.ready != []
      requires s == Requeue(before)
      modifies this`m, this`s, this`current, nodes, tasks
      ensures Matches() && s == Switch(before)
    {
      hide Inv, Leaving, Represented, Represents, Layout, Requeue, Switch, Ring, Dequeued, DelInit;
      SwitchDequeues(before);
      LayoutUnfolds();
      HeadNodes();
      FirstReady(before);
      current := ListEntry(readyQueue.next);
      tasks[current].status := Running;
      DequeueKeeps(m, s, Switch(before), 0, 0, Cpu);
      DelInitOk(m, tasks[current].list.id);
      ListDelInit(tasks[current].list, nodes, m);
      m := DelInit(m, tasks[current].list.id);
      SwitchFields(before);
      s := Switch(before);
      LayoutFolds(old(s));
    }

    lemma SwitchFields(b: State)
      requires (Inv(b) || Leaving(b)) && ReadyExist(b) && b.ready != []
      ensures var q, r := Requeue(b), Switch(b);
        && r.current == b.ready[0] && r.status == q.status[b.ready[0] := Running] && r.wakeup == q.wakeup
        && r.waiting == q.waiting && r.locked == q.locked && r.keys == q.keys && |r.place| == |q.place| && Shape(r)
    {
      SwitchKeepsInv(b);
    }

    /** The first task of the ready queue is found through the head. */
    lemma FirstReady(before: State)
      requires Matches() && (Inv(before) || Leaving(before)) && ReadyExist(before) && before.ready != []
      requires s == Requeue(before)
      ensures Among(nodes, readyQueue.next) && readyQueue.next.id >= 2 + |mutexes| && s.ready != []
      ensures ListEntry(readyQueue.next) == before.ready[0] == s.ready[0] < |tasks|
      ensures Among(nodes, tasks[s.ready[0]].list) && tasks[s.ready[0]].list.id == ListNode(Heads(s), s.ready[0])
    {
      hide Inv, Leaving, Requeue;
      SwitchDequeues(before);
      var q := RingOf(s, Queue(0));
      assert Ring(m, q);
      HeadNodes();
      assert m.next[q[0]] == q[After(q, 0)];
      LinksOf(nodes, m, readyQueue);
      NodeOf(s.ready[0]);
      Halves(Heads(s), s.ready[0]);
    }

    /** Wakes the sleepers that are due and switches to the first ready task, if there is one. */
    method DoScheduler(clock: seq<nat>)
      requires Matches() && (Inv(s) || Leaving(s)) && ClockFor(s, clock)
      modifies this`m, this`s, this`current, nodes, tasks
      ensures Base(old(s)) && Matches() && s == Schedule(old(s), clock)
    {
      hide Inv, Leaving, Base, Represents, Represented, Requeue, Switch, CheckSleeping, Matches, ReadyExist;
      InvOrLeavingBase(s);
      WakingKeepsBase(s, clock);
      CheckSleepers(clock);
      ghost var before := s;
      ReadyFacts();
      var preRunning := current;
      var empty := QueueEmpty(readyQueue, 0);
      if empty {
        NothingReady(s);
        return;
      }
      if tasks[preRunning].status == Running {
        RequeueCurrent();
      } else {
        LeaveCurrent();
      }
      RunFirst(before);
    }

    lemma InvOrLeavingBase(s: State)
      requires Inv(s) || Leaving(s)
      ensures Base(s)
    {
    }

    lemma NothingReady(s: State)
      requires ReadyExist(s) && s.ready == []
      ensures Switch(s) == s
    {
    }

    /** The head of the ready queue is alone exactly when the queue is empty. */
    lemma ReadyFacts()
      requires Matches() && (Inv(s) || Leaving(s))
      ensures ReadyExist(s) && current == s.current < |tasks| && |s.status| == |tasks|
      ensures HeadIs(readyQueue, 0) && (|RingOf(s, Queue(0))| == 1 <==> s.ready == [])
      ensures tasks[current].status == s.status[s.current]
    {
      PlacedReady(s);
      HeadNodes();
      HeadRing(0);
      hide Base, Represented, Inv, Leaving;
    }

    /** What testing the head of a queue needs. */
    ghost predicate HeadIs(head: Node, i: nat)
      reads this, nodes
    {
      && Named(s, Queue(i)) && Ok(m) && |m.next| == |nodes| && Represents(nodes, m) && Among(nodes, head)
      && Ring(m, RingOf(s, Queue(i))) && RingOf(s, Queue(i))[0] == head.id
    }

    method QueueEmpty(head: Node, ghost i: nat) returns (empty: bool)
      requires HeadIs(head, i)
      ensures empty <==> |RingOf(s, Queue(i))| == 1
    {
      empty := ListEmpty(head, nodes, m, RingOf(s, Queue(i)));
    }

    lemma HeadRing(i: nat)
      requires Matches() && i < Heads(s)
      ensures Named(s, Queue(i)) && Ring(m, RingOf(s, Queue(i))) && RingOf(s, Queue(i))[0] == i
      ensures |RingOf(s, Queue(i))| == 1 + |QueueOf(s, i)|
    {
      assert Named(s, Queue(i));
    }

    // ---- blocking

    /** The running task goes to the end of the queue of sleepers or of a lock. */
    ghost function Block(s: State, i: nat): State
      requires Shape(s) && 1 <= i < Heads(s)
    {
      if i == 1 then BlockSleep(s, s.wakeup[s.current]) else BlockWait(s, i - 2)
    }

    lemma BlockEnqueues(s: State, i: nat)
      requires Inv(s) && s.current > 0 && 1 <= i < Heads(s) && (i >= 2 ==> s.locked[i - 2])
      ensures Enqueued(s, Block(s, i), i, s.current) && Leaving(Block(s, i))
    {
      if i == 1 {
        BlockSleepLeaves(s, s.wakeup[s.current]);
      } else {
        BlockWaitLeaves(s, i - 2);
      }
      hide Holds, NoDup, RingsOk;
    }

    lemma BlockFields(b: State, i: nat)
      requires Shape(b) && 1 <= i < Heads(b)
      ensures var r := Block(b, i);
        && Shape(r) && r.current == b.current && r.wakeup == b.wakeup && |r.place| == |b.place| && Heads(r) == Heads(b)
        && |r.waiting| == |b.waiting| && r.locked == b.locked && r.keys == b.keys
        && r.status == b.status[b.current := Blocked]
    {
    }

    method DoBlock(t: nat, queue: Node, ghost i: nat)
      requires Valid() && t == current > 0 && 1 <= i < Heads(s) && (i >= 2 ==> s.locked[i - 2])
      requires Among(nodes, queue) && queue.id == i
      modifies this`m, this`s, nodes, tasks
      ensures Matches() && Shape(old(s)) && s == Block(old(s), i) && Leaving(s)
    {
      hide Inv, Leaving, Represented, Represents, Layout, Block, Enqueued, Ring;
      BlockFields(s, i);
      BlockEnqueues(s, i);
      ghost var r := Block(s, i);
      LayoutUnfolds();
      NodeOf(t);
      tasks[t].status := Blocked;
      Append(tasks[t].list, queue, t, i, r);
      s := r;
      LayoutFolds(old(s));
    }

    /** Moves the list node of a task in no queue to the end of queue i; r is the state that comes of it. */
    method Append(n: Node, head: Node, ghost t: nat, ghost i: nat, ghost r: State)
      requires Ok(m) && |m.next| == |nodes| && Represents(nodes, m) && Represented(m, s) && Enqueued(s, r, i, t)
      requires Among(nodes, n) && n.id == ListNode(Heads(s), t) && Among(nodes, head) && head.id == i
      modifies this`m, nodes
      ensures Ok(m) && |m.next| == |nodes| && Represents(nodes, m) && Represented(m, r)
    {
      hide Represented, Represents, Ring, Enqueued, AddTail, MoveTail;
      EnqueueKeeps(m, s, r, i, t);
      AddTailOk(m, n.id, i);
      ListMoveTail(n, head, nodes, m);
      m := AddTail(m, n.id, i);
    }

    /** The running task sleeps; `now` is the time at which the call is made. */
    method DoSleep(sleepTime: nat, now: nat, clock: seq<nat>)
      requires Valid() && current > 0 && ClockFor(BlockSleep(s, now + sleepTime), clock)
      modifies this`m, this`s, this`current, nodes, tasks
      ensures Runs(old(s)) && Matches() && s == Sleep(old(s), now + sleepTime, clock)
    {
      hide Represented, Represents, Schedule, Leaving;
      ghost var before, until := s, now + sleepTime;
      var t := current;
      HeadNodes();
      DoBlock(t, sleepQueue, 1);
      tasks[t].wakeupTime := now + sleepTime;
      ghost var middle := s;
      s := BlockSleep(before, until);
      SameRings(m, middle, s);
      LayoutFolds(before);
      BlockSleepLeaves(before, until);
      DoScheduler(clock);
    }

    /** The running task exits. */
    method DoExit(clock: seq<nat>)
      requires Valid() && current > 0 && ClockFor(s, clock)
      modifies this`m, this`s, this`current, nodes, tasks
      ensures Runs(old(s)) && Matches() && s == Exit(old(s), clock)
    {
      hide Represented, Represents, Schedule, Leaving;
      ghost var before := s;
      LayoutUnfolds();
      tasks[current].status := Exited;
      s := ExitCurrent(before);
      SameRings(m, before, s);
      LayoutFolds(before);
      ExitLeaves(before);
      DoScheduler(clock);
    }

    // ---- locks

    /** Makes all locks free and without keys, with empty queues, whatever they were before. */
    method InitLocks()
      requires MatchesUpTo(0)
      modifies this`s, nodes, mutexes
      ensures Matches() && s == old(s).(locked := s.locked, keys := s.keys, holders := s.holders)
      ensures |mutexes| == |s.locked| == |s.keys| == |s.holders|
      ensures forall k :: 0 <= k < |mutexes| ==> !s.locked[k] && s.keys[k] == NO_KEY && s.holders[k] == []
    {
      hide Represented, Represents, RepresentsBut, Ring, MatchesUpTo;
      MutexCount(0);
      for i := 0 to |mutexes|
        invariant MatchesUpTo(i) && s == old(s).(locked := s.locked, keys := s.keys, holders := s.holders)
        invariant |mutexes| == |s.locked| == |s.keys| == |s.holders|
        invariant forall k :: 0 <= k < i ==> !s.locked[k] && s.keys[k] == NO_KEY && s.holders[k] == []
      {
        ResetLock(i);
      }
      AllSetUp();
    }

    lemma MutexCount(i: nat)
      requires MatchesUpTo(i)
      ensures |mutexes| == |s.locked| == |s.keys| == |s.holders|
    {
    }

    lemma AllSetUp()
      requires MatchesUpTo(|mutexes|)
      ensures Matches()
    {
      RepresentsAll(nodes, m, 2 + |mutexes|);
      LayoutUnfolds();
      hide RepresentsBut, Represents, Represented, Layout;
    }

    method ResetLock(i: nat)
      requires MatchesUpTo(i) && i < |mutexes|
      modifies this`s, nodes, mutexes
      ensures MatchesUpTo(i + 1) && i < |old(s).locked| == |old(s).keys| == |old(s).holders|
      ensures s == old(s).(locked := old(s).locked[i := false], keys := old(s).keys[i := NO_KEY],
                           holders := old(s).holders[i := []])
    {
      hide Represented, Ring, Layout, RepresentsBut;
      LayoutUnfolds();
      HeadOfLock(i);
      EmptyQueue(i);
      mutexes[i].locked := false;
      mutexes[i].key := NO_KEY;
      LinkHead(mutexes[i].queue, i);
      ghost var before := s;
      s := s.(locked := s.locked[i := false], keys := s.keys[i := NO_KEY], holders := s.holders[i := []]);
      SameRings(m, before, s);
      LayoutFolds(before);
    }

    /** One more head of the locks' queues is linked to itself. */
    method LinkHead(head: Node, ghost i: nat)
      requires Ok(m) && |m.next| == |nodes| >= 2 + |mutexes| && RepresentsBut(nodes, m, 2 + i, 2 + |mutexes|)
      requires i < |mutexes| && head == nodes[2 + i] && head.id == 2 + i
      requires m.next[2 + i] == 2 + i == m.prev[2 + i]
      modifies nodes
      ensures RepresentsBut(nodes, m, 3 + i, 2 + |mutexes|)
    {
      InitListHead(head, nodes, m);
    }

    lemma HeadOfLock(i: nat)
      requires MatchesUpTo(i) && i < |mutexes|
      ensures nodes[2 + i] == mutexes[i].queue && mutexes[i].queue.id == 2 + i
    {
      assert nodes[2 + i].id == 2 + i;
    }

    /** The head of an empty queue is linked to itself. */
    lemma EmptyQueue(k: nat)
      requires Shape(s) && Layout() && Represented(m, s) && k < |mutexes| && s.waiting[k] == []
      ensures 2 + k < |m.next| && m.next[2 + k] == 2 + k == m.prev[2 + k]
    {
      var q := RingOf(s, Queue(2 + k));
      assert q == [2 + k];
      assert Ring(m, q);
      assert m.next[q[0]] == q[After(q, 0)] && m.prev[q[After(q, 0)]] == q[0];
    }

    /** The first lock with the key, or else the first free lock, which gets it. */
    method DoMutexLockInit(key: int) returns (index: int)
      requires Valid()
      modifies this`s, mutexes
      ensures Valid() && Shape(old(s)) && s == InitLock(old(s), key)
      ensures var named, free := LockIndex(old(s).keys, key, 0), LockIndex(old(s).keys, NO_KEY, 0);
        index == if named >= 0 then named else free
      ensures index == -1 || (0 <= index < |mutexes| && s.keys[index] == key)
    {
      hide Represented, Represents, Ring, Base;
      InvOrLeavingBase(s);
      ShapeOf(s);
      LayoutUnfolds();
      InitLockKeepsInv(s, key);
      for i := 0 to |mutexes|
        invariant LockIndex(s.keys, key, 0) == LockIndex(s.keys, key, i)
      {
        if mutexes[i].key == key {
          return i;
        }
      }
      for i := 0 to |mutexes|
        invariant LockIndex(s.keys, NO_KEY, 0) == LockIndex(s.keys, NO_KEY, i)
      {
        if mutexes[i].key == NO_KEY {
          mutexes[i].key := key;
          ghost var before := s;
          s := InitLock(before, key);
          SameRings(m, before, s);
          LayoutFolds(before);
          return i;
        }
      }
      return -1;
    }

    lemma ShapeOf(s: State)
      requires Base(s)
      ensures Shape(s) && RingsOk(s)
    {
    }

    /** Takes a free lock, or waits for it. */
    method DoMutexLockAcquire(k: nat, clock: seq<nat>)
      requires Valid() && current > 0 && k < |mutexes| && ClockFor(s, clock)
      modifies this`m, this`s, this`current, nodes, tasks, mutexes
      ensures Runs(old(s)) && Matches() && k < |old(s).keys| && s == Acquire(old(s), k, clock)
    {
      hide Represented, Represents, Schedule, Leaving, Base, Ring;
      InvOrLeavingBase(s);
      ShapeOf(s);
      LayoutUnfolds();
      ghost var before := s;
      if mutexes[k].key == NO_KEY {
        return;
      }
      var wasLocked := mutexes[k].locked;
      mutexes[k].locked := true;
      if !wasLocked {
        s := Acquire(before, k, clock);
        SameRings(m, before, s);
        LayoutFolds(before);
        return;
      }
      HeadNodes();
      DoBlock(current, mutexes[k].queue, 2 + k);
      DoScheduler(clock);
    }

    /** Gives the lock to the first waiting task, or makes it free. */
    method DoMutexLockRelease(k: nat)
      requires Valid() && k < |mutexes|
      modifies this`m, this`s, nodes, tasks, mutexes
      ensures Valid() && Shape(old(s)) && k < |old(s).keys| && s == Release(old(s), k)
    {
      hide Represented, Represents, Base, Ring, Layout, HeadIs, RingOf, Inv;
      LockFacts(k);
      if mutexes[k].key == NO_KEY {
        return;
      }
      WaiterFacts(k);
      var empty := QueueEmpty(mutexes[k].queue, 2 + k);
      if empty {
        Free(k);
      } else {
        WakeWaiter(k);
      }
    }

    /** Nobody waits for the lock. */
    method Free(k: nat)
      requires Matches() && k < |mutexes| && s.keys[k] != NO_KEY && s.waiting[k] == [] && Shape(Release(s, k))
      modifies this`s, mutexes
      ensures Matches() && Shape(old(s)) && k < |old(s).keys| && s == Release(old(s), k)
    {
      hide Represented, Represents, Ring;
      LayoutUnfolds();
      ghost var before := s;
      mutexes[k].locked := false;
      s := Release(before, k);
      SameRings(m, before, s);
      LayoutFolds(before);
    }

    /** The first waiting task becomes ready and has the lock. */
    method WakeWaiter(k: nat)
      requires Matches() && Base(s) && Inv(s) && k < |mutexes| && s.keys[k] != NO_KEY && s.waiting[k] != []
      requires s.waiting[k][0] < |tasks| && mutexes[k].queue.next == tasks[s.waiting[k][0]].list
      modifies this`m, this`s, nodes, tasks
      ensures Matches() && Shape(old(s)) && k < |old(s).keys| && s == Release(old(s), k)
    {
      hide Represented, Represents, Ring, Wake, Base, Inv, Release;
      ghost var before := s;
      ReleaseWakes(before, k);
      DoUnblock(mutexes[k].queue.next, 2 + k, 0);
      ghost var middle := s;
      s := Release(before, k);
      SameRings(m, middle, s);
      LayoutFolds(before);
    }

    lemma LockFacts(k: nat)
      requires Valid() && k < |mutexes|
      ensures Base(s) && Shape(s) && k < |s.keys| && Shape(Release(s, k)) && Inv(Release(s, k))
      ensures mutexes[k].key == s.keys[k]
    {
      ReleaseKeepsInv(s, k);
    }

    /** The head of a lock's queue points to its first waiter, or to itself. */
    lemma WaiterFacts(k: nat)
      requires Matches() && Base(s) && k < |mutexes|
      ensures HeadIs(mutexes[k].queue, 2 + k) && (|RingOf(s, Queue(2 + k))| == 1 <==> s.waiting[k] == [])
      ensures s.waiting[k] != [] ==>
        s.waiting[k][0] < |tasks| && mutexes[k].queue.next == tasks[s.waiting[k][0]].list
    {
      QueueTasks(2 + k);
      QueueLinks(2 + k, 0);
      HeadNodes();
      HeadRing(2 + k);
      assert QueueOf(s, 2 + k) == s.waiting[k];
      hide Base, Represented;
      if s.waiting[k] != [] {
        NodeOf(s.waiting[k][0]);
      }
    }

    lemma ReleaseWakes(b: State, k: nat)
      requires Inv(b) && k < |b.keys| && b.keys[k] != NO_KEY && b.waiting[k] != []
      ensures b.waiting[k][0] < |b.status|
      ensures Release(b, k) == Wake(b, 2 + k, 0).(holders := b.holders[k := [b.waiting[k][0]]])
    {
      QueueHolds(b, 2 + k);
      assert b.waiting[k][0] in b.waiting[k];
      assert Without(b.waiting[k], 0) == b.waiting[k][1..];
    }

    // ---- threads

    /** Two new nodes, each linked to itself. */
    method NewNodes() returns (a: Node, b: Node)
      requires Ok(m) && |m.next| == |nodes| == 2 + |mutexes| + 2 * |tasks| && Represents(nodes, m)
      modifies this`m, this`nodes
      ensures fresh(a) && fresh(b) && nodes == old(nodes) + [a, b] && m == Grown(old(m)) && Ok(m)
      ensures Represents(nodes, m) && a.id == |old(nodes)| && b.id == |old(nodes)| + 1 && Among(nodes, a)
      ensures Among(nodes, b)
    {
      a := new Node(2 + |mutexes| + 2 * |tasks|);
      b := new Node(2 + |mutexes| + 2 * |tasks| + 1);
      a.next, a.prev, b.next, b.prev := a, a, b, b;
      nodes := nodes + [a, b];
      m := Grown(m);
    }

    /** A new thread, parked behind the running one in its group. */
    method DoThreadCreate()
      requires Valid() && current > 0
      modifies this`m, this`s, this`nodes, this`tasks, nodes
      ensures Valid() && Runs(old(s)) && s == Create(old(s)) && tasks[..|tasks| - 1] == old(tasks)
    {
      hide Represented, Represents, Ring, Base, Create, Grown, Add;
      ghost var before := s;
      InvOrLeavingBase(s);
      ShapeOf(s);
      CreateKeepsInv(before);
      CreateFields(before);
      LayoutUnfolds();
      NodeOf(current);
      ghost var were := nodes;
      var thread := NewThread(before);
      LaidOutMore(were, tasks, mutexes, readyQueue, sleepQueue, before, nodes, thread, Create(before));
      tasks := tasks + [thread];
      s := Create(before);
    }

    /** A task control block whose group node is behind that of the running thread. */
    method NewThread(ghost before: State) returns (thread: Task)
      requires Matches() && Runs(s) && before == s && current < |tasks|
      requires Among(nodes, tasks[current].group) && tasks[current].group.id == GroupNode(Heads(s), current)
      requires |nodes| == 2 + |mutexes| + 2 * |tasks|
      modifies this`m, this`nodes, nodes
      ensures thread !in tasks && thread.status == Ready && thread.wakeupTime == 0
      ensures |nodes| == |old(nodes)| + 2 && nodes[..|old(nodes)|] == old(nodes)
      ensures nodes[|old(nodes)|] == thread.list && nodes[|old(nodes)| + 1] == thread.group
      ensures Ok(m) && |m.next| == |nodes| && Represents(nodes, m) && Represented(m, Create(before))
    {
      hide Represented, Represents, Ring, Inv, Create, Grown, Add, Layout;
      CreateKeeps(m, before);
      ghost var were := nodes;
      var listNode, groupNode := NewNodes();
      thread := new Task(listNode, groupNode);
      GrownAmong(were, tasks[current].group);
      AddOk(m, groupNode.id, tasks[current].group.id);
      ListAdd(groupNode, tasks[current].group, nodes, m);
      m := Add(m, groupNode.id, tasks[current].group.id);
    }

    lemma AddOk(m: Memory, n: nat, h: nat)
      requires Ok(m) && n < |m.next| && h < |m.next|
      ensures Ok(Add(m, n, h)) && |Add(m, n, h).next| == |m.next|
    {
    }

    lemma GrownAmong(before: seq<Node>, n: Node)
      requires Among(before, n) && |before| <= |nodes| && nodes[..|before|] == before
      ensures Among(nodes, n)
    {
      assert nodes[n.id] == nodes[..|before|][n.id];
    }

    lemma CreateFields(b: State)
      requires Runs(b)
      ensures var r := Create(b);
        && Shape(r) && r.current == b.current && r.status == b.status + [Ready] && r.wakeup == b.wakeup + [0]
        && |r.place| == |b.place| + 1 && |r.waiting| == |b.waiting| && r.locked == b.locked && r.keys == b.keys
    {
      CreateKeepsInv(b);
      hide Base, Position;
    }

    /** The next thread of the group runs; its list node is made a list of its own. */
    method DoThreadYield()
      requires Valid() && current > 0
      modifies this`s, this`current, nodes, tasks
      ensures Valid() && Runs(old(s)) && s == YieldThread(old(s)) && m == old(m)
    {
      hide Represented, Represents, Ring, Base, Inv, Layout, YieldThread, Successor, Position;
      ghost var before := s;
      InvOrLeavingBase(s);
      ShapeOf(s);
      SuccessorIsParked(before);
      YieldKeepsInv(before);
      YieldFields(before);
      NextThreadNode();
      SwitchThread(ListEntry(tasks[current].group.next));
      NodeOf(current);
      InitAlone(m, s, current);
      InitListHead(tasks[current].list, nodes, m);
    }

    /** The running thread gives the processor to the next one of its group. */
    method SwitchThread(next: nat)
      requires Matches() && Runs(s) && Shape(s) && RingsOk(s) && next == Successor(s) < |tasks|
      modifies this`s, this`current, tasks
      ensures Matches() && Runs(old(s)) && s == YieldThread(old(s))
    {
      hide Represented, Represents, Ring, Base, Inv, Layout, YieldThread, Successor, Position;
      ghost var before := s;
      YieldFields(before);
      LayoutUnfolds();
      var preRunning := current;
      current := next;
      tasks[preRunning].status := Ready;
      tasks[current].status := Running;
      s := YieldThread(before);
      SameRings(m, before, s);
      LayoutFolds(before);
    }

    /** The group node of the running thread leads to that of the next one. */
    lemma NextThreadNode()
      requires Matches() && Inv(s) && current > 0
      ensures current < |tasks| && Among(nodes, tasks[current].group.next)
      ensures tasks[current].group.next.id >= 2 + |mutexes|
      ensures ListEntry(tasks[current].group.next) == Successor(s) < |tasks|
    {
      var g, i := CurrentInRing(s);
      var q := RingOf(s, Group(g));
      assert Ring(m, q);
      assert m.next[q[i]] == q[After(q, i)];
      NodeOf(current);
      LinksOf(nodes, m, tasks[current].group);
      Halves(Heads(s), Successor(s));
      assert q[After(q, i)] == GroupNode(Heads(s), Successor(s));
    }

    lemma YieldFields(b: State)
      requires Runs(b)
      ensures var r, t := YieldThread(b), Successor(b);
        && Shape(r) && r.current == t && r.status == b.status[b.current := Ready][t := Running] && r.wakeup == b.wakeup
        && |r.place| == |b.place| && r.waiting == b.waiting && r.locked == b.locked && r.keys == b.keys
        && r.rings == b.rings && r.ready == b.ready && r.sleep == b.sleep && r.place[t] == Cpu
        && (forall u :: 0 < u < |b.place| ==> Queued(r.place[u]) == Queued(b.place[u]))
    {
      SuccessorIsParked(b);
      hide Successor;
    }
  }
}
