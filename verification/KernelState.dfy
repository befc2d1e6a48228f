/** The kernel's scheduling state and the steps of its system calls.  Interrupts are off in the kernel,
    so a call is one step up to the switch to another task. */
module KernelState {

  datatype Status = Blocked | Running | Ready | Exited

  /** Where a task is; the code does not store it.  Parked threads are in no queue. */
  datatype Place = Cpu | ReadyQueue | SleepQueue | LockQueue(k: nat) | Parked | Gone

  /** Task 0 is the boot task.  `ready`, `sleep` and `waiting[k]` are the queues of the scheduler, of
      the sleepers and of lock k; `rings` are the thread groups, and ring[t] is that of task t.
      `holders` records who has been given each lock that is taken. */
  datatype State = State(
    current: nat,
    status: seq<Status>,
    wakeup: seq<nat>,
    ready: seq<nat>,
    sleep: seq<nat>,
    waiting: seq<seq<nat>>,
    locked: seq<bool>,
    keys: seq<int>,
    rings: seq<seq<nat>>,
    ring: seq<nat>,
    place: seq<Place>,
    holders: seq<seq<nat>>)

  const NO_KEY: int := -1

  // ---- invariants

  ghost predicate NoDup(q: seq<nat>) {
    forall i, j :: 0 <= i < j < |q| ==> q[i] != q[j]
  }

  /** The queue holds exactly the tasks whose place it is, each once. */
  ghost predicate Holds(place: seq<Place>, q: seq<nat>, p: Place) {
    && NoDup(q)
    && (forall t :: t in q ==> t < |place| && place[t] == p)
    && forall t :: 0 <= t < |place| && place[t] == p ==> t in q
  }

  ghost predicate Shape(s: State) {
    && |s.status| == |s.wakeup| == |s.place| == |s.ring| > s.current
    && |s.waiting| == |s.locked| == |s.keys| == |s.holders|
  }

  /** Every task is where its place says, in one queue at most. */
  ghost predicate Placed(s: State)
    requires Shape(s)
  {
    && Holds(s.place, s.ready, ReadyQueue) && Holds(s.place, s.sleep, SleepQueue)
    && (forall k :: 0 <= k < |s.waiting| ==> Holds(s.place, s.waiting[k], LockQueue(k)))
    && (forall t :: 0 <= t < |s.place| && s.place[t].LockQueue? ==> s.place[t].k < |s.waiting|)
    && (forall t :: 0 <= t < |s.place| && s.place[t] == Cpu ==> t == s.current)
    && (s.place[0] == Cpu || s.place[0] == Gone)
  }

  function StatusAt(p: Place): Status {
    match p
    case Cpu => Running
    case ReadyQueue => Ready
    case SleepQueue => Blocked
    case LockQueue(_) => Blocked
    case Parked => Ready
    case Gone => Exited
  }

  /** The status of a task says where it is.  The boot task counts as blocked all the time. */
  ghost predicate StatusAgrees(s: State)
    requires Shape(s)
  {
    s.status[0] == Blocked && forall t :: 0 < t < |s.status| ==> s.status[t] == StatusAt(s.place[t])
  }

  /** Running or queued, and so going to run again. */
  predicate Active(p: Place) {
    p != Parked && p != Gone
  }

  /** The ring holds exactly the tasks that are said to be in it. */
  ghost predicate Members(q: seq<nat>, ring: seq<nat>, g: nat) {
    forall t: nat :: t in q <==> 0 < t < |ring| && ring[t] == g
  }

  /** Every task but the boot task is in one ring, and of each ring one task at most runs or is queued;
      as long as one does, no member has exited. */
  ghost predicate RingsOk(s: State)
    requires Shape(s)
  {
    && (forall t :: 0 < t < |s.ring| ==> s.ring[t] < |s.rings|)
    && (forall g :: 0 <= g < |s.rings| ==> NoDup(s.rings[g]))
    && (forall g :: 0 <= g < |s.rings| ==> Members(s.rings[g], s.ring, g))
    && forall a, b :: 0 < a < |s.ring| && 0 < b < |s.ring| && a != b && s.ring[a] == s.ring[b] && Active(s.place[a]) ==>
         s.place[b] == Parked
  }

  /** A lock is locked while one task holds it, and only then do tasks wait for it. */
  ghost predicate LocksOk(s: State)
    requires Shape(s)
  {
    && (forall k :: 0 <= k < |s.locked| ==> |s.holders[k]| == if s.locked[k] then 1 else 0)
    && (forall k :: 0 <= k < |s.locked| && s.waiting[k] != [] ==> s.locked[k])
    && (forall k :: 0 <= k < |s.locked| && s.keys[k] == NO_KEY ==> !s.locked[k])
    && forall j, k :: 0 <= j < k < |s.keys| && s.keys[j] == s.keys[k] ==> s.keys[j] == NO_KEY
  }

  ghost predicate Base(s: State) {
    Shape(s) && Placed(s) && StatusAgrees(s) && RingsOk(s) && LocksOk(s)
  }

  /** Between system calls: the running task is at the processor and in no queue. */
  ghost predicate Inv(s: State) {
    Base(s) && s.place[s.current] == Cpu
  }

  /** On the way into the scheduler: the running task has queued itself or has exited. */
  ghost predicate Leaving(s: State) {
    Base(s) && s.current > 0 && s.place[s.current] != Cpu && s.place[s.current] != Parked
  }

  /** Every live task runs again: its ring has an active member. */
  ghost predicate NoneLost(s: State)
    requires Shape(s)
  {
    forall t :: 0 < t < |s.place| && s.place[t] == Parked ==>
      exists a :: 0 < a < |s.place| && s.ring[a] == s.ring[t] && Active(s.place[a])
  }

  // ---- waking up

  /** The sleepers whose time has come, given the time at which each is looked at. */
  function Due(sleep: seq<nat>, wakeup: seq<nat>, clock: seq<nat>): (r: seq<nat>)
    requires |clock| >= |sleep| && forall i :: 0 <= i < |sleep| ==> sleep[i] < |wakeup|
  {
    if sleep == [] then []
    else (if clock[0] >= wakeup[sleep[0]] then [sleep[0]] else []) + Due(sleep[1..], wakeup, clock[1..])
  }

  /** The others. */
  function Asleep(sleep: seq<nat>, wakeup: seq<nat>, clock: seq<nat>): (r: seq<nat>)
    requires |clock| >= |sleep| && forall i :: 0 <= i < |sleep| ==> sleep[i] < |wakeup|
  {
    if sleep == [] then []
    else (if clock[0] >= wakeup[sleep[0]] then [] else [sleep[0]]) + Asleep(sleep[1..], wakeup, clock[1..])
  }

  lemma NoDupAppend(a: seq<nat>, b: seq<nat>)
    requires NoDup(a) && NoDup(b) && forall t :: t in a ==> t !in b
    ensures NoDup(a + b)
  {
    forall i, j | 0 <= i < j < |a + b| ensures (a + b)[i] != (a + b)[j] {
      if i < |a| <= j {
        assert a[i] in a && b[j - |a|] in b;
      }
    }
  }

  lemma NoDupRest(a: seq<nat>)
    requires NoDup(a) && a != []
    ensures NoDup(a[1..]) && a[0] !in a[1..] && a == [a[0]] + a[1..]
  {
  }

  /** Both keep the order, and every sleeper is in one of them. */
  lemma {:induction false} DueSplits(sleep: seq<nat>, wakeup: seq<nat>, clock: seq<nat>)
    requires |clock| >= |sleep| && (forall i :: 0 <= i < |sleep| ==> sleep[i] < |wakeup|) && NoDup(sleep)
    ensures NoDup(Due(sleep, wakeup, clock)) && NoDup(Asleep(sleep, wakeup, clock))
    ensures forall t :: t in Due(sleep, wakeup, clock) ==> t in sleep && t !in Asleep(sleep, wakeup, clock)
    ensures forall t :: t in sleep ==> t in Due(sleep, wakeup, clock) || t in Asleep(sleep, wakeup, clock)
    ensures forall t :: t in Asleep(sleep, wakeup, clock) ==> t in sleep
    decreases |sleep|
  {
    if sleep != [] {
      NoDupRest(sleep);
      DueSplits(sleep[1..], wakeup, clock[1..]);
      NoDupAppend([sleep[0]], Due(sleep[1..], wakeup, clock[1..]));
      NoDupAppend([sleep[0]], Asleep(sleep[1..], wakeup, clock[1..]));
    }
  }

  /** Times at which the sleepers are looked at: one for each, not going back. */
  ghost predicate ClockFor(s: State, clock: seq<nat>) {
    |clock| >= |s.sleep| && forall i, j :: 0 <= i <= j < |clock| ==> clock[i] <= clock[j]
  }

  ghost function SetAll<T>(v: seq<T>, ids: seq<nat>, x: T): (r: seq<T>)
    ensures |r| == |v| && forall t :: 0 <= t < |v| ==> r[t] == if t in ids then x else v[t]
  {
    seq(|v|, t requires 0 <= t < |v| => if t in ids then x else v[t])
  }

  ghost predicate SleepersExist(s: State) {
    Shape(s) && forall i :: 0 <= i < |s.sleep| ==> s.sleep[i] < |s.wakeup|
  }

  ghost function CheckSleeping(s: State, clock: seq<nat>): State
    requires SleepersExist(s) && ClockFor(s, clock)
  {
    var due := Due(s.sleep, s.wakeup, clock);
    s.(ready := s.ready + due, sleep := Asleep(s.sleep, s.wakeup, clock),
       status := SetAll(s.status, due, Ready), place := SetAll(s.place, due, ReadyQueue))
  }

  lemma PlacedSleepers(s: State)
    requires Shape(s) && Placed(s)
    ensures SleepersExist(s)
  {
    forall i | 0 <= i < |s.sleep| ensures s.sleep[i] < |s.wakeup| {
      assert s.sleep[i] in s.sleep;
    }
  }

  lemma HoldsSame(place: seq<Place>, place': seq<Place>, q: seq<nat>, p: Place)
    requires Holds(place, q, p) && |place'| == |place|
    requires forall t :: 0 <= t < |place| ==> (place[t] == p <==> place'[t] == p)
    ensures Holds(place', q, p)
  {
  }

  lemma WakingPlaced(s: State, clock: seq<nat>)
    requires Base(s) && SleepersExist(s) && ClockFor(s, clock)
    ensures Shape(CheckSleeping(s, clock)) && Placed(CheckSleeping(s, clock))
  {
    var r := CheckSleeping(s, clock);
    var due := Due(s.sleep, s.wakeup, clock);
    DueSplits(s.sleep, s.wakeup, clock);
    hide Due, Asleep;
    assert forall t :: t in due ==> s.place[t] == SleepQueue && t !in s.ready;
    NoDupAppend(s.ready, due);
    forall k | 0 <= k < |s.waiting| ensures Holds(r.place, s.waiting[k], LockQueue(k)) {
      HoldsSame(s.place, r.place, s.waiting[k], LockQueue(k));
    }
  }

  /** Waking up leaves everyone in order. */
  lemma WakingKeepsBase(s: State, clock: seq<nat>)
    requires Base(s) && ClockFor(s, clock)
    ensures SleepersExist(s) && Base(CheckSleeping(s, clock))
    ensures Inv(s) ==> Inv(CheckSleeping(s, clock))
    ensures Leaving(s) ==> Leaving(CheckSleeping(s, clock))
  {
    PlacedSleepers(s);
    DueSplits(s.sleep, s.wakeup, clock);
    WakingPlaced(s, clock);
    hide Due, Asleep, Holds;
    WakingRings(s, clock);
    hide RingsOk;
    WakingStatus(s, clock);
  }

  lemma WakingStatus(s: State, clock: seq<nat>)
    requires Base(s) && SleepersExist(s) && ClockFor(s, clock)
    ensures StatusAgrees(CheckSleeping(s, clock))
    ensures forall t :: t in Due(s.sleep, s.wakeup, clock) ==> t < |s.place| && s.place[t] == SleepQueue
  {
    DueSplits(s.sleep, s.wakeup, clock);
    hide Due, Asleep;
  }

  lemma WakingRings(s: State, clock: seq<nat>)
    requires Base(s) && SleepersExist(s) && ClockFor(s, clock)
    ensures RingsOk(CheckSleeping(s, clock))
  {
    DueSplits(s.sleep, s.wakeup, clock);
    var r := CheckSleeping(s, clock);
    hide Due, Asleep;
    forall t | 0 <= t < |s.place| && Active(r.place[t]) ensures Active(s.place[t]) {
    }
    RingsKept(s, r);
  }

  // ---- scheduling

  ghost predicate ReadyExist(s: State) {
    Shape(s) && forall i :: 0 <= i < |s.ready| ==> s.ready[i] < |s.status|
  }

  /** Gives the processor to the first ready task; the running one goes to the end of the queue. */
  ghost function Switch(s: State): State
    requires ReadyExist(s)
  {
    if s.ready == [] then s
    else
      var running, next := s.status[s.current] == Running, s.ready[0];
      s.(current := next,
         ready := s.ready[1..] + if running then [s.current] else [],
         status := (if running then s.status[s.current := Ready] else s.status)[next := Running],
         place := LeaveCpu(s.place, s.current)[next := Cpu])
  }

  /** What becomes of the task at the processor: the boot task never comes back. */
  ghost function LeaveCpu(place: seq<Place>, t: nat): (r: seq<Place>)
    requires t < |place|
    ensures |r| == |place|
  {
    if place[t] == Cpu then place[t := if t == 0 then Gone else ReadyQueue] else place
  }

  lemma SwitchPlaced(s: State)
    requires (Inv(s) || Leaving(s)) && ReadyExist(s) && s.ready != []
    ensures Shape(Switch(s)) && Placed(Switch(s)) && s.ready[0] > 0 && Switch(s).place[s.ready[0]] == Cpu
  {
    var r, next, running := Switch(s), s.ready[0], s.status[s.current] == Running;
    NoDupRest(s.ready);
    assert next in s.ready;
    if running {
      NoDupAppend(s.ready[1..], [s.current]);
    }
    HoldsSame(s.place, r.place, s.sleep, SleepQueue);
    forall k | 0 <= k < |s.waiting| ensures Holds(r.place, s.waiting[k], LockQueue(k)) {
      HoldsSame(s.place, r.place, s.waiting[k], LockQueue(k));
    }
  }

  /** A scheduler that finds a ready task leaves an ordinary state. */
  lemma SwitchKeepsInv(s: State)
    requires (Inv(s) || Leaving(s)) && ReadyExist(s) && s.ready != []
    ensures Inv(Switch(s)) && Switch(s).current == s.ready[0]
  {
    SwitchPlaced(s);
    assert s.ready[0] in s.ready;
    hide Holds, NoDup;
    SwitchRings(s);
    hide RingsOk;
  }

  lemma SwitchRings(s: State)
    requires (Inv(s) || Leaving(s)) && ReadyExist(s) && s.ready != [] && s.place[s.ready[0]] == ReadyQueue
    ensures Shape(Switch(s)) && RingsOk(Switch(s))
  {
    hide Holds, NoDup;
    var r := Switch(s);
    forall t | 0 <= t < |s.place| && Active(r.place[t]) ensures Active(s.place[t]) {
    }
    RingsKept(s, r);
  }

  /** The same rings with no more active members. */
  lemma RingsKept(s: State, r: State)
    requires Shape(s) && Shape(r) && RingsOk(s) && r.rings == s.rings && r.ring == s.ring
    requires forall t :: 0 <= t < |s.place| && Active(r.place[t]) ==> Active(s.place[t])
    requires forall t :: 0 <= t < |s.place| && s.place[t] == Parked ==> r.place[t] == Parked
    ensures RingsOk(r)
  {
    forall a, b | 0 < a < |r.ring| && 0 < b < |r.ring| && a != b && r.ring[a] == r.ring[b] && Active(r.place[a])
      ensures r.place[b] == Parked
    {
      assert s.place[b] == Parked;
    }
  }

  lemma PlacedReady(s: State)
    requires Shape(s) && Placed(s)
    ensures ReadyExist(s)
  {
    forall i | 0 <= i < |s.ready| ensures s.ready[i] < |s.status| {
      assert s.ready[i] in s.ready;
    }
  }

  ghost function Schedule(s: State, clock: seq<nat>): State
    requires Base(s) && ClockFor(s, clock)
  {
    WakingKeepsBase(s, clock);
    PlacedReady(CheckSleeping(s, clock));
    Switch(CheckSleeping(s, clock))
  }

  /** The scheduler keeps the invariant exactly when the running task stays or another one is ready:
      with no ready task it returns to a task that is blocked or has exited. */
  lemma SchedulerKeepsInvIff(s: State, clock: seq<nat>)
    requires (Inv(s) || Leaving(s)) && ClockFor(s, clock)
    ensures SleepersExist(s)
    ensures Inv(Schedule(s, clock)) <==> Inv(s) || CheckSleeping(s, clock).ready != []
  {
    WakingKeepsBase(s, clock);
    var r := CheckSleeping(s, clock);
    PlacedReady(r);
    hide Base, CheckSleeping;
    if r.ready != [] {
      SwitchKeepsInv(r);
    }
  }
}
