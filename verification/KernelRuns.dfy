/** Runs of the kernel: any sequence of system calls and timer interrupts. */
module KernelRuns {
  import opened KernelState
  import opened KernelSteps

  datatype Event =
    | Tick(clock: seq<nat>)
    | SleepFor(until: nat, clock: seq<nat>)
    | Lock(k: nat, clock: seq<nat>)
    | Unlock(k: nat)
    | InitKey(key: int)
    | Quit(clock: seq<nat>)
    | NewThread
    | NextThread

  /** Whether the call has to wait for a lock. */
  ghost predicate Waits(s: State, k: nat)
    requires Shape(s) && k < |s.keys|
  {
    s.keys[k] != NO_KEY && s.locked[k]
  }

  /** When a call is in order.  Blocking and exiting need another task to be ready once the sleepers are
      woken; the boot task makes no calls.  Any task may release any lock. */
  ghost predicate Enabled(s: State, e: Event) {
    Inv(s) && (!e.Tick? ==> s.current > 0) &&
    match e
    case Tick(clock) => ClockFor(s, clock)
    case SleepFor(until, clock) =>
      ClockFor(BlockSleep(s, until), clock) && SomeReady(BlockSleep(s, until), clock)
    case Lock(k, clock) => k < |s.keys| && ClockFor(s, clock) && (Waits(s, k) ==> SomeReady(BlockWait(s, k), clock))
    case Unlock(k) => k < |s.keys|
    case InitKey(_) => true
    case Quit(clock) => ClockFor(s, clock) && SomeReady(ExitCurrent(s), clock)
    case NewThread => true
    case NextThread => true
  }

  ghost predicate SomeReady(s: State, clock: seq<nat>) {
    SleepersExist(s) && ClockFor(s, clock) && CheckSleeping(s, clock).ready != []
  }

  ghost function Step(s: State, e: Event): State
    requires Enabled(s, e)
  {
    match e
    case Tick(clock) => Schedule(s, clock)
    case SleepFor(until, clock) => Sleep(s, until, clock)
    case Lock(k, clock) => Acquire(s, k, clock)
    case Unlock(k) => Release(s, k)
    case InitKey(key) => InitLock(s, key)
    case Quit(clock) => Exit(s, clock)
    case NewThread => Create(s)
    case NextThread => YieldThread(s)
  }

  /** Every step leaves the tasks where their status says, in one queue each, the locks with one holder
      each, and one active thread in each ring. */
  lemma StepKeepsInv(s: State, e: Event)
    requires Enabled(s, e)
    ensures Inv(Step(s, e))
  {
    hide Inv, Leaving, CheckSleeping, Schedule;
    match e {
      case Tick(clock) => SchedulerKeepsInvIff(s, clock);
      case SleepFor(until, clock) => SleepKeepsInvIff(s, until, clock);
      case Lock(k, clock) => AcquireKeepsInvIff(s, k, clock);
      case Unlock(k) => ReleaseKeepsInv(s, k);
      case InitKey(key) => InitLockKeepsInv(s, key);
      case Quit(clock) => ExitKeepsInvIff(s, clock);
      case NewThread => CreateKeepsInv(s);
      case NextThread => YieldKeepsInv(s);
    }
  }

  // ---- runs

  ghost predicate Possible(s: State, es: seq<Event>)
    decreases |es|
  {
    es == [] || (Enabled(s, es[0]) && Possible(Step(s, es[0]), es[1..]))
  }

  ghost function Run(s: State, es: seq<Event>): State
    requires Possible(s, es)
    decreases |es|
  {
    if es == [] then s else Run(Step(s, es[0]), es[1..])
  }

  /** The boot state: the boot task runs, the given tasks are ready, each in a ring of its own. */
  ghost predicate Boot(s: State) {
    && Shape(s) && s.current == 0 && s.ready == seq(|s.status| - 1, i => i + 1) && s.sleep == []
    && s.status[0] == Blocked && s.place[0] == Cpu
    && (forall t :: 0 < t < |s.status| ==> s.status[t] == Ready && s.place[t] == ReadyQueue && s.ring[t] == t - 1)
    && |s.rings| == |s.status| - 1 && (forall g :: 0 <= g < |s.rings| ==> s.rings[g] == [g + 1])
    && forall k :: 0 <= k < |s.keys| ==> s.waiting[k] == [] && !s.locked[k] && s.keys[k] == NO_KEY && s.holders[k] == []
  }

  lemma BootIsInv(s: State)
    requires Boot(s)
    ensures Inv(s) && NoneLost(s)
  {
    assert NoDup(s.ready);
    forall t | 0 <= t < |s.place| && s.place[t] == ReadyQueue ensures t in s.ready {
      assert s.ready[t - 1] == t;
    }
    forall g | 0 <= g < |s.rings| ensures Members(s.rings[g], s.ring, g) && NoDup(s.rings[g]) {
    }
  }

  /** Every reachable state is in order. */
  lemma {:induction false} RunKeepsInv(s: State, es: seq<Event>)
    requires Inv(s) && Possible(s, es)
    ensures Inv(Run(s, es))
    decreases |es|
  {
    hide Inv, Step, Enabled;
    if es != [] {
      StepKeepsInv(s, es[0]);
      RunKeepsInv(Step(s, es[0]), es[1..]);
    }
  }

  // ---- first in, first out

  /** Whether the scheduler is called. */
  ghost predicate Calls(s: State, e: Event)
    requires Enabled(s, e)
  {
    match e
    case Tick(_) => true
    case SleepFor(_, _) => true
    case Quit(_) => true
    case Lock(k, _) => Waits(s, k)
    case _ => false
  }

  /** The place of x among the ready tasks goes down by one with every call of the scheduler. */
  ghost predicate Queues(s: State, i: int, x: nat) {
    if i < 0 then s.current == x else i < |s.ready| && s.ready[i] == x
  }

  lemma ScheduleAdvances(s: State, clock: seq<nat>, i: nat, x: nat)
    requires Base(s) && ClockFor(s, clock) && Queues(s, i, x)
    ensures Queues(Schedule(s, clock), i - 1, x)
  {
    PlacedSleepers(s);
    WakingKeepsBase(s, clock);
    hide Base, Due, Asleep;
    var r := CheckSleeping(s, clock);
    assert r.ready[i] == x;
    PlacedReady(r);
  }

  lemma StepAdvances(s: State, e: Event, i: nat, x: nat)
    requires Enabled(s, e) && Queues(s, i, x)
    ensures Queues(Step(s, e), if Calls(s, e) then i - 1 else i, x)
  {
    InvBase(s);
    hide Base, Schedule, CheckSleeping, Position, Successor;
    match e {
      case Tick(clock) => ScheduleAdvances(s, clock, i, x);
      case SleepFor(until, clock) =>
        BlockSleepLeaves(s, until);
        ScheduleAdvances(BlockSleep(s, until), clock, i, x);
      case Lock(k, clock) =>
        if Waits(s, k) {
          BlockWaitLeaves(s, k);
          ScheduleAdvances(BlockWait(s, k), clock, i, x);
        }
      case Quit(clock) =>
        ExitLeaves(s);
        ScheduleAdvances(ExitCurrent(s), clock, i, x);
      case _ =>
    }
  }

  lemma InvBase(s: State)
    requires Inv(s)
    ensures Base(s) && Shape(s)
  {
  }

  ghost function CallsIn(s: State, es: seq<Event>): (n: nat)
    requires Possible(s, es)
    ensures n <= |es|
    decreases |es|
  {
    if es == [] then 0 else (if Calls(s, es[0]) then 1 else 0) + CallsIn(Step(s, es[0]), es[1..])
  }

  /** The task at place i of the ready queue runs after exactly i + 1 calls of the scheduler, whatever
      happens in between. */
  lemma {:induction false} FirstInFirstOut(s: State, es: seq<Event>, i: nat, x: nat)
    requires Possible(s, es) && i < |s.ready| && s.ready[i] == x && CallsIn(s, es) <= i
    ensures i - CallsIn(s, es) < |Run(s, es).ready| && Run(s, es).ready[i - CallsIn(s, es)] == x
    ensures forall e :: Enabled(Run(s, es), e) && Calls(Run(s, es), e) && CallsIn(s, es) == i ==>
      Step(Run(s, es), e).current == x
    decreases |es|
  {
    hide Enabled, Step, Calls;
    if es == [] {
      forall e | Enabled(s, e) && Calls(s, e) && i == 0 ensures Step(s, e).current == x {
        StepAdvances(s, e, 0, x);
      }
    } else {
      StepAdvances(s, es[0], i, x);
      FirstInFirstOut(Step(s, es[0]), es[1..], if Calls(s, es[0]) then i - 1 else i, x);
    }
  }

  // ---- locks

  /** A task that waits for lock k moves up with every release, and is given the lock with the one at
      which it is first; the lock does not become free in between. */
  ghost predicate WaitsAt(s: State, k: nat, i: int, w: nat)
    requires Shape(s) && k < |s.keys|
  {
    s.locked[k] && if i < 0 then s.holders[k] == [w] else i < |s.waiting[k]| && s.waiting[k][i] == w
  }

  ghost predicate Releases(s: State, e: Event, k: nat)
    requires Shape(s) && k < |s.keys|
  {
    e == Unlock(k) && s.keys[k] != NO_KEY
  }

  lemma SameLocks(s: State, clock: seq<nat>)
    requires Base(s) && ClockFor(s, clock)
    ensures var r := Schedule(s, clock);
      Shape(r) && r.waiting == s.waiting && r.locked == s.locked && r.keys == s.keys && r.holders == s.holders
  {
    PlacedSleepers(s);
    WakingKeepsBase(s, clock);
    PlacedReady(CheckSleeping(s, clock));
  }

  /** What a step does to the locks. */
  lemma StepLocks(s: State, e: Event)
    requires Enabled(s, e)
    ensures var r := Step(s, e);
      && Shape(r) && |r.keys| == |s.keys| && (!e.InitKey? ==> r.keys == s.keys)
      && (match e
          case Lock(k, _) =>
            if s.keys[k] == NO_KEY then SameQueues(s, r)
            else if s.locked[k] then
              r.waiting == s.waiting[k := s.waiting[k] + [s.current]] && r.locked == s.locked && r.holders == s.holders
            else
              r.waiting == s.waiting && r.locked == s.locked[k := true] && r.holders == s.holders[k := [s.current]]
          case Unlock(k) => r == Release(s, k)
          case InitKey(key) => r == InitLock(s, key)
          case _ => SameQueues(s, r))
  {
    StepKeepsInv(s, e);
    InvBase(Step(s, e));
    InvBase(s);
    match e {
      case Tick(clock) => SameLocks(s, clock);
      case SleepFor(until, clock) =>
        BlockSleepLeaves(s, until);
        SameLocks(BlockSleep(s, until), clock);
      case Lock(j, clock) =>
        if Waits(s, j) {
          BlockWaitLeaves(s, j);
          SameLocks(BlockWait(s, j), clock);
        }
      case Quit(clock) =>
        ExitLeaves(s);
        SameLocks(ExitCurrent(s), clock);
      case _ =>
    }
  }

  ghost predicate SameQueues(s: State, r: State) {
    r.waiting == s.waiting && r.locked == s.locked && r.holders == s.holders
  }

  lemma WaiterAdvances(s: State, e: Event, k: nat, i: nat, w: nat)
    requires Enabled(s, e) && Shape(s) && k < |s.keys| && WaitsAt(s, k, i, w)
    ensures Shape(Step(s, e)) && k < |Step(s, e).keys|
    ensures WaitsAt(Step(s, e), k, if Releases(s, e, k) then i - 1 else i, w)
  {
    hide Base, Step, ClockFor, SomeReady, Release;
    StepLocks(s, e);
    KeyHeld(s, k);
    match e {
      case Unlock(j) => UnlockAdvances(s, j, k, i, w);
      case _ =>
    }
  }

  lemma KeyHeld(s: State, k: nat)
    requires Inv(s) && k < |s.keys| && s.locked[k]
    ensures s.keys[k] != NO_KEY
  {
  }

  lemma UnlockAdvances(s: State, j: nat, k: nat, i: nat, w: nat)
    requires Inv(s) && j < |s.keys| && k < |s.keys| && WaitsAt(s, k, i, w)
    ensures Shape(Release(s, j)) && WaitsAt(Release(s, j), k, if j == k then i - 1 else i, w)
  {
    KeyHeld(s, k);
    if s.keys[j] != NO_KEY && s.waiting[j] != [] {
      assert s.waiting[j][0] in s.waiting[j];
    }
  }

  ghost function ReleasesIn(s: State, es: seq<Event>, k: nat): (n: nat)
    requires Possible(s, es) && Shape(s) && k < |s.keys|
    ensures n <= |es|
    decreases |es|
  {
    if es == [] then 0
    else
      InvShape(s, es[0]);
      (if Releases(s, es[0], k) then 1 else 0) + ReleasesIn(Step(s, es[0]), es[1..], k)
  }

  lemma InvShape(s: State, e: Event)
    requires Enabled(s, e)
    ensures Shape(Step(s, e)) && |Step(s, e).keys| == |s.keys|
  {
    StepLocks(s, e);
  }

  /** The waiters of a lock get it in the order in which they came, handed over without a gap: the i-th
      waiter is given it with exactly the (i + 1)-th release. */
  lemma {:induction false} WaitersInOrder(s: State, es: seq<Event>, k: nat, i: nat, w: nat)
    requires Possible(s, es) && Shape(s) && k < |s.keys| && WaitsAt(s, k, i, w) && ReleasesIn(s, es, k) <= i
    ensures Shape(Run(s, es)) && |Run(s, es).keys| == |s.keys|
    ensures WaitsAt(Run(s, es), k, i - ReleasesIn(s, es, k), w)
    ensures forall e :: Enabled(Run(s, es), e) && Releases(Run(s, es), e, k) && ReleasesIn(s, es, k) == i ==>
      Shape(Step(Run(s, es), e)) && k < |Step(Run(s, es), e).keys| && Step(Run(s, es), e).holders[k] == [w]
    decreases |es|
  {
    hide Enabled, Step, Releases;
    if es == [] {
      forall e | Enabled(s, e) && Releases(s, e, k) && i == 0
        ensures Shape(Step(s, e)) && k < |Step(s, e).keys| && Step(s, e).holders[k] == [w]
      {
        WaiterAdvances(s, e, k, 0, w);
      }
    } else {
      WaiterAdvances(s, es[0], k, i, w);
      InvShape(s, es[0]);
      WaitersInOrder(Step(s, es[0]), es[1..], k, if Releases(s, es[0], k) then i - 1 else i, w);
    }
  }

  // ---- keys

  lemma KeyStays(s: State, e: Event, k: nat)
    requires Enabled(s, e) && k < |s.keys| && s.keys[k] != NO_KEY
    ensures k < |Step(s, e).keys| && Step(s, e).keys[k] == s.keys[k]
  {
    StepLocks(s, e);
  }

  /** A key, once it has a lock, keeps it through every run, and no other lock gets the same key. */
  lemma {:induction false} KeysStay(s: State, es: seq<Event>, k: nat)
    requires Inv(s) && Possible(s, es) && k < |s.keys| && s.keys[k] != NO_KEY
    ensures k < |Run(s, es).keys| && Run(s, es).keys[k] == s.keys[k]
    ensures LockIndex(Run(s, es).keys, s.keys[k], 0) == k
    decreases |es|
  {
    if es == [] {
      OnlyIndex(s, k);
    } else {
      hide Inv, Enabled, Step;
      StepKeepsInv(s, es[0]);
      KeyStays(s, es[0], k);
      KeysStay(Step(s, es[0]), es[1..], k);
    }
  }

  lemma OnlyIndex(s: State, k: nat)
    requires Inv(s) && k < |s.keys| && s.keys[k] != NO_KEY
    ensures LockIndex(s.keys, s.keys[k], 0) == k
  {
  }

  // ---- no thread is lost

  lemma ActiveKept(s: State, r: State)
    requires Shape(s) && Shape(r) && NoneLost(s) && |r.place| == |s.place| && r.ring == s.ring
    requires forall t :: 0 < t < |s.place| && Active(s.place[t]) ==> Active(r.place[t])
    requires forall t :: 0 < t < |s.place| && r.place[t] == Parked ==> s.place[t] == Parked
    ensures NoneLost(r)
  {
    forall t | 0 < t < |r.place| && r.place[t] == Parked
      ensures exists a :: 0 < a < |r.place| && r.ring[a] == r.ring[t] && Active(r.place[a])
    {
      var a :| 0 < a < |s.place| && s.ring[a] == s.ring[t] && Active(s.place[a]);
      assert Active(r.place[a]);
    }
  }

  lemma ScheduleKeepsNoneLost(s: State, clock: seq<nat>)
    requires Base(s) && (Inv(s) || Leaving(s)) && ClockFor(s, clock) && NoneLost(s)
    ensures Shape(Schedule(s, clock)) && NoneLost(Schedule(s, clock))
  {
    hide Due, Asleep, Holds, RingsOk, LocksOk, NoneLost, NoDup, Members;
    PlacedSleepers(s);
    WakingKeepsBase(s, clock);
    var m := CheckSleeping(s, clock);
    PlacedReady(m);
    ActiveKept(s, m);
    hide CheckSleeping;
    ActiveKept(m, Switch(m));
  }

  lemma SleepKeepsNoneLost(s: State, until: nat, clock: seq<nat>)
    requires Runs(s) && Shape(s) && NoneLost(s) && ClockFor(BlockSleep(s, until), clock)
    ensures Shape(Sleep(s, until, clock)) && NoneLost(Sleep(s, until, clock))
  {
    hide Schedule, Placed, StatusAgrees, RingsOk, LocksOk;
    BlockSleepLeaves(s, until);
    ActiveKept(s, BlockSleep(s, until));
    ScheduleKeepsNoneLost(BlockSleep(s, until), clock);
  }

  lemma WaitKeepsNoneLost(s: State, k: nat, clock: seq<nat>)
    requires Runs(s) && Shape(s) && NoneLost(s) && k < |s.keys| && Waits(s, k) && ClockFor(s, clock)
    ensures Shape(Acquire(s, k, clock)) && NoneLost(Acquire(s, k, clock))
  {
    hide Schedule, Placed, StatusAgrees, RingsOk, LocksOk;
    BlockWaitLeaves(s, k);
    ActiveKept(s, BlockWait(s, k));
    ScheduleKeepsNoneLost(BlockWait(s, k), clock);
  }

  /** No step but exiting loses a thread. */
  lemma StepKeepsNoneLost(s: State, e: Event)
    requires Enabled(s, e) && Shape(s) && NoneLost(s) && !e.Quit?
    ensures Shape(Step(s, e)) && NoneLost(Step(s, e))
  {
    StepLocks(s, e);
    InvBase(s);
    match e {
      case Tick(clock) => ScheduleKeepsNoneLost(s, clock);
      case SleepFor(until, clock) => SleepKeepsNoneLost(s, until, clock);
      case Lock(k, clock) =>
        if Waits(s, k) {
          WaitKeepsNoneLost(s, k, clock);
        }
      case Unlock(k) => ReleaseKeepsNoneLost(s, k);
      case InitKey(key) =>
      case NewThread => CreateKeepsNoneLost(s);
      case NextThread => YieldKeepsNoneLost(s);
    }
  }

  lemma ReleaseKeepsNoneLost(s: State, k: nat)
    requires Inv(s) && NoneLost(s) && k < |s.keys|
    ensures Shape(Release(s, k)) && NoneLost(Release(s, k))
  {
    if s.keys[k] != NO_KEY && s.waiting[k] != [] {
      assert s.waiting[k][0] in s.waiting[k];
      ActiveKept(s, Release(s, k));
    }
  }

  lemma CreateKeepsNoneLost(s: State)
    requires Runs(s) && NoneLost(s)
    ensures Shape(Create(s)) && NoneLost(Create(s))
  {
    hide Position;
    var r, c := Create(s), s.current;
    forall t | 0 < t < |r.place| && r.place[t] == Parked
      ensures exists a :: 0 < a < |r.place| && r.ring[a] == r.ring[t] && Active(r.place[a])
    {
      if t < |s.place| {
        var a :| 0 < a < |s.place| && s.ring[a] == s.ring[t] && Active(s.place[a]);
        assert r.ring[a] == r.ring[t] && Active(r.place[a]);
      } else {
        assert r.ring[c] == r.ring[t] && Active(r.place[c]);
      }
    }
  }

  lemma YieldKeepsNoneLost(s: State)
    requires Runs(s) && NoneLost(s)
    ensures Shape(YieldThread(s)) && NoneLost(YieldThread(s))
  {
    hide Successor;
    var r, u := YieldThread(s), Successor(s);
    forall t | 0 < t < |r.place| && r.place[t] == Parked
      ensures exists a :: 0 < a < |r.place| && r.ring[a] == r.ring[t] && Active(r.place[a])
    {
      if s.ring[t] == s.ring[s.current] {
        assert r.ring[u] == r.ring[t] && Active(r.place[u]);
      } else {
        var a :| 0 < a < |s.place| && s.ring[a] == s.ring[t] && Active(s.place[a]);
        assert r.ring[a] == r.ring[t] && Active(r.place[a]);
      }
    }
  }

  // ---- threads lost by exiting

  /** A parked thread without an active one in its ring: nothing will ever run it. */
  ghost predicate Lost(s: State, t: nat)
    requires Shape(s)
  {
    && 0 < t < |s.place| && s.place[t] == Parked
    && forall a :: 0 < a < |s.place| && s.ring[a] == s.ring[t] ==> !Active(s.place[a])
  }

  lemma NoneLostIff(s: State)
    requires Shape(s)
    ensures NoneLost(s) <==> forall t: nat :: !Lost(s, t)
  {
    if !NoneLost(s) {
      var t: nat :| 0 < t < |s.place| && s.place[t] == Parked
        && !exists a :: 0 < a < |s.place| && s.ring[a] == s.ring[t] && Active(s.place[a]);
      assert Lost(s, t);
    }
    forall t: nat | NoneLost(s) ensures !Lost(s, t) {
    }
  }

  /** Only active tasks become active, and none that is parked moves. */
  ghost predicate NoneRises(s: State, r: State) {
    && Shape(s) && Shape(r) && |r.place| == |s.place| && r.ring == s.ring
    && forall t :: 0 <= t < |s.place| ==>
         (Active(r.place[t]) ==> Active(s.place[t])) && (s.place[t] == Parked ==> r.place[t] == Parked)
  }

  lemma StaysLost(s: State, r: State, t: nat)
    requires NoneRises(s, r) && Lost(s, t)
    ensures Lost(r, t)
  {
  }

  lemma ScheduleRaisesNone(s: State, clock: seq<nat>)
    requires Base(s) && (Inv(s) || Leaving(s)) && ClockFor(s, clock)
    ensures NoneRises(s, Schedule(s, clock))
  {
    hide Due, Asleep, NoDup, Members, RingsOk, LocksOk;
    PlacedSleepers(s);
    WakingKeepsBase(s, clock);
    var m := CheckSleeping(s, clock);
    WakingRaisesNone(s, clock);
    PlacedReady(m);
    hide CheckSleeping;
    if m.ready != [] {
      SwitchRaisesNone(m);
    }
  }

  lemma WakingRaisesNone(s: State, clock: seq<nat>)
    requires Base(s) && ClockFor(s, clock) && SleepersExist(s)
    ensures NoneRises(s, CheckSleeping(s, clock))
  {
    hide Members, RingsOk, LocksOk, StatusAgrees;
    WakingKeepsBase(s, clock);
    DueSplits(s.sleep, s.wakeup, clock);
  }

  lemma SwitchRaisesNone(m: State)
    requires Base(m) && ReadyExist(m) && m.ready != []
    ensures NoneRises(m, Switch(m))
  {
    hide NoDup, Members, RingsOk, LocksOk;
    assert m.ready[0] in m.ready;
  }

  lemma SleepKeepsLost(s: State, until: nat, clock: seq<nat>, t: nat)
    requires Runs(s) && Shape(s) && Lost(s, t) && ClockFor(BlockSleep(s, until), clock)
    ensures Shape(Sleep(s, until, clock)) && Lost(Sleep(s, until, clock), t)
  {
    hide Schedule, Placed, StatusAgrees, RingsOk, LocksOk;
    BlockSleepLeaves(s, until);
    StaysLost(s, BlockSleep(s, until), t);
    ScheduleRaisesNone(BlockSleep(s, until), clock);
    StaysLost(BlockSleep(s, until), Sleep(s, until, clock), t);
  }

  lemma WaitKeepsLost(s: State, k: nat, clock: seq<nat>, t: nat)
    requires Runs(s) && Shape(s) && Lost(s, t) && k < |s.keys| && Waits(s, k) && ClockFor(s, clock)
    ensures Shape(Acquire(s, k, clock)) && Lost(Acquire(s, k, clock), t)
  {
    hide Schedule, Placed, StatusAgrees, RingsOk, LocksOk;
    BlockWaitLeaves(s, k);
    StaysLost(s, BlockWait(s, k), t);
    ScheduleRaisesNone(BlockWait(s, k), clock);
    StaysLost(BlockWait(s, k), Acquire(s, k, clock), t);
  }

  lemma QuitKeepsLost(s: State, clock: seq<nat>, t: nat)
    requires Runs(s) && Shape(s) && Lost(s, t) && ClockFor(s, clock)
    ensures Shape(Exit(s, clock)) && Lost(Exit(s, clock), t)
  {
    hide Schedule, Placed, StatusAgrees, RingsOk, LocksOk;
    ExitLeaves(s);
    StaysLost(s, ExitCurrent(s), t);
    ScheduleRaisesNone(ExitCurrent(s), clock);
    StaysLost(ExitCurrent(s), Exit(s, clock), t);
  }

  lemma StepKeepsLost(s: State, e: Event, t: nat)
    requires Enabled(s, e) && Shape(s) && Lost(s, t)
    ensures Shape(Step(s, e)) && Lost(Step(s, e), t)
  {
    StepLocks(s, e);
    InvBase(s);
    hide Placed, StatusAgrees, RingsOk, LocksOk;
    match e {
      case Tick(clock) =>
        ScheduleRaisesNone(s, clock);
        StaysLost(s, Schedule(s, clock), t);
      case SleepFor(until, clock) => SleepKeepsLost(s, until, clock, t);
      case Lock(k, clock) =>
        if Waits(s, k) {
          WaitKeepsLost(s, k, clock, t);
        }
      case Unlock(k) => ReleaseKeepsLost(s, k, t);
      case InitKey(key) =>
      case Quit(clock) => QuitKeepsLost(s, clock, t);
      case NewThread => CreateKeepsLost(s, t);
      case NextThread => YieldKeepsLost(s, t);
    }
  }

  lemma ReleaseKeepsLost(s: State, k: nat, t: nat)
    requires Inv(s) && k < |s.keys| && Lost(s, t)
    ensures Shape(Release(s, k)) && Lost(Release(s, k), t)
  {
    if s.keys[k] != NO_KEY && s.waiting[k] != [] {
      assert s.waiting[k][0] in s.waiting[k];
      StaysLost(s, Release(s, k), t);
    }
  }

  lemma CreateKeepsLost(s: State, t: nat)
    requires Runs(s) && Lost(s, t)
    ensures Shape(Create(s)) && Lost(Create(s), t)
  {
    hide Position;
    assert Active(s.place[s.current]);
  }

  lemma YieldKeepsLost(s: State, t: nat)
    requires Runs(s) && Lost(s, t)
    ensures Shape(YieldThread(s)) && Lost(YieldThread(s), t)
  {
    hide Successor;
    assert Active(s.place[s.current]);
  }

  /** The running task has no other thread in its ring. */
  ghost predicate Alone(s: State)
    requires Shape(s)
  {
    s.ring[s.current] < |s.rings| && s.rings[s.ring[s.current]] == [s.current]
  }

  /** Only tasks alone in their ring exit. */
  ghost predicate AloneQuits(s: State, es: seq<Event>)
    requires Possible(s, es)
    decreases |es|
  {
    es == [] || ((es[0].Quit? ==> Shape(s) && Alone(s)) && AloneQuits(Step(s, es[0]), es[1..]))
  }

  lemma QuitKeepsNoneLostIff(s: State, clock: seq<nat>)
    requires Enabled(s, Quit(clock)) && Shape(s) && NoneLost(s)
    ensures Shape(Exit(s, clock)) && (NoneLost(Exit(s, clock)) <==> Alone(s))
  {
    hide NoneLost, Schedule;
    ExitKeepsNoneLostIff(s, clock);
    RingOfCurrent(s);
    StepLocks(s, Quit(clock));
    ExitLeaves(s);
    var r := ExitCurrent(s);
    InvBase(s);
    if NoneLost(r) {
      ScheduleKeepsNoneLost(r, clock);
    } else {
      NoneLostIff(r);
      var t: nat :| Lost(r, t);
      ScheduleRaisesNone(r, clock);
      StaysLost(r, Schedule(r, clock), t);
      NoneLostIff(Schedule(r, clock));
    }
  }

  lemma RingOfCurrent(s: State)
    requires Runs(s)
    ensures s.ring[s.current] < |s.rings|
  {
  }

  lemma {:induction false} RunKeepsLost(s: State, es: seq<Event>, t: nat)
    requires Possible(s, es) && Inv(s) && Shape(s) && Lost(s, t)
    ensures Shape(Run(s, es)) && Lost(Run(s, es), t)
    decreases |es|
  {
    hide Inv, Step, Enabled, Lost;
    if es != [] {
      StepKeepsInv(s, es[0]);
      StepKeepsLost(s, es[0], t);
      RunKeepsLost(Step(s, es[0]), es[1..], t);
    }
  }

  /** A run loses no thread exactly when each task that exits in it is alone in its ring. */
  lemma {:induction false} RunKeepsNoneLostIff(s: State, es: seq<Event>)
    requires Inv(s) && Shape(s) && NoneLost(s) && Possible(s, es)
    ensures Shape(Run(s, es)) && (NoneLost(Run(s, es)) <==> AloneQuits(s, es))
    decreases |es|
  {
    hide Inv, Enabled, NoneLost, Alone, Lost;
    if es != [] {
      var r := Step(s, es[0]);
      StepKeepsInv(s, es[0]);
      InvShape(s, es[0]);
      if es[0].Quit? {
        QuitKeepsNoneLostIff(s, es[0].clock);
      } else {
        StepKeepsNoneLost(s, es[0]);
      }
      hide Step;
      if NoneLost(r) {
        RunKeepsNoneLostIff(r, es[1..]);
      } else {
        NoneLostIff(r);
        var t: nat :| Lost(r, t);
        RunKeepsLost(r, es[1..], t);
        NoneLostIff(Run(r, es[1..]));
      }
    }
  }

  // ---- a run that loses a thread

  /** The boot task and two others; no locks. */
  ghost function BootOfTwo(): State {
    State(0, [Blocked, Ready, Ready], [0, 0, 0], [1, 2], [], [], [], [], [[1], [2]], [0, 0, 1],
          [Cpu, ReadyQueue, ReadyQueue], [])
  }

  lemma NobodySleeps(s: State)
    requires Shape(s) && s.sleep == []
    ensures ClockFor(s, []) && CheckSleeping(s, []) == s
  {
    assert Due(s.sleep, s.wakeup, []) == [] && s.ready + [] == s.ready;
    assert SetAll(s.status, [], Ready) == s.status && SetAll(s.place, [], ReadyQueue) == s.place;
  }

  /** From boot the run ends in a state that has lost a thread. */
  ghost predicate Strands(s: State, es: seq<Event>) {
    Boot(s) && Possible(s, es) && (Inv(s) && Shape(Run(s, es)) && !NoneLost(Run(s, es)))
  }

  /** The first task makes a thread and exits: the thread is never run. */
  lemma ExitStrandsThread(s: State, es: seq<Event>)
    requires s == BootOfTwo() && es == [Tick([]), NewThread, Quit([])]
    ensures Strands(s, es)
  {
    assert Boot(s);
    BootIsInv(s);
    NobodySleeps(s);
    var s1 := Step(s, Tick([]));
    StepKeepsInv(s, Tick([]));
    assert s1.current == 1 && s1.ready == [2] && s1.rings[s1.ring[1]] == [1] && s1.sleep == [];
    InvShape(s, Tick([]));
    hide *;
    FirstQuits(s1);
    LastEvent(s, es);
    RunStrands(s, es);
  }

  /** A thread is made and its maker exits. */
  lemma FirstQuits(s: State)
    requires Inv(s) && Shape(s) && s.current == 1 < |s.ring| && s.ready == [2] && s.sleep == []
    requires s.ring[1] < |s.rings| && s.rings[s.ring[1]] == [1]
    ensures Enabled(s, NewThread) && Enabled(Step(s, NewThread), Quit([]))
    ensures Shape(Step(s, NewThread)) && !Alone(Step(s, NewThread))
  {
    StepKeepsInv(s, NewThread);
    InvShape(s, NewThread);
    var r := Step(s, NewThread);
    assert r.rings[r.ring[1]] == [1, |s.status|];
    hide Inv, Placed;
    NobodySleeps(ExitCurrent(r));
  }

  lemma LastEvent(s: State, es: seq<Event>)
    requires |es| == 3 && Enabled(s, es[0]) && Enabled(Step(s, es[0]), es[1]) && es[2].Quit?
    requires Enabled(Step(Step(s, es[0]), es[1]), es[2])
    requires Shape(Step(Step(s, es[0]), es[1])) && !Alone(Step(Step(s, es[0]), es[1]))
    ensures Possible(s, es) && !AloneQuits(s, es)
  {
    hide Enabled, Step, Alone;
    var r := Step(Step(s, es[0]), es[1]);
    assert [es[2]][1..] == [] && [es[1], es[2]][1..] == [es[2]] && es[1..] == [es[1], es[2]];
    assert Possible(r, [es[2]]) && !AloneQuits(r, [es[2]]);
    assert Possible(Step(s, es[0]), [es[1], es[2]]) && !AloneQuits(Step(s, es[0]), [es[1], es[2]]);
  }

  lemma RunStrands(s: State, es: seq<Event>)
    requires Boot(s) && Inv(s) && Shape(s) && NoneLost(s) && Possible(s, es) && !AloneQuits(s, es)
    ensures Strands(s, es)
  {
    hide Boot, Inv, Enabled, Step, NoneLost;
    RunKeepsNoneLostIff(s, es);
  }

  // ---- a task that exits with no other one ready

  /** The boot task and one other; no locks. */
  ghost function BootOfOne(): State {
    State(0, [Blocked, Ready], [0, 0], [1], [], [], [], [], [[1]], [0, 0], [Cpu, ReadyQueue], [])
  }

  lemma OneRuns()
    ensures Boot(BootOfOne()) && Enabled(BootOfOne(), Tick([]))
    ensures var r := Step(BootOfOne(), Tick([])); Runs(r) && r.current == 1 && r.ready == [] && r.sleep == []
  {
    var s := BootOfOne();
    assert Boot(s);
    BootIsInv(s);
    NobodySleeps(s);
    StepKeepsInv(s, Tick([]));
    hide Inv, Boot;
  }

  /** The scheduler returns to a task that has exited, if no other one is ready. */
  lemma ExitReturns(r: State)
    requires Runs(r) && r.ready == [] && r.sleep == []
    ensures ClockFor(r, []) && !Inv(Exit(r, []))
    ensures Shape(Exit(r, [])) && Exit(r, []).current == r.current && Exit(r, []).status[r.current] == Exited
  {
    ExitLeaves(r);
    NobodySleeps(ExitCurrent(r));
    hide Inv;
    ExitKeepsInvIff(r, []);
  }

  /** After boot and the first timer interrupt, the only task exits, and the scheduler returns to it. */
  lemma ExitWithNoneReady()
    ensures Boot(BootOfOne()) && Enabled(BootOfOne(), Tick([]))
    ensures var r := Step(BootOfOne(), Tick([]));
      Runs(r) && ClockFor(r, []) && !Inv(Exit(r, [])) && Shape(Exit(r, []))
      && Exit(r, []).current == r.current && Exit(r, []).status[r.current] == Exited
  {
    hide Enabled, Step, Boot, BootOfOne, Runs, Exit;
    OneRuns();
    ExitReturns(Step(BootOfOne(), Tick([])));
  }
}
