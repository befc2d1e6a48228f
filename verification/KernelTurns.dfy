/** Whose turn it is: preemption, threads that yield to each other, and tasks that have exited. */
module KernelTurns {
  import opened Arith
  import opened KernelState
  import opened KernelSteps
  import opened KernelRuns

  // ---- preemption

  /** A timer interrupt puts the running task behind all that are ready then, among them those just woken; without
      any it goes on running. */
  lemma TickPreempts(s: State, clock: seq<nat>)
    requires Enabled(s, Tick(clock)) && s.current > 0
    ensures SleepersExist(s)
    ensures var ready, r := CheckSleeping(s, clock).ready, Step(s, Tick(clock));
      if ready == [] then r.current == s.current && r.ready == []
      else r.current == ready[0] && r.ready == ready[1..] + [s.current]
  {
    PlacedSleepers(s);
    WakingKeepsBase(s, clock);
    var r := CheckSleeping(s, clock);
    PlacedReady(r);
    WakingLeavesRunning(s, clock);
    hide CheckSleeping, Base;
  }

  lemma WakingLeavesRunning(s: State, clock: seq<nat>)
    requires Inv(s) && s.current > 0 && SleepersExist(s) && ClockFor(s, clock)
    ensures CheckSleeping(s, clock).current == s.current
    ensures |CheckSleeping(s, clock).status| > s.current && CheckSleeping(s, clock).status[s.current] == Running
  {
    DueSplits(s.sleep, s.wakeup, clock);
    hide Due, Asleep;
  }

  // ---- threads

  ghost function Yields(k: nat): (es: seq<Event>)
    ensures |es| == k && forall i :: 0 <= i < k ==> es[i] == NextThread
  {
    seq(k, _ => NextThread)
  }

  /** The running thread's group, and its place in it. */
  ghost predicate RunsAt(s: State, q: seq<nat>, i: nat) {
    && Inv(s) && s.current > 0 && i < |q| && q[i] == s.current
    && s.ring[s.current] < |s.rings| && s.rings[s.ring[s.current]] == q
  }

  lemma YieldNext(s: State, q: seq<nat>, i: nat)
    requires RunsAt(s, q, i)
    ensures Enabled(s, NextThread) && RunsAt(Step(s, NextThread), q, (i + 1) % |q|)
  {
    YieldKeepsInv(s);
    SuccessorIs(s, q, i);
    Around(i, |q|);
  }

  lemma Around(i: nat, n: nat)
    requires i < n
    ensures (i + 1) % n == if i + 1 < n then i + 1 else 0
  {
  }

  lemma SuccessorIs(s: State, q: seq<nat>, i: nat)
    requires RunsAt(s, q, i)
    ensures Successor(s) == q[if i + 1 < |q| then i + 1 else 0]
  {
    RingMember(s, s.ring[s.current], s.current);
    PositionIs(q, i);
  }

  lemma {:induction false} PositionIs(q: seq<nat>, i: nat)
    requires NoDup(q) && i < |q|
    ensures Position(q, q[i]) == i
  {
    if i > 0 {
      assert q[i] == q[1..][i - 1];
      PositionIs(q[1..], i - 1);
    }
  }

  /** The threads of a group take turns: the k-th one behind the running thread runs after k calls to yield. */
  lemma {:induction false} ThreadsTakeTurns(s: State, q: seq<nat>, i: nat, k: nat)
    requires RunsAt(s, q, i)
    ensures Possible(s, Yields(k)) && Run(s, Yields(k)).current == q[(i + k) % |q|]
    decreases k
  {
    hide RunsAt, Enabled, Step;
    RunsWithin(s, q, i);
    if k > 0 {
      YieldNext(s, q, i);
      var j := (i + 1) % |q|;
      ThreadsTakeTurns(Step(s, NextThread), q, j, k - 1);
      assert Yields(k)[1..] == Yields(k - 1) && Yields(k)[0] == NextThread;
      TurnOver(i, k, |q|);
    }
  }

  lemma RunsWithin(s: State, q: seq<nat>, i: nat)
    requires RunsAt(s, q, i)
    ensures i < |q| && s.current == q[i] && i % |q| == i
  {
  }

  lemma TurnOver(i: nat, k: nat, n: nat)
    requires i < n && k > 0
    ensures ((i + 1) % n + (k - 1)) % n == (i + k) % n
  {
    Around(i, n);
    if i + 1 == n {
      assert k - 1 + n == n * ((k - 1) / n + 1) + (k - 1) % n;
      QuotientIs(k - 1 + n, n, (k - 1) / n + 1, (k - 1) % n);
    }
  }

  /** A new thread is the next one to run. */
  lemma NewThreadNext(s: State)
    requires Enabled(s, NewThread)
    ensures Enabled(Step(s, NewThread), NextThread)
    ensures Step(Step(s, NewThread), NextThread).current == |s.status|
  {
    CreateKeepsInv(s);
    var r, g := Create(s), s.ring[s.current];
    RingMember(s, g, s.current);
    var i := Position(s.rings[g], s.current);
    SuccessorIs(r, r.rings[g], i);
  }

  // ---- exited tasks

  ghost predicate GoneFor(s: State, t: nat) {
    Inv(s) && 0 < t < |s.place| && s.place[t] == Gone
  }

  lemma GoneNowhere(s: State, t: nat)
    requires GoneFor(s, t)
    ensures s.current != t && s.status[t] == Exited && t !in s.ready && t !in s.sleep
    ensures forall k :: 0 <= k < |s.waiting| ==> t !in s.waiting[k]
  {
  }

  lemma ScheduleKeepsGone(s: State, clock: seq<nat>, t: nat)
    requires (Inv(s) || Leaving(s)) && ClockFor(s, clock) && 0 < t < |s.place| && s.place[t] == Gone
    ensures t < |Schedule(s, clock).place| && Schedule(s, clock).place[t] == Gone
  {
    PlacedSleepers(s);
    WakingStatus(s, clock);
    WakingKeepsBase(s, clock);
    var r := CheckSleeping(s, clock);
    PlacedReady(r);
    hide Due, Asleep;
    if r.ready != [] {
      assert r.ready[0] in r.ready;
    }
  }

  lemma StepKeepsGone(s: State, e: Event, t: nat)
    requires Enabled(s, e) && GoneFor(s, t)
    ensures GoneFor(Step(s, e), t)
  {
    StepKeepsInv(s, e);
    InvBase(s);
    GoneNowhere(s, t);
    hide Base, Schedule, Position, CheckSleeping, Leaving;
    match e {
      case Tick(clock) => ScheduleKeepsGone(s, clock, t);
      case SleepFor(until, clock) =>
        BlockSleepLeaves(s, until);
        ScheduleKeepsGone(BlockSleep(s, until), clock, t);
      case Lock(k, clock) =>
        if Waits(s, k) {
          BlockWaitLeaves(s, k);
          ScheduleKeepsGone(BlockWait(s, k), clock, t);
        }
      case Unlock(k) =>
      case InitKey(_) =>
      case Quit(clock) =>
        ExitLeaves(s);
        ScheduleKeepsGone(ExitCurrent(s), clock, t);
      case NewThread =>
      case NextThread => YieldKeepsGone(s, t);
    }
  }

  lemma YieldKeepsGone(s: State, t: nat)
    requires Runs(s) && GoneFor(s, t)
    ensures t < |YieldThread(s).place| && YieldThread(s).place[t] == Gone
  {
    var u := Successor(s);
    hide Position, Successor;
    assert Active(s.place[s.current]);
  }

  lemma {:induction false} GoneForGood(s: State, es: seq<Event>, t: nat)
    requires Possible(s, es) && GoneFor(s, t)
    ensures var r := Run(s, es);
      r.current != t && |r.status| > t && r.status[t] == Exited && t !in r.ready && t !in r.sleep
    decreases |es|
  {
    hide Enabled, Step, GoneFor;
    if es == [] {
      GoneNowhere(s, t);
      InRange(s, t);
    } else {
      StepKeepsGone(s, es[0], t);
      GoneForGood(Step(s, es[0]), es[1..], t);
    }
  }

  lemma InRange(s: State, t: nat)
    requires GoneFor(s, t)
    ensures t < |s.status|
  {
  }

  /** Exiting is what makes a task gone. */
  lemma QuitIsGone(s: State, clock: seq<nat>)
    requires Enabled(s, Quit(clock))
    ensures GoneFor(Step(s, Quit(clock)), s.current)
  {
    StepKeepsInv(s, Quit(clock));
    ExitLeaves(s);
    ScheduleKeepsGone(ExitCurrent(s), clock, s.current);
  }

  /** A task that exits never runs again, and is never again in a queue. */
  lemma ExitedForGood(s: State, clock: seq<nat>, es: seq<Event>)
    requires Enabled(s, Quit(clock)) && Possible(Step(s, Quit(clock)), es)
    ensures var r := Run(Step(s, Quit(clock)), es);
      && r.current != s.current && |r.status| > s.current && r.status[s.current] == Exited
      && s.current !in r.ready && s.current !in r.sleep
  {
    hide Enabled, Step, GoneFor;
    QuitIsGone(s, clock);
    GoneForGood(Step(s, Quit(clock)), es, s.current);
  }
}
