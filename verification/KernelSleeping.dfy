/** How long tasks sleep: what the time given to a call means for the calls that follow it. */
module KernelSleeping {
  import opened KernelState
  import opened KernelSteps
  import opened KernelWaking
  import opened KernelRuns

  // ---- the readings of the clock

  ghost function Readings(e: Event): seq<nat> {
    match e
    case Tick(clock) => clock
    case SleepFor(_, clock) => clock
    case Lock(_, clock) => clock
    case Quit(clock) => clock
    case _ => []
  }

  /** The tasks that a call looks at, in this order: the sleepers and, if it goes to sleep, the caller itself. */
  ghost function LookedAt(s: State, e: Event): seq<nat>
    requires Enabled(s, e)
  {
    if !Calls(s, e) then [] else s.sleep + if e.SleepFor? then [s.current] else []
  }

  /** The call finds the time come for task t. */
  ghost predicate FindsDue(s: State, e: Event, t: nat, until: nat)
    requires Enabled(s, e)
  {
    exists i :: 0 <= i < |LookedAt(s, e)| && i < |Readings(e)| && LookedAt(s, e)[i] == t && Readings(e)[i] >= until
  }

  ghost predicate Sleeps(s: State, t: nat) {
    && Shape(s) && t < |s.status| && t in s.sleep && t !in s.ready && s.current != t && s.status[t] == Blocked
  }

  ghost predicate Awake(s: State, t: nat) {
    t !in s.sleep && (t in s.ready || s.current == t)
  }

  // ---- one call

  /** The task sleeps until then. */
  ghost predicate Until(s: State, t: nat, until: nat) {
    && Shape(s) && t in s.sleep && t < |s.wakeup| && s.wakeup[t] == until
  }

  lemma UntilSleeps(s: State, t: nat, until: nat)
    requires Inv(s) && Until(s, t, until)
    ensures Sleeps(s, t)
  {
  }

  /** The scheduler wakes a sleeper if it finds its time come, and leaves it alone otherwise. */
  lemma ScheduleLooks(s: State, clock: seq<nat>, i: nat, t: nat, until: nat)
    requires Base(s) && ClockFor(s, clock) && i < |s.sleep| && s.sleep[i] == t && Until(s, t, until)
    ensures clock[i] >= until ==> Awake(Schedule(s, clock), t)
    ensures clock[i] < until ==> Until(Schedule(s, clock), t, until)
  {
    PlacedSleepers(s);
    WokenInTime(s.sleep, s.wakeup, clock, i);
    DueSplits(s.sleep, s.wakeup, clock);
    WakingKeepsBase(s, clock);
    var r := CheckSleeping(s, clock);
    PlacedReady(r);
    hide Base, Due, Asleep;
    SwitchMoves(r, t);
  }

  /** Ready tasks stay ready or run, and sleepers sleep on. */
  lemma SwitchMoves(s: State, t: nat)
    requires ReadyExist(s)
    ensures t in s.ready ==> t in Switch(s).ready || Switch(s).current == t
    ensures Switch(s).sleep == s.sleep && Switch(s).wakeup == s.wakeup && Shape(Switch(s))
  {
    if t in s.ready {
      var j :| 0 <= j < |s.ready| && s.ready[j] == t;
      assert j > 0 ==> s.ready[1..][j - 1] == t;
    }
  }

  /** The task is asleep, or is about to call for it. */
  ghost predicate Sleeper(s: State, e: Event, t: nat, until: nat) {
    Until(s, t, until) || (e.SleepFor? && e.until == until && s.current == t)
  }

  lemma CallLooks(s: State, e: Event, s': State, t: nat, until: nat)
    requires Enabled(s, e) && Calls(s, e) && Base(s') && ClockFor(s', Readings(e)) && Until(s', t, until)
    requires s'.sleep == LookedAt(s, e) && Step(s, e) == Schedule(s', Readings(e))
    ensures if FindsDue(s, e, t, until) then Awake(Step(s, e), t) else Until(Step(s, e), t, until)
  {
    hide Base, Enabled, Step, Schedule;
    var i :| 0 <= i < |s'.sleep| && s'.sleep[i] == t;
    ScheduleLooks(s', Readings(e), i, t, until);
    if j :| 0 <= j < |s'.sleep| && s'.sleep[j] == t && Readings(e)[j] >= until {
      OnePlace(s', i, j);
    }
  }

  lemma OnePlace(s: State, i: nat, j: nat)
    requires Base(s) && i < |s.sleep| && j < |s.sleep| && s.sleep[i] == s.sleep[j]
    ensures i == j
  {
  }

  /** Calls that do not reach the scheduler look at nobody. */
  lemma QuietLooks(s: State, e: Event, t: nat, until: nat)
    requires Enabled(s, e) && !Calls(s, e) && Until(s, t, until)
    ensures !FindsDue(s, e, t, until) && Until(Step(s, e), t, until)
  {
    InvBase(s);
    hide Base, Schedule, CheckSleeping, Position, Successor;
  }

  lemma StepLooks(s: State, e: Event, t: nat, until: nat)
    requires Enabled(s, e) && Sleeper(s, e, t, until)
    ensures if FindsDue(s, e, t, until) then Awake(Step(s, e), t) else Until(Step(s, e), t, until)
  {
    hide Schedule, CheckSleeping, Position, Successor, Awake, FindsDue, Base;
    InvBase(s);
    OthersSleep(s, t, until);
    if !Calls(s, e) {
      QuietLooks(s, e, t, until);
      return;
    }
    match e {
      case Tick(clock) => CallLooks(s, e, s, t, until);
      case SleepFor(u, clock) =>
        BlockSleepLeaves(s, u);
        CallLooks(s, e, BlockSleep(s, u), t, until);
      case Lock(k, clock) =>
        if Waits(s, k) {
          BlockWaitLeaves(s, k);
          CallLooks(s, e, BlockWait(s, k), t, until);
        }
      case Quit(clock) =>
        ExitLeaves(s);
        CallLooks(s, e, ExitCurrent(s), t, until);
      case _ =>
    }
  }

  lemma OthersSleep(s: State, t: nat, until: nat)
    requires Inv(s)
    ensures Until(s, t, until) ==> t != s.current
  {
  }

  // ---- over runs

  /** No call of the run finds the time come for t. */
  ghost predicate NeverDue(s: State, es: seq<Event>, t: nat, until: nat)
    requires Possible(s, es)
    decreases |es|
  {
    es == [] || (!FindsDue(s, es[0], t, until) && NeverDue(Step(s, es[0]), es[1..], t, until))
  }

  lemma {:induction false} StillAsleep(s: State, es: seq<Event>, t: nat, until: nat)
    requires Possible(s, es) && NeverDue(s, es, t, until) && Until(s, t, until)
    ensures Until(Run(s, es), t, until)
    decreases |es|
  {
    hide Enabled, Step, FindsDue, Until;
    if es != [] {
      StepLooks(s, es[0], t, until);
      StillAsleep(Step(s, es[0]), es[1..], t, until);
    }
  }

  /** A task that calls to sleep until a time sleeps through every run in which no call finds that time come for it,
      and the first call that does, be it that of the task itself, makes it ready or lets it run. */
  lemma SleepsUntilDue(s: State, es: seq<Event>, until: nat, clock: seq<nat>)
    requires Inv(s) && Possible(s, [SleepFor(until, clock)] + es)
    ensures FindsDue(s, SleepFor(until, clock), s.current, until) ==>
      Awake(Step(s, SleepFor(until, clock)), s.current)
    ensures NeverDue(s, [SleepFor(until, clock)] + es, s.current, until) ==>
      && Possible(Step(s, SleepFor(until, clock)), es)
      && var r := Run(Step(s, SleepFor(until, clock)), es);
        && Sleeps(r, s.current)
        && forall e :: Enabled(r, e) && FindsDue(r, e, s.current, until) ==> Awake(Step(r, e), s.current)
  {
    hide Enabled, Step, FindsDue, Until, Sleeps, Awake, Inv;
    var t, e, all := s.current, SleepFor(until, clock), [SleepFor(until, clock)] + es;
    assert all[0] == e && all[1..] == es;
    StepLooks(s, e, t, until);
    if NeverDue(s, all, t, until) {
      StillAsleep(Step(s, e), es, t, until);
      StepKeepsInv(s, e);
      RunKeepsInv(Step(s, e), es);
      var r := Run(Step(s, e), es);
      UntilSleeps(r, t, until);
      forall e | Enabled(r, e) && FindsDue(r, e, t, until) ensures Awake(Step(r, e), t) {
        StepLooks(r, e, t, until);
      }
    }
  }

  /** The reading that a task is found due by: its place among those looked at. */
  lemma FindsDueIff(s: State, e: Event, i: nat, until: nat)
    requires Enabled(s, e) && i < |LookedAt(s, e)|
    ensures i < |Readings(e)|
    ensures FindsDue(s, e, LookedAt(s, e)[i], until) <==> Readings(e)[i] >= until
  {
  }
}
