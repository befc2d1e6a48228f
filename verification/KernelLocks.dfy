/** Who has a lock, over whole runs: a release is not checked to come from the task that has the lock. */
module KernelLocks {
  import opened KernelState
  import opened KernelSteps
  import opened KernelRuns

  ghost predicate HasLock(s: State, k: nat, t: nat)
    requires Shape(s) && k < |s.keys|
  {
    s.locked[k] && s.holders[k] == [t]
  }

  /** The call takes the lock away from a task other than the caller: the task that has it is not the next
      one in its queue either. */
  ghost predicate Robs(s: State, e: Event, k: nat)
    requires Shape(s) && k < |s.keys|
  {
    && Releases(s, e, k) && s.locked[k] && s.holders[k] != [s.current]
    && (s.waiting[k] == [] || s.holders[k] != [s.waiting[k][0]])
  }

  /** A step takes a lock away exactly when it is a release that does not hand it back. */
  lemma HolderKeptIff(s: State, e: Event, k: nat, t: nat)
    requires Enabled(s, e) && Shape(s) && k < |s.keys| && HasLock(s, k, t)
    ensures Shape(Step(s, e)) && k < |Step(s, e).keys|
    ensures HasLock(Step(s, e), k, t) <==> !Releases(s, e, k) || (s.waiting[k] != [] && s.waiting[k][0] == t)
  {
    hide Base, Step, ClockFor, SomeReady;
    StepLocks(s, e);
    KeyHeld(s, k);
    match e {
      case Unlock(j) => ReleasedTo(s, j, k);
      case _ =>
    }
  }

  lemma ReleasedTo(s: State, j: nat, k: nat)
    requires Inv(s) && j < |s.keys| && k < |s.keys| && s.locked[k]
    ensures Shape(Release(s, j)) && |Release(s, j).keys| == |s.keys|
    ensures j != k ==> Release(s, j).locked[k] && Release(s, j).holders[k] == s.holders[k]
    ensures j == k && s.waiting[k] == [] ==> !Release(s, j).locked[k]
    ensures j == k && s.waiting[k] != [] ==> Release(s, j).locked[k] && Release(s, j).holders[k] == [s.waiting[k][0]]
  {
    KeyHeld(s, k);
    if s.keys[j] != NO_KEY && s.waiting[j] != [] {
      assert s.waiting[j][0] in s.waiting[j];
    }
  }

  /** Each task that has the lock keeps it until it releases it. */
  ghost predicate NobodyRobbed(s: State, es: seq<Event>, k: nat)
    requires Possible(s, es) && Shape(s) && k < |s.keys|
    decreases |es|
  {
    es == [] ||
    (InvShape(s, es[0]);
     && (forall t: nat :: HasLock(s, k, t) && !(Releases(s, es[0], k) && s.current == t) ==>
           HasLock(Step(s, es[0]), k, t))
     && NobodyRobbed(Step(s, es[0]), es[1..], k))
  }

  ghost predicate NoneRobs(s: State, es: seq<Event>, k: nat)
    requires Possible(s, es) && Shape(s) && k < |s.keys|
    decreases |es|
  {
    es == [] || (InvShape(s, es[0]); !Robs(s, es[0], k) && NoneRobs(Step(s, es[0]), es[1..], k))
  }

  ghost predicate ReleasedBy(s: State, es: seq<Event>, k: nat, t: nat)
    requires Possible(s, es) && Shape(s) && k < |s.keys|
    decreases |es|
  {
    es != [] &&
    (InvShape(s, es[0]);
     (Releases(s, es[0], k) && s.current == t) || ReleasedBy(Step(s, es[0]), es[1..], k, t))
  }

  lemma OneHolder(s: State, k: nat)
    requires Inv(s) && Shape(s) && k < |s.keys| && s.locked[k]
    ensures exists t: nat :: HasLock(s, k, t)
  {
    var t: nat := s.holders[k][0];
    assert HasLock(s, k, t);
  }

  /** A lock is a task's own until it releases it exactly in the runs in which no other task does. */
  lemma {:induction false} NobodyRobbedIff(s: State, es: seq<Event>, k: nat)
    requires Possible(s, es) && Inv(s) && Shape(s) && k < |s.keys|
    ensures NobodyRobbed(s, es, k) <==> NoneRobs(s, es, k)
    decreases |es|
  {
    if es != [] {
      var e, r := es[0], Step(s, es[0]);
      InvShape(s, e);
      StepKeepsInv(s, e);
      NobodyRobbedIff(r, es[1..], k);
      hide Inv, Enabled, Step, Releases;
      forall t: nat | HasLock(s, k, t)
        ensures HasLock(r, k, t) <==> !Releases(s, e, k) || (s.waiting[k] != [] && s.waiting[k][0] == t)
      {
        HolderKeptIff(s, e, k, t);
      }
      if s.locked[k] {
        OneHolder(s, k);
      }
    }
  }

  /** Without such a release a task that has the lock still has it, or has released it. */
  lemma {:induction false} HeldUntilReleased(s: State, es: seq<Event>, k: nat, t: nat)
    requires Possible(s, es) && Shape(s) && k < |s.keys| && HasLock(s, k, t) && NoneRobs(s, es, k)
    ensures Shape(Run(s, es)) && |Run(s, es).keys| == |s.keys|
    ensures HasLock(Run(s, es), k, t) || ReleasedBy(s, es, k, t)
    decreases |es|
  {
    if es != [] {
      InvShape(s, es[0]);
      HolderKeptIff(s, es[0], k, t);
      if HasLock(Step(s, es[0]), k, t) {
        HeldUntilReleased(Step(s, es[0]), es[1..], k, t);
      } else {
        RunShape(Step(s, es[0]), es[1..]);
      }
    }
  }

  lemma {:induction false} RunShape(s: State, es: seq<Event>)
    requires Possible(s, es) && Shape(s)
    ensures Shape(Run(s, es)) && |Run(s, es).keys| == |s.keys|
    decreases |es|
  {
    if es != [] {
      InvShape(s, es[0]);
      RunShape(Step(s, es[0]), es[1..]);
    }
  }

  // ---- a run in which a lock is taken away

  /** The boot task and two others, with one lock. */
  ghost function BootWithLock(): State {
    State(0, [Blocked, Ready, Ready], [0, 0, 0], [1, 2], [], [[]], [false], [NO_KEY], [[1], [2]], [0, 0, 1],
          [Cpu, ReadyQueue, ReadyQueue], [[]])
  }

  /** Nobody sleeps, nobody waits for the lock, and these tasks run and are ready. */
  ghost predicate Stage(s: State, current: nat, ready: seq<nat>) {
    && Inv(s) && Shape(s) && |s.keys| == 1 && s.waiting[0] == [] && s.sleep == []
    && s.current == current && s.ready == ready
  }

  lemma StageTick(s: State, current: nat, ready: seq<nat>)
    requires Stage(s, current, ready) && ready != []
    ensures Enabled(s, Tick([]))
    ensures Stage(Step(s, Tick([])), ready[0], ready[1..] + if current > 0 then [current] else [])
    ensures Step(s, Tick([])).keys == s.keys && SameQueues(s, Step(s, Tick([])))
  {
    NobodySleeps(s);
    StepKeepsInv(s, Tick([]));
    StepLocks(s, Tick([]));
    assert s.status[current] == Running <==> current > 0;
  }

  lemma StageKey(s: State, current: nat, ready: seq<nat>, key: int)
    requires Stage(s, current, ready) && current > 0 && s.keys[0] == NO_KEY && key != NO_KEY
    ensures Enabled(s, InitKey(key)) && Stage(Step(s, InitKey(key)), current, ready)
    ensures Step(s, InitKey(key)).keys[0] == key && SameQueues(s, Step(s, InitKey(key)))
  {
    StepKeepsInv(s, InitKey(key));
  }

  lemma StageLock(s: State, current: nat, ready: seq<nat>)
    requires Stage(s, current, ready) && current > 0 && s.keys[0] != NO_KEY && !s.locked[0]
    ensures Enabled(s, Lock(0, [])) && Stage(Step(s, Lock(0, [])), current, ready)
    ensures Step(s, Lock(0, [])).keys == s.keys && HasLock(Step(s, Lock(0, [])), 0, current)
  {
    NobodySleeps(s);
    StepKeepsInv(s, Lock(0, []));
  }

  lemma StageRobbed(s: State, current: nat, ready: seq<nat>, t: nat)
    requires Stage(s, current, ready) && current > 0 && s.keys[0] != NO_KEY && HasLock(s, 0, t) && t != current
    ensures Possible(s, [Unlock(0)]) && !NoneRobs(s, [Unlock(0)], 0)
  {
    assert Robs(s, Unlock(0), 0);
  }

  lemma RobbedLater(s: State, e: Event, es: seq<Event>)
    requires Enabled(s, e) && Shape(s) && Shape(Step(s, e)) && |s.keys| == 1 && |Step(s, e).keys| == 1
    requires Possible(Step(s, e), es) && !NoneRobs(Step(s, e), es, 0)
    ensures Possible(s, [e] + es) && !NoneRobs(s, [e] + es, 0)
  {
    hide Enabled, Step;
    assert ([e] + es)[1..] == es;
  }

  lemma BootStage()
    ensures var s := BootWithLock(); Boot(s) && Stage(s, 0, [1, 2]) && s.keys[0] == NO_KEY && !s.locked[0]
  {
    assert Boot(BootWithLock());
    BootIsInv(BootWithLock());
  }

  /** From boot: the first task takes the lock, and the second one releases it. */
  lemma AnyoneReleases()
    ensures var s := BootWithLock();
      Boot(s) && Shape(s) && |s.keys| == 1 && exists es :: Possible(s, es) && !NoneRobs(s, es, 0)
  {
    var s := BootWithLock();
    BootStage();
    hide Enabled, Step, Inv, Boot, NoneRobs, Possible, Robs, BootWithLock;
    StageTick(s, 0, [1, 2]);
    var s1 := Step(s, Tick([]));
    assert Stage(s1, 1, [2]);
    StageKey(s1, 1, [2], 7);
    var s2 := Step(s1, InitKey(7));
    StageLock(s2, 1, [2]);
    var s3 := Step(s2, Lock(0, []));
    StageTick(s3, 1, [2]);
    var s4 := Step(s3, Tick([]));
    assert Stage(s4, 2, [1]);
    StageRobbed(s4, 2, [1], 1);
    RobbedLater(s3, Tick([]), [Unlock(0)]);
    RobbedLater(s2, Lock(0, []), [Tick([])] + [Unlock(0)]);
    RobbedLater(s1, InitKey(7), [Lock(0, [])] + ([Tick([])] + [Unlock(0)]));
    RobbedLater(s, Tick([]), [InitKey(7)] + ([Lock(0, [])] + ([Tick([])] + [Unlock(0)])));
  }
}
