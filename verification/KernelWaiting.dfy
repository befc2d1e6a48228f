/** What calls for a lock mean for the calls that follow them. */
module KernelWaiting {
  import opened KernelState
  import opened KernelSteps
  import opened KernelRuns
  import opened KernelLocks
  import opened KernelSleeping

  /** A free lock is the caller's at once. */
  lemma FreeLockTaken(s: State, k: nat, clock: seq<nat>)
    requires Enabled(s, Lock(k, clock)) && Shape(s) && k < |s.keys| && s.keys[k] != NO_KEY && !s.locked[k]
    ensures var r := Step(s, Lock(k, clock));
      Shape(r) && k < |r.keys| && HasLock(r, k, s.current) && r.current == s.current
  {
    InvBase(s);
    StepLocks(s, Lock(k, clock));
  }

  /** The task is the i-th in the queue of the lock, and neither runs nor is ready. */
  ghost predicate InQueue(s: State, k: nat, i: nat, t: nat) {
    && Shape(s) && k < |s.keys| && s.locked[k] && i < |s.waiting[k]| && s.waiting[k][i] == t
    && t < |s.status| && s.status[t] == Blocked && s.current != t && t !in s.ready && t !in s.sleep
  }

  lemma WaiterBlocked(s: State, k: nat, i: nat, t: nat)
    requires Inv(s) && Shape(s) && k < |s.keys| && WaitsAt(s, k, i, t)
    ensures InQueue(s, k, i, t)
  {
    assert t in s.waiting[k];
  }

  /** The one that is given the lock is ready. */
  lemma FirstWoken(s: State, e: Event, k: nat, t: nat)
    requires Enabled(s, e) && Shape(s) && k < |s.keys| && Releases(s, e, k) && WaitsAt(s, k, 0, t)
    ensures t in Step(s, e).ready
  {
    WaiterBlocked(s, k, 0, t);
  }

  /** A task that calls for a lock that is taken is last in its queue.  It neither runs nor is ready before all those
      in front of it and the present holder have released the lock; with the release after these it is given the lock
      and made ready. */
  lemma WaitsForLock(s: State, es: seq<Event>, k: nat, clock: seq<nat>)
    requires Inv(s) && Shape(s) && k < |s.keys| && Waits(s, k) && Possible(s, [Lock(k, clock)] + es)
    ensures var s', i := Step(s, Lock(k, clock)), |s.waiting[k]|;
      && Possible(s', es) && Shape(s') && k < |s'.keys|
      && var r, n := Run(s', es), ReleasesIn(s', es, k);
        n <= i ==>
          && InQueue(r, k, i - n, s.current)
          && forall e :: Enabled(r, e) && Releases(r, e, k) && n == i ==>
            && Shape(Step(r, e)) && k < |Step(r, e).keys| && Step(r, e).holders[k] == [s.current]
            && s.current in Step(r, e).ready
  {
    hide Enabled, Step, Inv, InQueue, Releases;
    var e, all, t, i := Lock(k, clock), [Lock(k, clock)] + es, s.current, |s.waiting[k]|;
    assert all[0] == e && all[1..] == es;
    LastInQueue(s, k, clock);
    StepKeepsInv(s, e);
    InvShape(s, e);
    var s' := Step(s, e);
    var n := ReleasesIn(s', es, k);
    if n <= i {
      WaitersInOrder(s', es, k, i, t);
      RunKeepsInv(s', es);
      var r := Run(s', es);
      WaiterBlocked(r, k, i - n, t);
      forall e | Enabled(r, e) && Releases(r, e, k) && n == i ensures t in Step(r, e).ready {
        FirstWoken(r, e, k, t);
      }
    }
  }

  lemma LastInQueue(s: State, k: nat, clock: seq<nat>)
    requires Enabled(s, Lock(k, clock)) && Shape(s) && k < |s.keys| && Waits(s, k)
    ensures var r := Step(s, Lock(k, clock));
      Shape(r) && k < |r.keys| && WaitsAt(r, k, |s.waiting[k]|, s.current)
  {
    InvBase(s);
    StepLocks(s, Lock(k, clock));
  }

  /** After a key has been asked for there is a lock with it, if there was one or one was free; and no other key has
      come or gone. */
  lemma KeyGiven(s: State, key: int)
    requires Enabled(s, InitKey(key))
    ensures var r := Step(s, InitKey(key));
      && (key in r.keys <==> key in s.keys || NO_KEY in s.keys)
      && forall other :: other != key && other != NO_KEY ==> (other in r.keys <==> other in s.keys)
  {
    var r, free := Step(s, InitKey(key)), LockIndex(s.keys, NO_KEY, 0);
    if r.keys != s.keys {
      assert r.keys[free] == key;
      forall other | other != key && other != NO_KEY && other in s.keys ensures other in r.keys {
        var j :| 0 <= j < |s.keys| && s.keys[j] == other;
        assert r.keys[j] == other;
      }
    }
  }
}
