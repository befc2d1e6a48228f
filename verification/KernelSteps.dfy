/** The system calls as steps of the kernel's state, and what every run of them keeps. */
module KernelSteps {
  import opened KernelState

  // ---- blocking and unblocking

  ghost function BlockSleep(s: State, until: nat): State
    requires Shape(s)
  {
    s.(sleep := s.sleep + [s.current], status := s.status[s.current := Blocked],
       place := s.place[s.current := SleepQueue], wakeup := s.wakeup[s.current := until])
  }

  ghost function BlockWait(s: State, k: nat): State
    requires Shape(s) && k < |s.waiting|
  {
    s.(waiting := s.waiting[k := s.waiting[k] + [s.current]], status := s.status[s.current := Blocked],
       place := s.place[s.current := LockQueue(k)])
  }

  ghost function ExitCurrent(s: State): State
    requires Shape(s)
  {
    s.(status := s.status[s.current := Exited], place := s.place[s.current := Gone])
  }

  lemma HoldsMore(place: seq<Place>, q: seq<nat>, p: Place, t: nat)
    requires Holds(place, q, p) && t < |place| && place[t] != p
    ensures Holds(place[t := p], q + [t], p)
  {
    assert t !in q;
    NoDupAppend(q, [t]);
  }

  lemma HoldsFewer(place: seq<Place>, q: seq<nat>, p: Place, p': Place)
    requires Holds(place, q, p) && q != [] && p' != p
    ensures q[0] < |place| && Holds(place[q[0] := p'], q[1..], p)
  {
    NoDupRest(q);
    assert q[0] in q;
    var rest, place' := q[1..], place[q[0] := p'];
    forall t | t in rest ensures t < |place'| && place'[t] == p {
      assert t in q;
    }
    forall t | 0 <= t < |place'| && place'[t] == p ensures t in rest {
      assert t in [q[0]] + rest;
    }
  }

  lemma BlockSleepLeaves(s: State, until: nat)
    requires Inv(s) && s.current > 0
    ensures Leaving(BlockSleep(s, until))
  {
    var r := BlockSleep(s, until);
    HoldsMore(s.place, s.sleep, SleepQueue, s.current);
    HoldsSame(s.place, r.place, s.ready, ReadyQueue);
    forall k | 0 <= k < |s.waiting| ensures Holds(r.place, s.waiting[k], LockQueue(k)) {
      HoldsSame(s.place, r.place, s.waiting[k], LockQueue(k));
    }
    hide Holds, NoDup;
    RingsKept(s, r);
  }

  lemma BlockWaitLeaves(s: State, k: nat)
    requires Inv(s) && s.current > 0 && k < |s.waiting| && s.locked[k]
    ensures Leaving(BlockWait(s, k))
  {
    var r := BlockWait(s, k);
    HoldsMore(s.place, s.waiting[k], LockQueue(k), s.current);
    HoldsSame(s.place, r.place, s.ready, ReadyQueue);
    HoldsSame(s.place, r.place, s.sleep, SleepQueue);
    forall j | 0 <= j < |s.waiting| ensures Holds(r.place, r.waiting[j], LockQueue(j)) {
      if j != k {
        HoldsSame(s.place, r.place, s.waiting[j], LockQueue(j));
      }
    }
    hide Holds, NoDup;
    RingsKept(s, r);
  }

  lemma ExitLeaves(s: State)
    requires Inv(s) && s.current > 0
    ensures Leaving(ExitCurrent(s))
  {
    var r := ExitCurrent(s);
    HoldsSame(s.place, r.place, s.ready, ReadyQueue);
    HoldsSame(s.place, r.place, s.sleep, SleepQueue);
    forall k | 0 <= k < |s.waiting| ensures Holds(r.place, s.waiting[k], LockQueue(k)) {
      HoldsSame(s.place, r.place, s.waiting[k], LockQueue(k));
    }
    hide Holds, NoDup;
    RingsKept(s, r);
  }

  // ---- the steps

  ghost predicate Runs(s: State) {
    Inv(s) && s.current > 0
  }

  ghost function Sleep(s: State, until: nat, clock: seq<nat>): State
    requires Runs(s) && ClockFor(BlockSleep(s, until), clock)
  {
    BlockSleepLeaves(s, until);
    Schedule(BlockSleep(s, until), clock)
  }

  ghost function Exit(s: State, clock: seq<nat>): State
    requires Runs(s) && ClockFor(s, clock)
  {
    ExitLeaves(s);
    Schedule(ExitCurrent(s), clock)
  }

  /** A lock without a key is no lock; a free one is taken at once; otherwise the task waits. */
  ghost function Acquire(s: State, k: nat, clock: seq<nat>): State
    requires Runs(s) && k < |s.keys| && ClockFor(s, clock)
  {
    if s.keys[k] == NO_KEY then s
    else if !s.locked[k] then s.(locked := s.locked[k := true], holders := s.holders[k := [s.current]])
    else
      BlockWaitLeaves(s, k);
      Schedule(BlockWait(s, k), clock)
  }

  /** The lock goes to the first waiting task, or becomes free. */
  ghost function Release(s: State, k: nat): State
    requires Shape(s) && k < |s.keys|
  {
    if s.keys[k] == NO_KEY then s
    else if s.waiting[k] == [] then s.(locked := s.locked[k := false], holders := s.holders[k := []])
    else
      var t := s.waiting[k][0];
      if t >= |s.status| then s
      else
        s.(waiting := s.waiting[k := s.waiting[k][1..]], ready := s.ready + [t], status := s.status[t := Ready],
           place := s.place[t := ReadyQueue], holders := s.holders[k := [t]])
  }

  /** The index of the key, or of a free lock. */
  ghost function LockIndex(keys: seq<int>, key: int, i: nat): (r: int)
    requires i <= |keys|
    ensures -1 <= r < |keys|
    ensures r >= 0 ==> i <= r && keys[r] == key && forall j :: i <= j < r ==> keys[j] != key
    ensures r == -1 ==> forall j :: i <= j < |keys| ==> keys[j] != key
    decreases |keys| - i
  {
    if i == |keys| then -1 else if keys[i] == key then i else LockIndex(keys, key, i + 1)
  }

  ghost function InitLock(s: State, key: int): State
    requires Shape(s)
  {
    var free := LockIndex(s.keys, NO_KEY, 0);
    if LockIndex(s.keys, key, 0) >= 0 || free < 0 then s else s.(keys := s.keys[free := key])
  }

  // ---- threads

  ghost function Position(q: seq<nat>, t: nat): (i: nat)
    requires t in q
    ensures i < |q| && q[i] == t
  {
    if q[0] == t then 0 else 1 + Position(q[1..], t)
  }

  /** A new thread behind the running one in its ring, parked. */
  ghost function Create(s: State): State
    requires Shape(s) && RingsOk(s) && s.current > 0
  {
    var g := s.ring[s.current];
    assert s.current in s.rings[g];
    var i := Position(s.rings[g], s.current);
    s.(status := s.status + [Ready], wakeup := s.wakeup + [0], place := s.place + [Parked], ring := s.ring + [g],
       rings := s.rings[g := s.rings[g][..i + 1] + [|s.status|] + s.rings[g][i + 1..]])
  }

  lemma RingMember(s: State, g: nat, t: nat)
    requires Shape(s) && RingsOk(s) && g < |s.rings|
    ensures t in s.rings[g] <==> 0 < t < |s.ring| && s.ring[t] == g
  {
  }

  /** The thread behind the running one in its ring. */
  ghost function Successor(s: State): (t: nat)
    requires Shape(s) && RingsOk(s) && s.current > 0
    ensures 0 < t < |s.ring| && s.ring[t] == s.ring[s.current]
  {
    var q := s.rings[s.ring[s.current]];
    assert s.current in q;
    var i := Position(q, s.current);
    var t := q[if i + 1 < |q| then i + 1 else 0];
    RingMember(s, s.ring[s.current], t);
    t
  }

  /** The running thread is parked and the next one of its ring runs. */
  ghost function YieldThread(s: State): State
    requires Shape(s) && RingsOk(s) && s.current > 0
  {
    var t := Successor(s);
    s.(current := t, status := s.status[s.current := Ready][t := Running],
       place := s.place[s.current := Parked][t := Cpu])
  }

  // ---- every step keeps the invariant

  /** Blocking and exiting keep it exactly when some task is ready after the sleepers are woken. */
  lemma SleepKeepsInvIff(s: State, until: nat, clock: seq<nat>)
    requires Runs(s) && ClockFor(BlockSleep(s, until), clock)
    ensures SleepersExist(BlockSleep(s, until))
    ensures Inv(Sleep(s, until, clock)) <==> CheckSleeping(BlockSleep(s, until), clock).ready != []
  {
    BlockSleepLeaves(s, until);
    SchedulerKeepsInvIff(BlockSleep(s, until), clock);
  }

  lemma ExitKeepsInvIff(s: State, clock: seq<nat>)
    requires Runs(s) && ClockFor(s, clock)
    ensures SleepersExist(ExitCurrent(s))
    ensures Inv(Exit(s, clock)) <==> CheckSleeping(ExitCurrent(s), clock).ready != []
  {
    ExitLeaves(s);
    SchedulerKeepsInvIff(ExitCurrent(s), clock);
  }

  lemma AcquireKeepsInvIff(s: State, k: nat, clock: seq<nat>)
    requires Runs(s) && k < |s.keys| && ClockFor(s, clock)
    ensures SleepersExist(BlockWait(s, k))
    ensures Inv(Acquire(s, k, clock)) <==>
      s.keys[k] == NO_KEY || !s.locked[k] || CheckSleeping(BlockWait(s, k), clock).ready != []
  {
    PlacedSleepers(s);
    if s.keys[k] != NO_KEY && s.locked[k] {
      BlockWaitLeaves(s, k);
      SchedulerKeepsInvIff(BlockWait(s, k), clock);
    }
  }

  lemma ReleasePlaced(s: State, k: nat)
    requires Inv(s) && k < |s.keys| && s.waiting[k] != [] && s.keys[k] != NO_KEY
    ensures s.waiting[k][0] < |s.status| && Shape(Release(s, k)) && Placed(Release(s, k)) && StatusAgrees(Release(s, k))
  {
    var r, t := Release(s, k), s.waiting[k][0];
    assert t in s.waiting[k];
    HoldsFewer(s.place, s.waiting[k], LockQueue(k), ReadyQueue);
    HoldsMore(s.place, s.ready, ReadyQueue, t);
    HoldsSame(s.place, r.place, s.sleep, SleepQueue);
    forall j | 0 <= j < |s.waiting| ensures Holds(r.place, r.waiting[j], LockQueue(j)) {
      if j != k {
        HoldsSame(s.place, r.place, s.waiting[j], LockQueue(j));
      }
    }
  }

  lemma ReleaseKeepsInv(s: State, k: nat)
    requires Inv(s) && k < |s.keys|
    ensures Inv(Release(s, k))
  {
    if s.keys[k] != NO_KEY && s.waiting[k] != [] {
      ReleasePlaced(s, k);
      assert s.waiting[k][0] in s.waiting[k];
      hide Holds, NoDup;
      RingsKept(s, Release(s, k));
      hide RingsOk;
    }
  }

  lemma InitLockKeepsInv(s: State, key: int)
    requires Inv(s)
    ensures Inv(InitLock(s, key))
  {
    hide Holds, NoDup;
    RingsKept(s, InitLock(s, key));
    hide RingsOk;
  }

  lemma CreateKeepsInv(s: State)
    requires Runs(s)
    ensures Inv(Create(s))
  {
    var r := Create(s);
    CreatePlaced(s);
    CreateRings(s);
    hide Holds, NoDup, RingsOk;
  }

  lemma HoldsGrown(place: seq<Place>, q: seq<nat>, p: Place, x: Place)
    requires Holds(place, q, p) && x != p
    ensures Holds(place + [x], q, p)
  {
  }

  lemma CreatePlaced(s: State)
    requires Runs(s)
    ensures Shape(Create(s)) && Placed(Create(s))
  {
    var r := Create(s);
    hide Position;
    HoldsGrown(s.place, s.ready, ReadyQueue, Parked);
    HoldsGrown(s.place, s.sleep, SleepQueue, Parked);
    forall k | 0 <= k < |s.waiting| ensures Holds(r.place, s.waiting[k], LockQueue(k)) {
      HoldsGrown(s.place, s.waiting[k], LockQueue(k), Parked);
    }
  }

  lemma InsertNoDup(q: seq<nat>, i: nat, t: nat)
    requires NoDup(q) && t !in q && i <= |q|
    ensures NoDup(q[..i] + [t] + q[i..]) && forall u :: u in q[..i] + [t] + q[i..] <==> u in q || u == t
  {
    var r := q[..i] + [t] + q[i..];
    assert q == q[..i] + q[i..];
    forall j, k | 0 <= j < k < |r| ensures r[j] != r[k] {
      assert j < i ==> r[j] == q[j];
      assert k < i ==> r[k] == q[k];
      assert j > i ==> r[j] == q[j - 1];
      assert k > i ==> r[k] == q[k - 1];
    }
  }

  lemma CreateRings(s: State)
    requires Runs(s)
    ensures Shape(Create(s)) && RingsOk(Create(s))
  {
    var r, g, n := Create(s), s.ring[s.current], |s.ring|;
    var q := s.rings[g];
    assert s.current in q;
    var i := Position(q, s.current);
    RingMember(s, g, n);
    InsertNoDup(q, i + 1, n);
    forall h | 0 <= h < |r.rings| ensures Members(r.rings[h], r.ring, h) {
      assert Members(s.rings[h], s.ring, h);
    }
    forall a, b | 0 < a < |r.ring| && 0 < b < |r.ring| && a != b && r.ring[a] == r.ring[b] && Active(r.place[a])
      ensures r.place[b] == Parked
    {
      if b < n {
        assert a < n;
      }
    }
  }

  /** The next thread of the ring is parked, so that it is in no queue, or it is the running one. */
  lemma SuccessorIsParked(s: State)
    requires Runs(s)
    ensures Successor(s) == s.current || s.place[Successor(s)] == Parked
    ensures Successor(s) != s.current ==>
      && Successor(s) !in s.ready && Successor(s) !in s.sleep
      && forall k :: 0 <= k < |s.waiting| ==> Successor(s) !in s.waiting[k]
  {
    hide Successor, Position;
    assert Active(s.place[s.current]);
  }

  lemma YieldKeepsInv(s: State)
    requires Runs(s)
    ensures Inv(YieldThread(s)) && YieldThread(s).current == Successor(s)
  {
    var r, t := YieldThread(s), Successor(s);
    SuccessorIsParked(s);
    YieldPlaced(s);
    YieldRings(s);
    hide Holds, NoDup, RingsOk, Successor;
  }

  lemma YieldPlaced(s: State)
    requires Runs(s) && (Successor(s) == s.current || s.place[Successor(s)] == Parked)
    ensures Shape(YieldThread(s)) && Placed(YieldThread(s)) && StatusAgrees(YieldThread(s))
  {
    hide Successor;
    var r := YieldThread(s);
    HoldsSame(s.place, r.place, s.ready, ReadyQueue);
    HoldsSame(s.place, r.place, s.sleep, SleepQueue);
    forall k | 0 <= k < |s.waiting| ensures Holds(r.place, s.waiting[k], LockQueue(k)) {
      HoldsSame(s.place, r.place, s.waiting[k], LockQueue(k));
    }
  }

  lemma YieldRings(s: State)
    requires Runs(s) && (Successor(s) == s.current || s.place[Successor(s)] == Parked)
    ensures Shape(YieldThread(s)) && RingsOk(YieldThread(s))
  {
    hide Successor, Holds, NoDup;
    var r, t, c := YieldThread(s), Successor(s), s.current;
    assert s.ring[t] == s.ring[c];
    forall a, b | 0 < a < |r.ring| && 0 < b < |r.ring| && a != b && r.ring[a] == r.ring[b] && Active(r.place[a])
      ensures r.place[b] == Parked
    {
      if a == t {
        assert b != c ==> s.place[b] == Parked;
      } else {
        assert Active(s.place[a]);
        assert b == t ==> s.ring[c] == s.ring[a];
      }
    }
  }

  // ---- no thread is lost, except by exiting

  lemma OnlyOne(q: seq<nat>, c: nat)
    requires NoDup(q) && c in q
    ensures (forall i :: 0 <= i < |q| ==> q[i] == c) ==> q == [c]
  {
    assert |q| > 1 ==> q[0] != q[1];
  }

  /** Exiting loses threads exactly when there are others in the ring: they are parked for ever. */
  lemma ExitKeepsNoneLostIff(s: State, clock: seq<nat>)
    requires Runs(s) && NoneLost(s) && ClockFor(s, clock)
    ensures SleepersExist(ExitCurrent(s)) && Shape(CheckSleeping(ExitCurrent(s), clock))
    ensures NoneLost(ExitCurrent(s)) <==> s.rings[s.ring[s.current]] == [s.current]
  {
    ExitLeaves(s);
    WakingKeepsBase(ExitCurrent(s), clock);
    hide NoneLost, RingsOk, Placed, StatusAgrees, LocksOk;
    var c := s.current;
    if t :| 0 < t < |s.ring| && t != c && s.ring[t] == s.ring[c] {
      ExitStrands(s, t);
    } else {
      ExitAlone(s);
    }
  }

  /** Another thread of the ring is parked, and nobody in the ring is active any more. */
  lemma ExitStrands(s: State, t: nat)
    requires Runs(s) && 0 < t < |s.ring| && t != s.current && s.ring[t] == s.ring[s.current]
    ensures !NoneLost(ExitCurrent(s)) && s.ring[s.current] < |s.rings| && s.rings[s.ring[s.current]] != [s.current]
  {
    var r, c := ExitCurrent(s), s.current;
    assert Active(s.place[c]);
    assert r.place[t] == Parked;
    assert forall a :: 0 < a < |r.place| && r.ring[a] == r.ring[t] ==> !Active(r.place[a]);
    RingMember(s, s.ring[c], t);
  }

  lemma ExitAlone(s: State)
    requires Runs(s) && NoneLost(s)
    requires forall t :: 0 < t < |s.ring| && s.ring[t] == s.ring[s.current] ==> t == s.current
    ensures NoneLost(ExitCurrent(s)) && s.ring[s.current] < |s.rings| && s.rings[s.ring[s.current]] == [s.current]
  {
    var r, c := ExitCurrent(s), s.current;
    var q := s.rings[s.ring[c]];
    RingMember(s, s.ring[c], c);
    forall i | 0 <= i < |q| ensures q[i] == c {
      RingMember(s, s.ring[c], q[i]);
      assert q[i] in q;
    }
    OnlyOne(q, c);
    forall t | 0 < t < |r.place| && r.place[t] == Parked
      ensures exists a :: 0 < a < |r.place| && r.ring[a] == r.ring[t] && Active(r.place[a])
    {
      var a :| 0 < a < |s.place| && s.ring[a] == s.ring[t] && Active(s.place[a]);
      assert a != c;
    }
  }
}
