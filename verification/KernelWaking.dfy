/** Waking sleepers and waiters one at a time. */
module KernelWaking {
  import opened KernelState
  import opened KernelSteps
  import opened ListMemory
  import opened KernelMemory

  /** The j-th task of queue i, which is not the scheduler's, becomes ready. */
  ghost function Wake(s: State, i: nat, j: nat): State
    requires 1 <= i < Heads(s) && j < |QueueOf(s, i)| && QueueOf(s, i)[j] < |s.status| == |s.place|
  {
    var t := QueueOf(s, i)[j];
    var r := s.(ready := s.ready + [t], status := s.status[t := Ready], place := s.place[t := ReadyQueue]);
    if i == 1 then r.(sleep := Without(s.sleep, j)) else r.(waiting := s.waiting[i - 2 := Without(s.waiting[i - 2], j)])
  }

  lemma HoldsWithout(place: seq<Place>, q: seq<nat>, p: Place, j: nat, p': Place)
    requires Holds(place, q, p) && j < |q| && p' != p
    ensures q[j] < |place| && Holds(place[q[j] := p'], Without(q, j), p)
  {
    assert q[j] in q;
    var r, place' := Without(q, j), place[q[j] := p'];
    forall t | t in r ensures t < |place'| && place'[t] == p {
      var k :| 0 <= k < |r| && r[k] == t;
      var l := if k < j then k else k + 1;
      assert q[l] == t && q[l] in q && l != j;
      assert q[l] != q[j];
    }
    forall t | 0 <= t < |place'| && place'[t] == p ensures t in r {
      var k :| 0 <= k < |q| && q[k] == t;
      assert r[if k < j then k else k - 1] == t;
    }
    forall a, b | 0 <= a < b < |r| ensures r[a] != r[b] {
      assert r[a] == q[if a < j then a else a + 1] && r[b] == q[if b < j then b else b + 1];
    }
  }

  lemma QueueHolds(s: State, i: nat)
    requires Shape(s) && Placed(s) && i < Heads(s)
    ensures Holds(s.place, QueueOf(s, i), PlaceOf(i))
  {
  }

  lemma WakePlaced(s: State, i: nat, j: nat)
    requires Base(s) && 1 <= i < Heads(s) && j < |QueueOf(s, i)|
    ensures QueueOf(s, i)[j] < |s.status| && Shape(Wake(s, i, j)) && Placed(Wake(s, i, j))
  {
    hide RingsOk, LocksOk, StatusAgrees, Without;
    QueueHolds(s, i);
    assert QueueOf(s, i)[j] in QueueOf(s, i);
    var t := QueueOf(s, i)[j];
    var r := Wake(s, i, j);
    HoldsWithout(s.place, QueueOf(s, i), PlaceOf(i), j, ReadyQueue);
    HoldsMore(s.place, s.ready, ReadyQueue, t);
    if i != 1 {
      HoldsSame(s.place, r.place, s.sleep, SleepQueue);
    }
    forall k | 0 <= k < |s.waiting| ensures Holds(r.place, r.waiting[k], LockQueue(k)) {
      if k != i - 2 {
        HoldsSame(s.place, r.place, s.waiting[k], LockQueue(k));
      }
    }
    hide Holds;
  }

  /** Waking one task keeps the state in order and is a move between two queues. */
  lemma WakeKeepsBase(s: State, i: nat, j: nat)
    requires Base(s) && 1 <= i < Heads(s) && j < |QueueOf(s, i)|
    ensures QueueOf(s, i)[j] < |s.status| && Base(Wake(s, i, j)) && Requeued(s, Wake(s, i, j), i, j, 0)
  {
    hide Holds, Without, LocksOk, RingsOk, Placed, StatusAgrees;
    WakePlaced(s, i, j);
    WakeLocks(s, i, j);
    WakeRings(s, i, j);
    WakeStatus(s, i, j);
  }

  lemma WakeRings(s: State, i: nat, j: nat)
    requires Base(s) && 1 <= i < Heads(s) && j < |QueueOf(s, i)| && QueueOf(s, i)[j] < |s.status|
    requires Shape(Wake(s, i, j))
    ensures RingsOk(Wake(s, i, j))
  {
    QueueHolds(s, i);
    assert QueueOf(s, i)[j] in QueueOf(s, i);
    hide Holds, Without, LocksOk, RingsOk;
    RingsKept(s, Wake(s, i, j));
  }

  lemma WakeStatus(s: State, i: nat, j: nat)
    requires Base(s) && 1 <= i < Heads(s) && j < |QueueOf(s, i)| && QueueOf(s, i)[j] < |s.status|
    requires Shape(Wake(s, i, j))
    ensures StatusAgrees(Wake(s, i, j))
  {
    QueueHolds(s, i);
    assert QueueOf(s, i)[j] in QueueOf(s, i);
    hide Holds, Without, LocksOk, RingsOk;
  }

  lemma WakeLocks(s: State, i: nat, j: nat)
    requires Base(s) && 1 <= i < Heads(s) && j < |QueueOf(s, i)| && QueueOf(s, i)[j] < |s.status|
    requires Shape(Wake(s, i, j))
    ensures LocksOk(Wake(s, i, j))
  {
    hide Holds, RingsOk, Without;
  }

  // ---- looking at the sleepers one by one

  lemma {:induction false} DueMore(sleep: seq<nat>, wakeup: seq<nat>, clock: seq<nat>, k: nat)
    requires k < |sleep| <= |clock| && forall i :: 0 <= i < |sleep| ==> sleep[i] < |wakeup|
    ensures Due(sleep[..k + 1], wakeup, clock)
      == Due(sleep[..k], wakeup, clock) + if clock[k] >= wakeup[sleep[k]] then [sleep[k]] else []
    decreases |sleep|
  {
    if k == 0 {
      assert sleep[..1] == [sleep[0]] && sleep[..1][1..] == [] && sleep[..0] == [];
    } else {
      DueMore(sleep[1..], wakeup, clock[1..], k - 1);
      assert sleep[..k + 1][1..] == sleep[1..][..k] && sleep[..k][1..] == sleep[1..][..k - 1];
    }
  }

  lemma {:induction false} AsleepMore(sleep: seq<nat>, wakeup: seq<nat>, clock: seq<nat>, k: nat)
    requires k < |sleep| <= |clock| && forall i :: 0 <= i < |sleep| ==> sleep[i] < |wakeup|
    ensures Asleep(sleep[..k + 1], wakeup, clock)
      == Asleep(sleep[..k], wakeup, clock) + if clock[k] >= wakeup[sleep[k]] then [] else [sleep[k]]
    decreases |sleep|
  {
    if k == 0 {
      assert sleep[..1] == [sleep[0]] && sleep[..1][1..] == [] && sleep[..0] == [];
    } else {
      AsleepMore(sleep[1..], wakeup, clock[1..], k - 1);
      assert sleep[..k + 1][1..] == sleep[1..][..k] && sleep[..k][1..] == sleep[1..][..k - 1];
    }
  }

  lemma {:induction false} DueWithin(sleep: seq<nat>, wakeup: seq<nat>, clock: seq<nat>)
    requires |sleep| <= |clock| && forall i :: 0 <= i < |sleep| ==> sleep[i] < |wakeup|
    ensures |Asleep(sleep, wakeup, clock)| <= |sleep|
    decreases |sleep|
  {
    if sleep != [] {
      DueWithin(sleep[1..], wakeup, clock[1..]);
    }
  }

  /** The state after the first k sleepers have been looked at. */
  ghost function WokenTo(s: State, clock: seq<nat>, k: nat): State
    requires SleepersExist(s) && k <= |s.sleep| <= |clock|
  {
    var due := Due(s.sleep[..k], s.wakeup, clock);
    s.(ready := s.ready + due, sleep := Asleep(s.sleep[..k], s.wakeup, clock) + s.sleep[k..],
       status := SetAll(s.status, due, Ready), place := SetAll(s.place, due, ReadyQueue))
  }

  lemma WokenNone(s: State, clock: seq<nat>)
    requires SleepersExist(s) && |s.sleep| <= |clock|
    ensures WokenTo(s, clock, 0) == s
  {
    assert s.sleep[..0] == [] && SetAll(s.status, [], Ready) == s.status && SetAll(s.place, [], ReadyQueue) == s.place;
  }

  lemma WokenAll(s: State, clock: seq<nat>)
    requires SleepersExist(s) && ClockFor(s, clock)
    ensures WokenTo(s, clock, |s.sleep|) == CheckSleeping(s, clock)
  {
    assert s.sleep[..|s.sleep|] == s.sleep;
  }

  lemma SetAllMore<T>(v: seq<T>, ids: seq<nat>, x: T, t: nat)
    requires t < |v|
    ensures SetAll(v, ids + [t], x) == SetAll(v, ids, x)[t := x]
  {
  }

  /** One more sleeper: it is woken or it stays. */
  lemma WokenStep(s: State, clock: seq<nat>, k: nat)
    requires SleepersExist(s) && k < |s.sleep| <= |clock|
    ensures var a := WokenTo(s, clock, k);
      var j := |Asleep(s.sleep[..k], s.wakeup, clock)|;
      && j < |a.sleep| && a.sleep[j] == s.sleep[k] < |a.status| == |a.place|
      && WokenTo(s, clock, k + 1) == if clock[k] >= s.wakeup[s.sleep[k]] then Wake(a, 1, j) else a
  {
    hide Due, Asleep, SetAll;
    DueMore(s.sleep, s.wakeup, clock, k);
    AsleepMore(s.sleep, s.wakeup, clock, k);
    var a, b := WokenTo(s, clock, k), WokenTo(s, clock, k + 1);
    var due, rest, t := Due(s.sleep[..k], s.wakeup, clock), Asleep(s.sleep[..k], s.wakeup, clock), s.sleep[k];
    assert a.sleep == rest + s.sleep[k..] && a.sleep[|rest|] == t;
    if clock[k] >= s.wakeup[t] {
      SetAllMore(s.status, due, Ready, t);
      SetAllMore(s.place, due, ReadyQueue, t);
      assert b.sleep == Without(a.sleep, |rest|);
      assert b.ready == a.ready + [t];
    } else {
      assert due + [] == due;
      assert s.sleep[k..] == [t] + s.sleep[k + 1..];
      assert rest + [t] + s.sleep[k + 1..] == rest + s.sleep[k..];
    }
  }

  // ---- what the walk over the sleepers does

  /** The sleepers that are due at the start are woken, none is before its time. */
  lemma {:induction false} WokenInTime(sleep: seq<nat>, wakeup: seq<nat>, clock: seq<nat>, i: nat)
    requires |sleep| <= |clock| && (forall k :: 0 <= k < |sleep| ==> sleep[k] < |wakeup|) && NoDup(sleep) && i < |sleep|
    ensures sleep[i] in Due(sleep, wakeup, clock) <==> clock[i] >= wakeup[sleep[i]]
    decreases |sleep|
  {
    var rest, later := sleep[1..], clock[1..];
    var due := if clock[0] >= wakeup[sleep[0]] then [sleep[0]] else [];
    assert Due(sleep, wakeup, clock) == due + Due(rest, wakeup, later);
    hide Due, Asleep;
    NoDupRest(sleep);
    DueSplits(rest, wakeup, later);
    if i > 0 {
      assert sleep[i] == rest[i - 1] && sleep[i] != sleep[0];
      WokenInTime(rest, wakeup, later, i - 1);
    }
  }

  /** a is b without some of its elements. */
  ghost predicate InOrderOf(a: seq<nat>, b: seq<nat>) {
    a == [] || (b != [] && if a[0] == b[0] then InOrderOf(a[1..], b[1..]) else InOrderOf(a, b[1..]))
  }

  lemma {:induction false} InOrderMore(a: seq<nat>, b: seq<nat>, x: nat)
    requires InOrderOf(a, b) && x !in a
    ensures InOrderOf(a, [x] + b) && InOrderOf([x] + a, [x] + b)
  {
    assert ([x] + b)[1..] == b && ([x] + a)[1..] == a;
  }

  /** Both the woken and the others keep their order. */
  lemma {:induction false} WakingKeepsOrder(sleep: seq<nat>, wakeup: seq<nat>, clock: seq<nat>)
    requires |sleep| <= |clock| && (forall k :: 0 <= k < |sleep| ==> sleep[k] < |wakeup|) && NoDup(sleep)
    ensures InOrderOf(Due(sleep, wakeup, clock), sleep) && InOrderOf(Asleep(sleep, wakeup, clock), sleep)
    decreases |sleep|
  {
    if sleep != [] {
      NoDupRest(sleep);
      var rest, later := sleep[1..], clock[1..];
      DueSplits(rest, wakeup, later);
      WakingKeepsOrder(rest, wakeup, later);
      InOrderMore(Due(rest, wakeup, later), rest, sleep[0]);
      InOrderMore(Asleep(rest, wakeup, later), rest, sleep[0]);
      assert [] + Due(rest, wakeup, later) == Due(rest, wakeup, later);
      assert [] + Asleep(rest, wakeup, later) == Asleep(rest, wakeup, later);
    }
  }
}
