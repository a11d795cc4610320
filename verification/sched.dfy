/** The run ring: round robin among the runnable threads of highest priority. */
module Sched {
  datatype State = Runnable | Running | Sleeping | Blocked | Exited | Zombie

  datatype Thread = Thread(state: State, priority: int, wakeTick: nat, chan: nat, parent: nat, status: int, next: nat)

  type Table = map<nat, Thread>

  const SLICE: int := 10

  // ----- the ring -----

  predicate NoDup(l: seq<nat>) {
    forall i, j :: 0 <= i < j < |l| ==> l[i] != l[j]
  }

  function NextOf(l: seq<nat>, i: nat): nat
    requires i < |l|
  {
    if i + 1 < |l| then l[i + 1] else l[0]
  }

  ghost predicate NodeOk(th: Table, l: seq<nat>, i: int) {
    0 <= i < |l| ==> l[i] in th && th[l[i]].next == NextOf(l, i)
  }

  /** The next links are one cycle through every thread, l being its order from the current one on. */
  ghost predicate Cycle(th: Table, l: seq<nat>) {
    l != [] && NoDup(l) && th.Keys == (set t | t in l) && 0 !in l && forall i :: NodeOk(th, l, i)
  }

  function Rotated(l: seq<nat>, m: nat): seq<nat>
    requires m <= |l|
  {
    l[m..] + l[..m]
  }

  lemma RotateCycle(th: Table, l: seq<nat>, m: nat)
    requires Cycle(th, l) && m < |l|
    ensures Cycle(th, Rotated(l, m)) && Rotated(l, m)[0] == l[m]
  {
    var r := Rotated(l, m);
    assert forall t :: t in r <==> t in l by {
      forall t | t in l ensures t in r {
        var i :| 0 <= i < |l| && l[i] == t;
        assert r[if i >= m then i - m else i + |l| - m] == t;
      }
    }
    forall i, j | 0 <= i < j < |r| ensures r[i] != r[j] {
      assert r[i] == l[if i < |l| - m then i + m else i - (|l| - m)];
      assert r[j] == l[if j < |l| - m then j + m else j - (|l| - m)];
    }
    forall i ensures NodeOk(th, r, i) {
      assert NodeOk(th, l, if i < |l| - m then i + m else i - (|l| - m));
    }
  }

  /** The same links with other fields changed. */
  lemma SameCycle(th: Table, th': Table, l: seq<nat>)
    requires Cycle(th, l) && th'.Keys == th.Keys && forall t :: t in th ==> th'[t].next == th[t].next
    ensures Cycle(th', l)
  {
    forall i ensures NodeOk(th', l, i) { assert NodeOk(th, l, i); }
  }

  // ----- whom schedule() picks -----

  /** The order of schedule()'s scan: from the one after current round to current itself. */
  function Scan(l: seq<nat>): (r: seq<nat>)
    requires l != []
    ensures |r| == |l|
  {
    l[1..] + [l[0]]
  }

  predicate CanRun(th: Table, t: nat) {
    t in th && th[t].state == Runnable
  }

  /** Among the first n of the scan, the j-th has the highest priority, and is the first that has. */
  ghost predicate First(th: Table, c: seq<nat>, n: nat, j: nat)
    requires n <= |c|
  {
    j < n && CanRun(th, c[j])
    && (forall k :: 0 <= k < n && CanRun(th, c[k]) ==> th[c[k]].priority <= th[c[j]].priority)
    && (forall k :: 0 <= k < j && CanRun(th, c[k]) ==> th[c[k]].priority < th[c[j]].priority)
  }

  ghost predicate NoneRuns(th: Table, c: seq<nat>, n: nat)
    requires n <= |c|
  {
    forall k :: 0 <= k < n ==> !CanRun(th, c[k])
  }

  /** schedule() starts by making a running current thread runnable. */
  function Yielded(th: Table, cur: nat): Table {
    if cur in th && th[cur].state == Running then th[cur := th[cur].(state := Runnable)] else th
  }

  /** What schedule() does: the first of the highest-priority runnable threads after current runs. */
  ghost predicate Scheduled(th: Table, l: seq<nat>, th': Table, l': seq<nat>)
    requires l != []
  {
    var y, c := Yielded(th, l[0]), Scan(l);
    exists j :: 0 <= j < |c| && First(y, c, |c|, j)
      && th' == y[c[j] := y[c[j]].(state := Running)]
      && l' == if j == |l| - 1 then l else Rotated(l, j + 1)
  }

  /** The thread that runs next stands m places down the ring, and the ring is seen from it; the current
      thread itself comes last. No runnable thread has a higher priority, and none in front of the chosen
      one has the same. Nothing else changes but the state of the one that ran. */
  lemma ScheduledIs(th: Table, l: seq<nat>, th': Table, l': seq<nat>) returns (m: nat)
    requires Cycle(th, l) && Scheduled(th, l, th', l')
    ensures m < |l| && l' == l[m..] + l[..m] && forall k :: 0 <= k < |l| ==> l[k] in th
    ensures th[l[m]].state == Runnable || (m == 0 && th[l[0]].state == Running)
    ensures forall k :: 0 <= k < |l| && (th[l[k]].state == Runnable || (k == 0 && th[l[0]].state == Running)) ==>
      th[l[k]].priority <= th[l[m]].priority && (0 < k && (k < m || m == 0) ==> th[l[k]].priority < th[l[m]].priority)
    ensures th'.Keys == th.Keys
    ensures forall a :: a in th ==>
      th'[a] == (if a == l[m] then th[a].(state := Running)
                 else if a == l[0] && th[a].state == Running then th[a].(state := Runnable) else th[a])
  {
    hide Cycle, NodeOk, First, Yielded, Scan, Rotated, NoDup, Scheduled;
    OnceEach(th, l);
    var j := PickOf(th, l, th', l');
    m := if j == |l| - 1 then 0 else j + 1;
    TurnIs(l, j, m);
    RunsNext(th, l[0], l[m]);
    PickedIs(th, l, j, m);
  }

  lemma OnceEach(th: Table, l: seq<nat>)
    requires Cycle(th, l)
    ensures NoDup(l) && l != [] && forall k :: 0 <= k < |l| ==> l[k] in th
  {
  }

  lemma PickOf(th: Table, l: seq<nat>, th': Table, l': seq<nat>) returns (j: nat)
    requires l != [] && Scheduled(th, l, th', l')
    ensures j < |l| && First(Yielded(th, l[0]), Scan(l), |l|, j) && l' == if j == |l| - 1 then l else Rotated(l, j + 1)
    ensures var y, t := Yielded(th, l[0]), Scan(l)[j]; t in y && th' == y[t := y[t].(state := Running)]
  {
    var y, c := Yielded(th, l[0]), Scan(l);
    j :| 0 <= j < |c| && First(y, c, |c|, j) && th' == y[c[j] := y[c[j]].(state := Running)]
      && l' == if j == |l| - 1 then l else Rotated(l, j + 1);
  }

  lemma TurnIs(l: seq<nat>, j: nat, m: nat)
    requires j < |l| && m == if j == |l| - 1 then 0 else j + 1
    ensures Scan(l)[j] == l[m] && l[m..] + l[..m] == if j == |l| - 1 then l else Rotated(l, j + 1)
  {
    assert l == l[0..] + l[..0];
  }

  lemma RunsNext(th: Table, cur: nat, t: nat)
    requires cur in th && t in th
    ensures var y := Yielded(th, cur);
      t in y && y.Keys == th.Keys && forall a :: a in th ==>
        y[t := y[t].(state := Running)][a] ==
          (if a == t then th[a].(state := Running)
           else if a == cur && th[a].state == Running then th[a].(state := Runnable) else th[a])
  {
  }

  lemma PickedIs(th: Table, l: seq<nat>, j: nat, m: nat)
    requires l != [] && NoDup(l) && (forall k :: 0 <= k < |l| ==> l[k] in th) && j < |l| && m == (if j == |l| - 1 then 0 else j + 1)
    requires First(Yielded(th, l[0]), Scan(l), |l|, j)
    ensures th[l[m]].state == Runnable || (m == 0 && th[l[0]].state == Running)
    ensures forall k :: 0 <= k < |l| && (th[l[k]].state == Runnable || (k == 0 && th[l[0]].state == Running)) ==>
      th[l[k]].priority <= th[l[m]].priority && (0 < k && (k < m || m == 0) ==> th[l[k]].priority < th[l[m]].priority)
  {
    var y, c := Yielded(th, l[0]), Scan(l);
    assert c[j] == l[m];
    forall k | 0 <= k < |l| ensures l[k] in y && y[l[k]].priority == th[l[k]].priority
      && (y[l[k]].state == Runnable <==> th[l[k]].state == Runnable || (k == 0 && th[l[0]].state == Running)) {
      assert k > 0 ==> l[k] != l[0];
    }
    hide NoDup, Yielded, Scan;
    forall k | 0 <= k < |l| && (th[l[k]].state == Runnable || (k == 0 && th[l[0]].state == Running))
      ensures th[l[k]].priority <= th[l[m]].priority && (0 < k && (k < m || m == 0) ==> th[l[k]].priority < th[l[m]].priority)
    {
      var i := if k == 0 then |l| - 1 else k - 1;
      assert c[i] == l[k] by { ScanOf(l, k); }
      assert CanRun(y, c[i]);
    }
  }

  lemma ScanOf(l: seq<nat>, k: nat)
    requires k < |l|
    ensures Scan(l)[if k == 0 then |l| - 1 else k - 1] == l[k]
  {
  }

  /** What a caller or an interrupt makes the kernel do to the run ring. */
  datatype Step = Yield | BlockOn(chan: nat) | SleepUntil(tick: nat) | Resumed | WakeOn(chan: nat) | TimerTick
    | Create(t: nat, x: Thread) | WaitChild | ExitWith(status: int)

  /** The idle thread never parks itself, and a new thread is new. */
  predicate Possible(step: Step, th: Table, current: nat, idle: nat) {
    match step
    case BlockOn(_) => current != idle
    case SleepUntil(_) => current != idle
    case ExitWith(_) => current != idle
    case Create(t, x) => t !in th && t != 0 && x.state == Runnable
    case _ => true
  }

  lemma ValidRing(k: Kernel)
    requires k.Valid()
    ensures k.Parked() && k.ring != [] && k.current in k.th
  {
    Head(k.th, k.ring);
  }

  class Kernel {
    var th: Table
    var current: nat
    var slice: int
    var jiffies: nat
    ghost var ring: seq<nat>
    ghost const idle: nat

    ghost predicate Shape()
      reads this
    {
      Cycle(th, ring) && ring[0] == current
    }

    /** Between calls exactly the current thread is running, and the idle thread never sleeps. */
    ghost predicate Valid()
      reads this
    {
      && Shape() && (forall t :: t in th ==> (th[t].state == Running <==> t == current))
      && idle in th && (th[idle].state == Running || th[idle].state == Runnable)
    }

    /** Inside a call the current thread may already be parked. */
    ghost predicate Parked()
      reads this
    {
      && Shape() && (forall t :: t in th && t != current ==> th[t].state != Running)
      && idle in th && (th[idle].state == Runnable || (idle == current && th[idle].state == Running))
    }

    /** sched_init: the boot thread, alone in the ring. */
    constructor (boot: nat)
      requires boot != 0
      ensures Valid() && ring == [boot] && idle == boot && slice == 10 && th == map[boot := Thread(Running, -1, 0, 0, 0, 0, boot)]
    {
      th := map[boot := Thread(Running, -1, 0, 0, 0, 0, boot)];
      current, slice, jiffies := boot, SLICE, 0;
      ring, idle := [boot], boot;
      new;
      assert ring[0] == boot;
    }

    /** The scan of schedule(): the whole ring, starting after current. */
    method Pick() returns (best: nat, ghost j: nat)
      requires Shape() && exists t :: CanRun(th, t)
      ensures ring != [] && CanRun(th, best) && best != 0 && j < |ring| && First(th, Scan(ring), |ring|, j) && best == Scan(ring)[j]
    {
      hide Cycle, NodeOk, NoDup, CanRun, First, NoneRuns;
      Members(th, ring);
      ghost var c := Scan(ring);
      best, j := 0, 0;
      ScanNext(th, ring, |ring| - 1);
      var first := th[current].next;
      var t := first;
      ghost var i: nat := 0;
      ScanNext(th, ring, 0);
      NoneYet(th, c);
      while true
        invariant i < |c| && t == c[i] && j < |c|
        invariant if best == 0 then NoneRuns(th, c, i) else j < i && best == c[j] && First(th, c, i, j)
        decreases |c| - i
      {
        ScanNext(th, ring, i);
        FirstStep(th, c, i, best, j);
        if th[t].state == Runnable {
          if best == 0 || th[t].priority > th[best].priority { best := t; j := i; }
        }
        t := th[t].next;
        i := i + 1;
        if t == first { break; }
      }
      SomeoneRuns(th, ring);
    }

    /** schedule(). */
    method Schedule()
      requires Parked()
      modifies this`th, this`current, this`slice, this`ring
      ensures Valid() && Scheduled(old(th), old(ring), th, ring)
      ensures th.Keys == old(th.Keys) && slice == if current == old(current) then old(slice) else 10
    {
      hide NoDup, Cycle, NodeOk, First, Scan, Rotated, Scheduled, NextOf;
      ghost var th0, l := th, ring;
      Head(th, l);
      if th[current].state == Running { th := th[current := th[current].(state := Runnable)]; }
      ghost var y := th;
      assert y == Yielded(th0, current);
      SameCycle(th0, y, l);
      assert CanRun(y, idle);
      var best, j := Pick();
      th := th[best := th[best].(state := Running)];
      OneRuns(th0, current, best, idle);
      hide CanRun, Yielded;
      SameCycle(y, th, l);
      ScheduledBy(th0, l, j, th);
      ring := Turned(th, l, j, best);
      if best != current {
        current := best;
        slice := SLICE;
      }
    }

    /** The first half of sched_block, of the sleeps and of an exit: park the current thread and let
        somebody else run. */
    method Park(t: Thread)
      requires Valid() && current != idle
      requires t.next == th[current].next && (t.state == Blocked || t.state == Sleeping || t.state == Zombie)
      modifies this`th, this`current, this`slice, this`ring
      ensures Valid() && Scheduled(old(th)[old(current) := t], old(ring), th, ring) && th.Keys == old(th.Keys)
      ensures current != old(current) && th[old(current)] == t
      ensures forall a :: a in th && a != current && a != old(current) ==> th[a] == old(th)[a]
      ensures th[current] == old(th)[current].(state := Running) && old(th)[current].state == Runnable
    {
      hide NoDup, Cycle, NodeOk, First, Scan, Scheduled, Rotated;
      Members(th, ring);
      ghost var th0 := th;
      th := th[current := t];
      SameCycle(th0, th, ring);
      ghost var th1, cur := th, current;
      Schedule();
      SomeoneElse(th1, old(ring), th, ring);
    }

    /** sched_block, up to the moment the thread sleeps. */
    method Block(chan: nat)
      requires Valid() && current != idle
      modifies this`th, this`current, this`slice, this`ring
      ensures Valid() && th.Keys == old(th.Keys) && current != old(current)
      ensures th[old(current)] == old(th)[old(current)].(chan := chan, state := Blocked)
      ensures forall a :: a in th && a != current && a != old(current) ==> th[a] == old(th)[a]
      ensures th[current] == old(th)[current].(state := Running) && old(th)[current].state == Runnable
      ensures Scheduled(old(th)[old(current) := th[old(current)]], old(ring), th, ring)
    {
      hide Cycle, Scheduled;
      Members(th, ring);
      Park(th[current].(chan := chan, state := Blocked));
    }

    /** ... and what is left of it once the thread runs again. */
    method Resume()
      requires Valid()
      modifies this`th
      ensures Valid() && th == old(th)[current := old(th)[current].(chan := 0)]
    {
      hide Cycle;
      ghost var th0 := th;
      Members(th, ring);
      th := th[current := th[current].(chan := 0)];
      SameCycle(th0, th, ring);
    }

    /** sched_wake: every thread waiting on chan can run, nobody else changes. */
    method Wake(chan: nat)
      requires Valid()
      modifies this`th
      ensures Valid() && th.Keys == old(th.Keys) && forall t :: t in th ==> th[t] == Woken(old(th)[t], chan)
      ensures forall t :: t in th ==> var o := old(th)[t];
        if (o.state == Blocked || o.state == Sleeping) && o.chan == chan then th[t] == o.(state := Runnable, chan := 0) else th[t] == o
    {
      hide Cycle, NodeOk, NoDup;
      ghost var th0 := th;
      var t := current;
      ghost var i: nat := 0;
      Members(th, ring);
      while true
        invariant i < |ring| && t == ring[i] && Cycle(th, ring) && th.Keys == th0.Keys && current == ring[0]
        invariant forall k :: 0 <= k < i ==> th[ring[k]] == Woken(th0[ring[k]], chan)
        invariant forall k :: i <= k < |ring| ==> th[ring[k]] == th0[ring[k]]
        decreases |ring| - i
      {
        Members(th, ring);
        RingNext(th, ring, i);
        ghost var th1 := th;
        if (th[t].state == Blocked || th[t].state == Sleeping) && th[t].chan == chan {
          th := th[t := th[t].(state := Runnable, chan := 0)];
          SameCycle(th1, th, ring);
        }
        t := th[t].next;
        i := i + 1;
        if t == current { break; }
      }
      Members(th, ring);
    }

    /** The scan of sched_tick: sleepers whose time has come can run. */
    method WakeDue() returns (preempt: bool)
      requires Valid()
      modifies this`th
      ensures Valid() && th.Keys == old(th.Keys) && forall t :: t in th ==> th[t] == Ticked(old(th)[t], jiffies)
      ensures ring != [] && (preempt <==> Preempts(old(th), ring, |ring|, jiffies))
    {
      hide Cycle, NodeOk, NoDup, Ticked, Preempts, NextOf, Due;
      ghost var th0 := th;
      preempt := false;
      var t := current;
      ghost var i: nat := 0;
      Members(th, ring);
      TickStep(th0, ring, 0, jiffies);
      while true
        invariant i < |ring| && t == ring[i] && Cycle(th, ring) && th.Keys == th0.Keys && current == ring[0]
        invariant forall k :: 0 <= k < i ==> th[ring[k]] == Ticked(th0[ring[k]], jiffies)
        invariant forall k :: i <= k < |ring| ==> th[ring[k]] == th0[ring[k]]
        invariant th[current].priority == th0[current].priority
        invariant preempt <==> Preempts(th0, ring, i, jiffies)
        decreases |ring| - i
      {
        Members(th, ring);
        RingNext(th, ring, i);
        TickStep(th0, ring, i, jiffies);
        ghost var th1 := th;
        if th[t].state == Sleeping && th[t].wakeTick <= jiffies {
          th := th[t := th[t].(state := Runnable)];
          if th[t].priority > th[current].priority { preempt := true; }
          SameCycle(th1, th, ring);
        }
        t := th[t].next;
        i := i + 1;
        if t == current { break; }
        NextIs(ring, i - 1);
      }
      Members(th, ring);
      TickSame(th0, th, jiffies);
    }

    /** sched_tick: wakes sleepers, and asks for a reschedule when one of them outranks the current
        thread or when the slice is used up. */
    method Tick() returns (resched: bool)
      requires Valid()
      modifies this`th, this`slice, this`jiffies
      ensures Valid() && jiffies == old(jiffies) + 1 && th.Keys == old(th.Keys)
      ensures forall t :: t in th ==> th[t] == Ticked(old(th)[t], jiffies)
      ensures ring != [] && (resched <==> old(slice) <= 1 || Preempts(old(th), ring, |ring|, jiffies))
      ensures slice == if resched then 10 else old(slice) - 1
      ensures forall t :: t in th ==> var o := old(th)[t];
        if o.state == Sleeping && o.wakeTick <= jiffies then th[t] == o.(state := Runnable) else th[t] == o
      ensures current in old(th) && (resched <==> old(slice) <= 1 || exists t :: (t in old(th) && old(th)[t].state == Sleeping
        && old(th)[t].wakeTick <= jiffies && old(th)[t].priority > old(th)[current].priority))
    {
      hide Cycle, Preempts;
      PreemptsIs(th, ring, jiffies + 1);
      jiffies := jiffies + 1;
      var preempt := WakeDue();
      if preempt { slice := SLICE; return true; }
      slice := slice - 1;
      if slice <= 0 { slice := SLICE; return true; }
      return false;
    }

    /** thread_exit, from where interrupts are masked: a zombie, a sleeping parent can run, and somebody
        else does. */
    method Exit(status: int)
      requires Valid() && current != idle
      modifies this`th, this`current, this`slice, this`ring
      ensures Valid() && th.Keys == old(th.Keys) && current != old(current)
      ensures th[old(current)] == old(th)[old(current)].(status := status, state := Zombie)
      ensures var w := Roused(old(th), old(th)[old(current)].parent);
        && (forall a :: a in th && a != current && a != old(current) ==> a in w && th[a] == w[a])
        && current in w && w[current].state == Runnable && th[current] == w[current].(state := Running)
        && Scheduled(w[old(current) := th[old(current)]], old(ring), th, ring)
      ensures var p := old(th)[old(current)].parent; forall a :: a in th && a != current && a != old(current) ==> var o := old(th)[a];
        if a == p && o.state == Sleeping then th[a] == o.(state := Runnable) else th[a] == o
      ensures var p, o := old(th)[old(current)].parent, old(th)[current];
        th[current] == o.(state := Running) && (o.state == Runnable || (current == p && o.state == Sleeping))
    {
      hide Cycle, Scheduled;
      Head(th, ring);
      var p := th[current].parent;
      ghost var th0 := th;
      if p in th && th[p].state == Sleeping { th := th[p := th[p].(state := Runnable)]; }
      SameCycle(th0, th, ring);
      ghost var w, cur := th, current;
      assert w == Roused(th0, p) && w[cur] == th0[cur];
      Park(th[current].(status := status, state := Zombie));
      Head(th, ring);
    }

    /** thread_create and sched_fork: the new thread goes in right before current, that is last. */
    method Insert(t: nat, x: Thread)
      requires Valid() && t !in th && t != 0 && x.state == Runnable
      modifies this`th, this`ring
      ensures Valid() && ring == old(ring) + [t] && th.Keys == old(th.Keys) + {t} && th[t] == x.(next := current)
      ensures forall a :: a in old(th) ==> th[a] == old(th)[a].(next := th[a].next)
    {
      hide Cycle, NodeOk, NoDup;
      Members(th, ring);
      var tail := current;
      ghost var i: nat := 0;
      RingNext(th, ring, 0);
      while th[tail].next != current
        invariant Valid() && th == old(th) && ring == old(ring) && current == old(current)
        invariant i < |ring| && tail == ring[i] && tail in th && th[tail].next == NextOf(ring, i)
        decreases |ring| - i
      {
        RingNext(th, ring, i);
        tail := th[tail].next;
        i := i + 1;
        RingNext(th, ring, i);
      }
      RingNext(th, ring, i);
      InsertCycle(th, ring, t, x);
      th := th[tail := th[tail].(next := t)][t := x.(next := current)];
      ring := ring + [t];
      assert ring[0] == current;
    }

    /** The scan of sched_wait: the first zombie child after current and the thread in front of it. */
    method LookForChild() returns (child: nat, prev: nat, any: bool, ghost i: nat)
      requires Valid()
      ensures ring != [] && (child == 0 ==> NoZombie(th, Scan(ring), |ring|, current))
      ensures child == 0 ==> (any <==> SomeChild(th, Scan(ring), |ring|, current))
      ensures child != 0 ==> i < |ring| && prev == ring[i] && child == Scan(ring)[i]
      ensures child != 0 ==> child in th && th[child].parent == current && th[child].state == Zombie
      ensures child != 0 ==> NoZombie(th, Scan(ring), i, current)
    {
      hide Cycle, NodeOk, NoDup, Scan, NoZombie, SomeChild, NextOf;
      Members(th, ring);
      prev := current;
      child, any := 0, false;
      ghost var c := Scan(ring);
      i := 0;
      ChildStep(th, c, 0, current);
      while true
        invariant i < |ring| && prev == ring[i] && child == 0 && NoZombie(th, c, i, current)
        invariant any <==> SomeChild(th, c, i, current)
        decreases |ring| - i
      {
        RingNext(th, ring, i);
        ScanIs(ring, i);
        ChildStep(th, c, i, current);
        var n := th[prev].next;
        if th[n].parent == current {
          any := true;
          if th[n].state == Zombie { child := n; return; }
        }
        prev := n;
        i := i + 1;
        if prev == current { return; }
        NextIs(ring, i - 1);
      }
    }

    /** sched_wait, one look round the ring: the first zombie child after current is unlinked.
        Returns it, 0 if there is none, and whether there is any child at all. */
    method Reap() returns (child: nat, any: bool)
      requires Valid()
      modifies this`th, this`ring
      ensures child == 0 ==> th == old(th) && ring == old(ring) && forall t :: t in th && th[t].parent == current ==> th[t].state != Zombie
      ensures child == 0 ==> (any <==> exists t :: t in th && th[t].parent == current)
      ensures child != 0 ==> exists k :: FirstZombie(old(th), old(ring), k, current) && old(ring)[k] == child && ring == old(ring)[..k] + old(ring)[k + 1..]
      ensures child != 0 ==> exists k :: (0 < k < |old(ring)| && old(ring)[k] == child && ring == old(ring)[..k] + old(ring)[k + 1..]
        && forall j :: 0 < j < k ==>
          old(ring)[j] in old(th) && !(old(th)[old(ring)[j]].parent == current && old(th)[old(ring)[j]].state == Zombie))
      ensures child != 0 ==> child in old(th) && old(th)[child].parent == current && old(th)[child].state == Zombie
      ensures child != 0 ==> th.Keys == old(th.Keys) - {child} && forall a :: a in th ==> th[a] == old(th)[a].(next := th[a].next)
      ensures Valid()
    {
      hide Cycle, NodeOk, NoDup, Scan;
      Members(th, ring);
      var prev;
      ghost var i;
      child, prev, any, i := LookForChild();
      InScan(th, ring);
      if child != 0 {
        RingNext(th, ring, i);
        ScanIs(ring, i);
        UnlinkCycle(th, ring, i + 1);
        FirstFound(th, ring, i, current);
        th := th[prev := th[prev].(next := th[child].next)] - {child};
        ring := ring[..i + 1] + ring[i + 2..];
      }
    }
  }

  ghost predicate NoZombie(th: Table, c: seq<nat>, n: nat, parent: nat)
    requires n <= |c|
  {
    forall k :: 0 <= k < n && c[k] in th && th[c[k]].parent == parent ==> th[c[k]].state != Zombie
  }

  ghost predicate SomeChild(th: Table, c: seq<nat>, n: nat, parent: nat)
    requires n <= |c|
  {
    exists k :: 0 <= k < n && c[k] in th && th[c[k]].parent == parent
  }

  /** The k-th of the ring is the first zombie child behind the current thread. */
  ghost predicate FirstZombie(th: Table, l: seq<nat>, k: int, parent: nat) {
    && 0 < k < |l| && l[k] in th && th[l[k]].parent == parent && th[l[k]].state == Zombie
    && forall j :: 0 < j < k && l[j] in th && th[l[j]].parent == parent ==> th[l[j]].state != Zombie
  }

  lemma FirstFound(th: Table, l: seq<nat>, i: nat, parent: nat)
    requires i + 1 < |l| && NoZombie(th, Scan(l), i, parent)
    requires l[i + 1] in th && th[l[i + 1]].parent == parent && th[l[i + 1]].state == Zombie
    ensures FirstZombie(th, l, i + 1, parent)
  {
    forall j | 0 < j < i + 1 ensures l[j] == Scan(l)[j - 1] {}
  }

  lemma ChildStep(th: Table, c: seq<nat>, n: nat, parent: nat)
    requires n < |c| && c[n] in th
    ensures n == 0 ==> NoZombie(th, c, 0, parent) && !SomeChild(th, c, 0, parent)
    ensures NoZombie(th, c, n + 1, parent) <==> NoZombie(th, c, n, parent) && (th[c[n]].parent == parent ==> th[c[n]].state != Zombie)
    ensures SomeChild(th, c, n + 1, parent) <==> SomeChild(th, c, n, parent) || th[c[n]].parent == parent
  {
  }

  lemma NextIs(l: seq<nat>, i: nat)
    requires i < |l| && NextOf(l, i) != l[0]
    ensures i + 1 < |l| && NextOf(l, i) == l[i + 1]
  {
  }

  lemma ScanIs(l: seq<nat>, i: nat)
    requires i < |l|
    ensures Scan(l)[i] == NextOf(l, i)
  {
  }

  lemma InScan(th: Table, l: seq<nat>)
    requires Cycle(th, l)
    ensures forall t :: t in th ==> t in Scan(l)
  {
    forall t | t in th ensures t in Scan(l) {
      var i :| 0 <= i < |l| && l[i] == t;
      assert Scan(l)[if i == 0 then |l| - 1 else i - 1] == t;
    }
  }

  /** A sleeping parent can run again. */
  function Roused(th: Table, p: nat): Table {
    if p in th && th[p].state == Sleeping then th[p := th[p].(state := Runnable)] else th
  }

  function Woken(x: Thread, chan: nat): Thread {
    if (x.state == Blocked || x.state == Sleeping) && x.chan == chan then x.(state := Runnable, chan := 0) else x
  }

  predicate Due(x: Thread, now: nat) {
    x.state == Sleeping && x.wakeTick <= now
  }

  /** One of the first n threads of the ring is due and outranks the first. */
  ghost predicate Preempts(th: Table, l: seq<nat>, n: nat, now: nat)
    requires n <= |l| && l != []
  {
    exists k :: 0 <= k < n && l[k] in th && l[0] in th && Due(th[l[k]], now) && th[l[k]].priority > th[l[0]].priority
  }

  /** The ring's order does not matter to that question. */
  lemma PreemptsIs(th: Table, l: seq<nat>, now: nat)
    requires Cycle(th, l)
    ensures l != [] && l[0] in th
    ensures Preempts(th, l, |l|, now) <==>
      exists t :: t in th && th[t].state == Sleeping && th[t].wakeTick <= now && th[t].priority > th[l[0]].priority
  {
    Members(th, l);
    if t :| t in th && th[t].state == Sleeping && th[t].wakeTick <= now && th[t].priority > th[l[0]].priority {
      var k :| 0 <= k < |l| && l[k] == t;
    }
  }

  lemma TickStep(th: Table, l: seq<nat>, i: nat, now: nat)
    requires i < |l| && l[i] in th && l[0] in th
    ensures i == 0 ==> !Preempts(th, l, 0, now)
    ensures Preempts(th, l, i + 1, now) <==> Preempts(th, l, i, now) || (Due(th[l[i]], now) && th[l[i]].priority > th[l[0]].priority)
    ensures Ticked(th[l[i]], now) == if Due(th[l[i]], now) then th[l[i]].(state := Runnable) else th[l[i]]
    ensures Due(th[l[i]], now) <==> th[l[i]].state == Sleeping && th[l[i]].wakeTick <= now
    ensures Ticked(th[l[i]], now).priority == th[l[i]].priority
  {
  }

  /** A tick makes nobody run and nobody stop. */
  lemma TickSame(th: Table, th': Table, now: nat)
    requires th'.Keys == th.Keys && forall t :: t in th ==> th'[t] == Ticked(th[t], now)
    ensures forall t :: t in th ==> (th'[t].state == Running <==> th[t].state == Running) && (th[t].state == Runnable ==> th'[t].state == Runnable)
  {
  }

  function Ticked(x: Thread, now: nat): Thread {
    if Due(x, now) then x.(state := Runnable) else x
  }

  /** One step along the ring. */
  lemma RingNext(th: Table, l: seq<nat>, i: nat)
    requires Cycle(th, l) && i < |l|
    ensures l[i] in th && th[l[i]].next == NextOf(l, i) && NextOf(l, i) in th
    ensures NextOf(l, i) == l[0] <==> i + 1 == |l|
    ensures forall k :: 0 <= k < |l| && k != i ==> l[k] != l[i]
  {
    assert NodeOk(th, l, i) && l[i] in l && NextOf(l, i) in l;
  }

  /** Who runs after a thread has parked itself. */
  lemma SomeoneElse(th: Table, l: seq<nat>, th': Table, l': seq<nat>)
    requires Cycle(th, l) && Cycle(th', l') && Scheduled(th, l, th', l') && th[l[0]].state != Running && th[l[0]].state != Runnable
    ensures l'[0] != l[0] && l'[0] in th && th[l'[0]].state == Runnable && th' == th[l'[0] := th[l'[0]].(state := Running)]
  {
    var y, c := Yielded(th, l[0]), Scan(l);
    var j :| 0 <= j < |c| && First(y, c, |c|, j) && th' == y[c[j] := y[c[j]].(state := Running)]
      && l' == if j == |l| - 1 then l else Rotated(l, j + 1);
    assert c[|c| - 1] == l[0];
  }

  lemma InsertCycle(th: Table, l: seq<nat>, t: nat, x: Thread)
    requires Cycle(th, l) && t !in th && t != 0 && x.state == Runnable
    ensures l[|l| - 1] in th
    ensures var tail := l[|l| - 1]; Cycle(th[tail := th[tail].(next := t)][t := x.(next := l[0])], l + [t])
  {
    var tail := l[|l| - 1];
    var l' := l + [t];
    assert NodeOk(th, l, |l| - 1) && l[0] in l;
    var th' := th[tail := th[tail].(next := t)][t := x.(next := l[0])];
    forall i ensures NodeOk(th', l', i) { assert NodeOk(th, l, i); assert 0 <= i < |l| ==> l[i] in l; }
  }

  lemma UnlinkCycle(th: Table, l: seq<nat>, k: nat)
    requires Cycle(th, l) && 0 < k < |l|
    ensures l[k - 1] in th && l[k] in th && l[k] != l[0] && l[k] != l[k - 1]
    ensures var l' := l[..k] + l[k + 1..];
      l'[0] == l[0] && Cycle(th[l[k - 1] := th[l[k - 1]].(next := th[l[k]].next)] - {l[k]}, l')
  {
    RingNext(th, l, k - 1);
    RingNext(th, l, k);
    assert NodeOk(th, l, k - 1) && NodeOk(th, l, k);
    var l' := l[..k] + l[k + 1..];
    var th' := th[l[k - 1] := th[l[k - 1]].(next := th[l[k]].next)] - {l[k]};
    forall i ensures NodeOk(th', l', i) {
      assert NodeOk(th, l, i) && NodeOk(th, l, i + 1);
    }
    UnlinkMembers(l, k);
  }

  lemma UnlinkMembers(l: seq<nat>, k: nat)
    requires NoDup(l) && k < |l|
    ensures var l' := l[..k] + l[k + 1..]; NoDup(l') && forall t :: t in l' <==> t in l && t != l[k]
  {
    var l' := l[..k] + l[k + 1..];
    forall t | t in l && t != l[k] ensures t in l' {
      var i :| 0 <= i < |l| && l[i] == t;
      assert l'[if i < k then i else i - 1] == t;
    }
    forall i, j | 0 <= i < j < |l'| ensures l'[i] != l'[j] {
      assert l'[i] == l[if i < k then i else i + 1] && l'[j] == l[if j < k then j else j + 1];
    }
  }

  /** Once the current thread has yielded, the chosen one alone runs. */
  lemma OneRuns(th: Table, cur: nat, best: nat, idle: nat)
    requires forall t :: t in th && t != cur ==> th[t].state != Running
    requires best in th && idle in th && (th[idle].state == Runnable || (idle == cur && th[idle].state == Running))
    ensures best in Yielded(th, cur)
    ensures var th' := Yielded(th, cur)[best := Yielded(th, cur)[best].(state := Running)];
      (forall t :: t in th' ==> (th'[t].state == Running <==> t == best)) && (th'[idle].state == Running || th'[idle].state == Runnable)
  {
  }

  /** The ring as seen from the chosen thread. */
  lemma Turned(th: Table, l: seq<nat>, j: nat, best: nat) returns (l': seq<nat>)
    requires Cycle(th, l) && j < |l| && Scan(l)[j] == best
    ensures l' == if j == |l| - 1 then l else Rotated(l, j + 1)
    ensures Cycle(th, l') && l'[0] == best
  {
    hide NodeOk, NoDup;
    l' := l;
    if best == l[0] {
      ScanLast(l, j);
    } else {
      ScanAt(l, j, best);
      RotateCycle(th, l, j + 1);
      l' := Rotated(l, j + 1);
    }
  }

  lemma ScanAt(l: seq<nat>, j: nat, best: nat)
    requires l != [] && j < |l| && Scan(l)[j] == best != l[0]
    ensures j + 1 < |l| && l[j + 1] == best
  {
  }

  lemma Head(th: Table, l: seq<nat>)
    requires Cycle(th, l)
    ensures l != [] && l[0] in th && l[0] != 0
  {
    assert l[0] in l;
  }

  lemma Members(th: Table, l: seq<nat>)
    requires Cycle(th, l)
    ensures forall t :: t in th <==> t in l
    ensures forall i :: 0 <= i < |l| ==> l[i] in th
    ensures forall i :: 0 <= i < |Scan(l)| ==> Scan(l)[i] in th
    ensures l != [] && l[0] in th && l[0] != 0 && forall i :: 0 <= i < |Scan(l)| ==> Scan(l)[i] != 0
  {
  }

  /** One step along the scan. */
  lemma ScanNext(th: Table, l: seq<nat>, i: nat)
    requires Cycle(th, l) && i < |l|
    ensures var c := Scan(l);
      && |c| == |l| && c[i] in th && c[i] != 0
      && (i + 1 < |l| ==> th[c[i]].next == c[i + 1] && c[i + 1] != c[0])
      && (i + 1 == |l| ==> th[c[i]].next == c[0] && c[i] == l[0])
  {
    var c := Scan(l);
    var m := if i + 1 < |l| then i + 1 else 0;
    assert c[i] == l[m] && NodeOk(th, l, m) && NodeOk(th, l, 0);
    assert l[m] in l;
    if i + 1 < |l| {
      assert c[i + 1] == l[if i + 2 < |l| then i + 2 else 0];
      assert c[0] == l[1];
    }
  }

  lemma NoneYet(th: Table, c: seq<nat>)
    ensures NoneRuns(th, c, 0)
  {
  }

  lemma FirstStep(th: Table, c: seq<nat>, i: nat, best: nat, j: nat)
    requires i < |c| && c[i] in th && c[i] != 0
    requires if best == 0 then NoneRuns(th, c, i) else j < i && best == c[j] && First(th, c, i, j)
    ensures best != 0 ==> best in th
    ensures th[c[i]].state == Runnable && (best == 0 || th[c[i]].priority > th[best].priority) ==> First(th, c, i + 1, i)
    ensures th[c[i]].state == Runnable && best != 0 && th[c[i]].priority <= th[best].priority ==> First(th, c, i + 1, j)
    ensures th[c[i]].state != Runnable ==> if best == 0 then NoneRuns(th, c, i + 1) else First(th, c, i + 1, j)
  {
  }

  lemma SomeoneRuns(th: Table, l: seq<nat>)
    requires Cycle(th, l) && exists t :: CanRun(th, t)
    ensures !NoneRuns(th, Scan(l), |l|)
  {
    var t :| CanRun(th, t);
    var i :| 0 <= i < |l| && l[i] == t;
    assert Scan(l)[if i == 0 then |l| - 1 else i - 1] == t;
  }

  lemma ScheduledBy(th0: Table, l: seq<nat>, j: nat, th: Table)
    requires l != [] && j < |l| && l[0] in th0
    requires var y, c := Yielded(th0, l[0]), Scan(l); First(y, c, |c|, j) && th == y[c[j] := y[c[j]].(state := Running)]
    ensures Scheduled(th0, l, th, if j == |l| - 1 then l else Rotated(l, j + 1))
  {
  }

  lemma ScanLast(l: seq<nat>, j: nat)
    requires l != [] && j < |l| && Scan(l)[j] == l[0] && exists th :: Cycle(th, l)
    ensures j == |l| - 1
  {
  }
}
