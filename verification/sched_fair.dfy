/** Bounded waiting: a runnable thread of highest priority is reached within one turn of the ring. */
module SchedFair {
  import opened Sched

  /** What the scheduler sees between two steps: the threads, and the ring from the current one on. */
  datatype Config = Config(th: Table, ring: seq<nat>)

  /** schedule() ran; a thread was linked in at the tail; another one was unlinked; or states changed
      and the ring did not. */
  datatype Label = Ran | Linked(t: nat) | Unlinked(k: nat) | Stirred

  ghost predicate Steps(c: Config, l: Label, c': Config) {
    c.ring != [] && NoDup(c.ring) &&
    match l
    case Ran => Scheduled(c.th, c.ring, c'.th, c'.ring)
    case Linked(t) => t !in c.ring && c'.ring == c.ring + [t]
    case Unlinked(k) => 0 < k < |c.ring| && c'.ring == c.ring[..k] + c.ring[k + 1..]
    case Stirred => c'.ring == c.ring
  }

  /** t waits: it is linked, runnable, not current, and nobody runnable outranks it. */
  ghost predicate Waits(c: Config, t: nat) {
    && t in c.ring && c.ring[0] != t && CanRun(c.th, t)
    && forall a :: a in c.th && (CanRun(c.th, a) || c.th[a].state == Running) ==> c.th[a].priority <= c.th[t].priority
  }

  /** How far t is from the front. */
  function Dist(l: seq<nat>, t: nat): nat
    requires t in l
  {
    if l[0] == t then 0 else 1 + Dist(l[1..], t)
  }

  lemma {:induction false} DistIs(l: seq<nat>, t: nat)
    requires t in l
    ensures Dist(l, t) < |l| && l[Dist(l, t)] == t && forall k :: 0 <= k < Dist(l, t) ==> l[k] != t
  {
    if l[0] != t { DistIs(l[1..], t); }
  }

  lemma DistAt(l: seq<nat>, t: nat, i: nat)
    requires NoDup(l) && i < |l| && l[i] == t
    ensures Dist(l, t) == i
  {
    DistIs(l, t);
  }

  /** One schedule() brings a waiting thread closer, or makes it current. */
  lemma RanCloser(c: Config, c': Config, t: nat)
    requires Steps(c, Ran, c') && Waits(c, t)
    ensures t in c'.ring && (c'.ring[0] == t || Dist(c'.ring, t) < Dist(c.ring, t))
  {
    var l := c.ring;
    hide Scheduled, First, Yielded, Scan, Rotated, NoDup, Dist, Waits;
    var j := PickOf(c.th, l, c'.th, c'.ring);
    WaitsMeans(c, t);
    DistIs(l, t);
    var d := Dist(l, t);
    assert 0 < d < |l| && l[d] == t;
    PickedInTime(c, t, j, d);
    RotatedDistinct(l, j + 1);
    RotatedAt(l, j + 1, d);
    DistAt(c'.ring, t, d - (j + 1));
  }

  lemma WaitsMeans(c: Config, t: nat)
    requires Waits(c, t)
    ensures t in c.ring && c.ring[0] != t
  {
  }

  lemma RotatedAt(l: seq<nat>, m: nat, d: nat)
    requires m <= d < |l|
    ensures |Rotated(l, m)| == |l| && Rotated(l, m)[d - m] == l[d]
  {
  }

  /** The pick comes no later in the scan than the waiting thread. */
  lemma PickedInTime(c: Config, t: nat, j: nat, d: nat)
    requires c.ring != [] && Waits(c, t) && 0 < d < |c.ring| && c.ring[d] == t && j < |c.ring|
    requires First(Yielded(c.th, c.ring[0]), Scan(c.ring), |c.ring|, j)
    ensures j <= d - 1
  {
    var y, s := Yielded(c.th, c.ring[0]), Scan(c.ring);
    assert s[d - 1] == t && CanRun(y, t);
    assert CanRun(y, s[j]);
  }

  lemma RotatedDistinct(l: seq<nat>, m: nat)
    requires NoDup(l) && m <= |l|
    ensures NoDup(Rotated(l, m))
  {
    var r := Rotated(l, m);
    forall i, j | 0 <= i < j < |r| ensures r[i] != r[j] {
      assert r[i] == l[if i < |l| - m then i + m else i - (|l| - m)];
      assert r[j] == l[if j < |l| - m then j + m else j - (|l| - m)];
    }
  }

  /** Linking in, unlinking another thread and state changes never move a thread away. */
  lemma OthersNoFarther(c: Config, l: Label, c': Config, t: nat)
    requires Steps(c, l, c') && l != Ran && Waits(c, t) && Waits(c', t)
    ensures Dist(c'.ring, t) <= Dist(c.ring, t)
  {
    DistIs(c.ring, t);
    var d := Dist(c.ring, t);
    match l
    case Linked(x) =>
      assert c'.ring[d] == t;
      DistIs(c'.ring, t);
    case Unlinked(k) =>
      if k > d { assert c'.ring[d] == t; } else if k < d { assert c'.ring[d - 1] == t; } else { OnlyOnce(c.ring, k); }
      DistIs(c'.ring, t);
    case Stirred =>
  }

  lemma OnlyOnce(l: seq<nat>, k: nat)
    requires NoDup(l) && k < |l|
    ensures l[k] !in l[..k] + l[k + 1..]
  {
  }

  /** How many of the first n steps were schedule() calls. */
  function Calls(labels: seq<Label>, n: nat): nat
    requires n <= |labels|
  {
    if n == 0 then 0 else Calls(labels, n - 1) + if labels[n - 1] == Ran then 1 else 0
  }

  ghost predicate IsRun(run: seq<Config>, labels: seq<Label>) {
    |run| == |labels| + 1 && forall i :: 0 <= i < |labels| ==> StepAt(run, labels, i)
  }

  ghost predicate StepAt(run: seq<Config>, labels: seq<Label>, i: nat)
    requires i < |labels| && |run| == |labels| + 1
  {
    Steps(run[i], labels[i], run[i + 1])
  }

  /** Over any run, a thread that waits all along has let fewer schedule() calls pass than the ring had
      threads when it began: each call brought it at least one place closer. */
  lemma {:induction false} BoundedWaiting(run: seq<Config>, labels: seq<Label>, t: nat, n: nat)
    requires IsRun(run, labels) && n <= |labels|
    requires forall i :: 0 <= i <= n ==> Waits(run[i], t)
    ensures t in run[0].ring && t in run[n].ring
    ensures Calls(labels, n) + Dist(run[n].ring, t) <= Dist(run[0].ring, t) < |run[0].ring|
  {
    assert Waits(run[0], t) && Waits(run[n], t);
    DistIs(run[0].ring, t);
    if n > 0 {
      BoundedWaiting(run, labels, t, n - 1);
      assert StepAt(run, labels, n - 1);
      if labels[n - 1] == Ran {
        RanCloser(run[n - 1], run[n], t);
      } else {
        OthersNoFarther(run[n - 1], labels[n - 1], run[n], t);
      }
    }
  }

  /** So a thread that stays runnable and unranked becomes current within as many calls as the ring had
      threads when it began to wait. */
  lemma GetsItsTurn(run: seq<Config>, labels: seq<Label>, t: nat)
    requires IsRun(run, labels) && (forall i :: 0 <= i < |run| ==> run[i].ring != [] && (run[i].ring[0] == t || Waits(run[i], t)))
    requires Calls(labels, |labels|) >= |run[0].ring|
    ensures exists i :: 0 <= i < |run| && run[i].ring != [] && run[i].ring[0] == t
  {
    if forall i :: 0 <= i < |run| ==> Waits(run[i], t) {
      BoundedWaiting(run, labels, t, |labels|);
    } else {
      var i :| 0 <= i < |run| && !Waits(run[i], t);
      assert run[i].ring[0] == t;
    }
  }

  // ----- the kernel's steps are such steps -----

  /** How each step of the kernel looks here: a thread that parks or exits changes its state and then
      calls schedule(). */
  ghost predicate Labelled(step: Step, labels: seq<Label>) {
    match step
    case Yield => labels == [Ran]
    case BlockOn(_) => labels == [Stirred, Ran]
    case SleepUntil(_) => labels == [Stirred, Ran]
    case ExitWith(_) => labels == [Stirred, Ran]
    case Resumed => labels == [Stirred]
    case WakeOn(_) => labels == [Stirred]
    case TimerTick => labels == [Stirred]
    case Create(t, _) => labels == [Linked(t)]
    case WaitChild => labels == [] || exists k :: labels == [Unlinked(k)]
  }

  /** A run that leads from a to b. */
  ghost predicate Leads(run: seq<Config>, labels: seq<Label>, a: Config, b: Config) {
    IsRun(run, labels) && run[0] == a && run[|labels|] == b
  }

  lemma OneStep(a: Config, l: Label, b: Config)
    requires Steps(a, l, b)
    ensures Leads([a, b], [l], a, b)
  {
    assert StepAt([a, b], [l], 0);
  }

  lemma TwoSteps(a: Config, l: Label, b: Config, m: Label, c: Config)
    requires Steps(a, l, b) && Steps(b, m, c)
    ensures Leads([a, b, c], [l, m], a, c)
  {
    assert StepAt([a, b, c], [l, m], 0) && StepAt([a, b, c], [l, m], 1);
  }

  /** Runs join, so any sequence of kernel steps is a run. */
  lemma Joined(r1: seq<Config>, l1: seq<Label>, r2: seq<Config>, l2: seq<Label>, a: Config, b: Config, c: Config)
    requires Leads(r1, l1, a, b) && Leads(r2, l2, b, c)
    ensures Leads(r1 + r2[1..], l1 + l2, a, c)
  {
    var run, labels := r1 + r2[1..], l1 + l2;
    forall i | 0 <= i < |labels| ensures StepAt(run, labels, i) {
      if i < |l1| {
        assert StepAt(r1, l1, i);
      } else {
        assert StepAt(r2, l2, i - |l1|);
      }
    }
  }

  ghost function Now(k: Kernel): Config
    reads k
  {
    Config(k.th, k.ring)
  }

  /** Every step of the kernel is a run of steps as above, so BoundedWaiting is about the kernel. */
  method Follow(k: Kernel, step: Step) returns (ghost run: seq<Config>, ghost labels: seq<Label>)
    requires k.Valid() && Possible(step, k.th, k.current, k.idle)
    modifies k
    ensures k.Valid() && Labelled(step, labels) && Leads(run, labels, old(Now(k)), Now(k))
  {
    hide Cycle, Scheduled, Leads, NoDup;
    ghost var a, cur := Now(k), k.current;
    ValidRing(k);
    Apart(k.th, k.ring);
    match step {
      case Yield =>
        k.Schedule();
        OneStep(a, Ran, Now(k));
        run, labels := [a, Now(k)], [Ran];
      case BlockOn(c) =>
        k.Block(c);
        run, labels := Parking(a, cur, a.th[cur := k.th[cur]], Now(k));
      case SleepUntil(tick) =>
        k.Park(k.th[k.current].(wakeTick := tick, state := Sleeping));
        run, labels := Parking(a, cur, a.th[cur := k.th[cur]], Now(k));
      case Resumed =>
        k.Resume();
        OneStep(a, Stirred, Now(k));
        run, labels := [a, Now(k)], [Stirred];
      case WakeOn(c) =>
        k.Wake(c);
        OneStep(a, Stirred, Now(k));
        run, labels := [a, Now(k)], [Stirred];
      case TimerTick =>
        var resched := k.Tick();
        OneStep(a, Stirred, Now(k));
        run, labels := [a, Now(k)], [Stirred];
      case Create(t, x) =>
        NotLinked(k.th, k.ring, t);
        k.Insert(t, x);
        OneStep(a, Linked(t), Now(k));
        run, labels := [a, Now(k)], [Linked(t)];
      case WaitChild =>
        var child, any := k.Reap();
        if child == 0 {
          Standing(a);
          run, labels := [a], [];
        } else {
          ghost var i :| FirstZombie(a.th, a.ring, i, cur) && a.ring[i] == child && k.ring == a.ring[..i] + a.ring[i + 1..];
          OneStep(a, Unlinked(i), Now(k));
          run, labels := [a, Now(k)], [Unlinked(i)];
        }
      case ExitWith(status) =>
        k.Exit(status);
        run, labels := Parking(a, cur, Roused(a.th, a.th[cur].parent)[cur := k.th[cur]], Now(k));
    }
  }

  lemma Apart(th: Table, l: seq<nat>)
    requires Cycle(th, l)
    ensures l != [] && NoDup(l)
  {
  }

  lemma NotLinked(th: Table, l: seq<nat>, t: nat)
    requires Cycle(th, l) && t !in th
    ensures t !in l
  {
  }

  lemma Standing(a: Config)
    ensures Leads([a], [], a, a)
  {
  }

  lemma Parking(a: Config, cur: nat, th: Table, b: Config) returns (run: seq<Config>, labels: seq<Label>)
    requires a.ring != [] && NoDup(a.ring) && Scheduled(th, a.ring, b.th, b.ring)
    ensures labels == [Stirred, Ran] && Leads(run, labels, a, b)
  {
    hide Scheduled, NoDup;
    run, labels := [a, Config(th, a.ring), b], [Stirred, Ran];
    TwoSteps(a, Stirred, Config(th, a.ring), Ran, b);
  }
}
