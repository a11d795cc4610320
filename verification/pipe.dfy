/** Pipes: the steps of pipe_read, pipe_write and pipe_close between scheduling points, run by the
    current thread of the kernel. */
module PipeProtocol {
  import opened Bytes
  import opened Sched

  const SIZE: nat := 16384

  /** A call that has not returned yet. */
  datatype Call = Reading(len: nat) | Writing(data: seq<Byte>, n: nat)

  /** (i + j) % SIZE for a ring position and a count. */
  function Wrap(x: nat): nat { if x < SIZE then x else x - SIZE }

  lemma WrapIs(x: nat)
    requires x < 2 * SIZE
    ensures Wrap(x) == x % SIZE
  {
  }

  /** The bytes in the ring, oldest first. */
  ghost function Held(buf: seq<Byte>, r: nat, count: nat): (s: seq<Byte>)
    requires |buf| == SIZE && r < SIZE && count <= SIZE
    ensures |s| == count && forall i :: 0 <= i < count ==> s[i] == buf[Wrap(r + i)]
  {
    seq(count, i requires 0 <= i < count => buf[Wrap(r + i)])
  }

  lemma HeldPut(buf: seq<Byte>, r: nat, count: nat, c: Byte)
    requires |buf| == SIZE && r < SIZE && count < SIZE
    ensures Held(buf[Wrap(r + count) := c], r, count + 1) == Held(buf, r, count) + [c]
  {
    var b, h := buf[Wrap(r + count) := c], Held(buf, r, count) + [c];
    forall i | 0 <= i < count + 1 ensures Held(b, r, count + 1)[i] == h[i] {}
  }

  lemma HeldTake(buf: seq<Byte>, r: nat, count: nat)
    requires |buf| == SIZE && r < SIZE && 0 < count <= SIZE
    ensures Held(buf, r, count) == [buf[r]] + Held(buf, Wrap(r + 1), count - 1)
  {
    var h := [buf[r]] + Held(buf, Wrap(r + 1), count - 1);
    forall i | 0 <= i < count ensures Held(buf, r, count)[i] == h[i] {}
  }

  /** Blocked on channel chan. */
  predicate Waiting(th: Table, chan: nat, t: nat) {
    t in th && th[t].state == Blocked && th[t].chan == chan
  }

  /** A thread waits only as long as it has to. */
  predicate Stuck(c: Call, count: nat, readers: nat, writers: nat) {
    match c
    case Reading(_) => count == 0 && writers > 0
    case Writing(data, n) => count == SIZE && readers > 0 && n < |data|
  }

  /** No lost wakeup: whoever is blocked on the pipe is in a call that still cannot go on. */
  ghost predicate NoneStranded(th: Table, chan: nat, calls: map<nat, Call>, count: nat, readers: nat, writers: nat) {
    forall t :: Waiting(th, chan, t) ==> t in calls && Stuck(calls[t], count, readers, writers)
  }

  class Pipe {
    const k: Kernel
    const chan: nat
    const buf: array<Byte>
    var r: nat
    var w: nat
    var count: nat
    var readers: nat
    var writers: nat
    ghost var calls: map<nat, Call>
    ghost var written: seq<Byte>
    ghost var taken: seq<Byte>

    ghost predicate Shape()
      reads this
    {
      buf.Length == SIZE && r < SIZE && count <= SIZE && w == Wrap(r + count) && chan != 0
    }

    /** What was read, and then what is in the ring, is what was written. */
    ghost predicate Fifo()
      requires Shape()
      reads this, buf
    {
      written == taken + Held(buf[..], r, count)
    }

    ghost predicate Valid()
      reads this, buf, k
    {
      k.Valid() && Shape() && Fifo() && NoneStranded(k.th, chan, calls, count, readers, writers)
    }

    /** pipe_alloc: one end of each kind. */
    constructor (k: Kernel, chan: nat)
      requires k.Valid() && chan != 0 && forall t :: !Waiting(k.th, chan, t)
      ensures Valid() && this.k == k && this.chan == chan && readers == writers == 1 && written == [] && count == 0
      ensures buf.Length == 16384
      ensures fresh(buf)
    {
      this.k, this.chan := k, chan;
      buf := new Byte[SIZE](_ => 0);
      r, w, count, readers, writers := 0, 0, 0, 1, 1;
      calls, written, taken := map[], [], [];
    }

    /** One byte into the ring. */
    method PutByte(c: Byte)
      requires Shape() && Fifo() && count < SIZE
      modifies this`w, this`count, this`written, buf
      ensures Shape() && Fifo() && count == old(count) + 1 && written == old(written) + [c] && taken == old(taken)
    {
      HeldPut(buf[..], r, count, c);
      WrapIs(w + 1);
      ghost var b := buf[..];
      buf[w] := c;
      assert buf[..] == b[w := c];
      w := (w + 1) % SIZE;
      count := count + 1;
      written := written + [c];
      assert taken + Held(b, r, old(count)) + [c] == taken + (Held(b, r, old(count)) + [c]);
    }

    /** One byte out. */
    method TakeByte() returns (c: Byte)
      requires Shape() && Fifo() && count > 0
      modifies this`r, this`count, this`taken
      ensures Shape() && Fifo() && count == old(count) - 1 && taken == old(taken) + [c] && written == old(written)
    {
      HeldTake(buf[..], r, count);
      WrapIs(r + 1);
      c := buf[r];
      r := (r + 1) % SIZE;
      count := count - 1;
      taken := taken + [c];
      assert old(taken) + ([c] + Held(buf[..], r, count)) == old(taken) + [c] + Held(buf[..], r, count);
    }

    /** sched_block on the pipe, in the middle of call c. */
    method Sleep(c: Call)
      requires Valid() && k.current != k.idle && Stuck(c, count, readers, writers)
      modifies this`calls, k`th, k`current, k`slice, k`ring
      ensures Valid() && calls == old(calls)[old(k.current) := c] && k.current != old(k.current)
      ensures Waiting(k.th, chan, old(k.current))
    {
      hide Held, Cycle, Stuck, Scheduled;
      ghost var cur := k.current;
      Head(k.th, k.ring);
      calls := calls[cur := c];
      k.Block(chan);
      assert forall t :: Waiting(k.th, chan, t) ==> t == cur || Waiting(old(k.th), chan, t);
    }

    /** sched_wake on the pipe: nobody waits on it any more. */
    method WakeAll()
      requires k.Valid() && chan != 0
      modifies k`th
      ensures k.Valid() && (forall t :: !Waiting(k.th, chan, t)) && k.current == old(k.current)
      ensures forall t :: t in k.th && !old(Waiting(k.th, chan, t)) && old(k.th)[t].state != Sleeping ==> k.th[t] == old(k.th)[t]
    {
      hide Kernel.Valid;
      k.Wake(chan);
    }

    /** What sched_block does when it comes back. */
    method WokenUp()
      requires Valid() && k.current in calls
      modifies k`th
      ensures Valid() && k.current == old(k.current)
      ensures k.current in old(k.th) && k.th == old(k.th)[k.current := old(k.th)[k.current].(chan := 0)]
    {
      hide Held, Stuck, Cycle;
      ValidRing(k);
      k.Resume();
      assert forall t :: Waiting(k.th, chan, t) ==> Waiting(old(k.th), chan, t);
    }

    /** pipe_read, from its start or from the test it resumes at. An empty result is end of file. */
    method Read(len: nat) returns (out: ReadResult)
      requires Valid() && k.current != k.idle
      modifies this`r, this`count, this`taken, this`calls, k`th, k`current, k`slice, k`ring
      ensures Valid() && written == old(written)
      ensures out == Blocks <==> old(count) == 0 && writers > 0
      ensures out == Blocks ==> count == old(count) && Waiting(k.th, chan, old(k.current)) && taken == old(taken)
      ensures out == Blocks ==> calls == old(calls)[old(k.current) := Reading(len)]
      ensures out.Returns? ==> taken == old(taken) + out.bytes && |out.bytes| == (if len < old(count) then len else old(count))
      ensures out.Returns? ==> k.current == old(k.current) && calls == old(calls) - {k.current}
      ensures out.Returns? && old(count) > 0 ==> forall t :: !Waiting(k.th, chan, t)
    {
      hide Held, Kernel.Valid;
      if count == 0 && writers > 0 {
        Sleep(Reading(len));
        return Blocks;
      }
      CurrentRuns();
      calls := calls - {k.current};
      if count == 0 { return Returns([]); }
      var bytes := [];
      while |bytes| < len && count > 0
        invariant Shape() && Fifo() && k.Valid() && written == old(written) && taken == old(taken) + bytes
        invariant count == old(count) - |bytes| && |bytes| <= len && k.current == old(k.current) && calls == old(calls) - {k.current}
        decreases count
      {
        var c := TakeByte();
        bytes := bytes + [c];
      }
      WakeAll();
      return Returns(bytes);
    }

    lemma CurrentRuns()
      requires k.Valid()
      ensures !Waiting(k.th, chan, k.current)
    {
    }

    /** pipe_write, from its start (n == 0) or from the test it resumes at. */
    method Write(data: seq<Byte>, n0: nat) returns (out: WriteResult, ghost done: nat)
      requires Valid() && k.current != k.idle && n0 <= |data|
      modifies this`w, this`count, this`written, this`calls, buf, k`th, k`current, k`slice, k`ring
      ensures Valid() && taken == old(taken)
      ensures n0 <= done <= |data| && written == old(written) + data[n0..done] && Outcome(out, data, done)
      ensures count == old(count) + (done - n0) && readers == old(readers) && writers == old(writers)
      ensures done == if readers == 0 then n0 else if n0 + 16384 - old(count) < |data| then n0 + 16384 - old(count) else |data|
      ensures (out.Wrote? ==> out.n == done) && (out == Broken <==> readers == 0 && done == 0 && |data| > 0)
      ensures out.Suspends? <==> readers > 0 && done < |data|
      ensures out.Suspends? ==> Waiting(k.th, chan, old(k.current)) && calls == old(calls)[old(k.current) := Writing(data, done)]
      ensures !out.Suspends? ==> k.current == old(k.current) && calls == old(calls) - {k.current}
    {
      hide Held, Kernel.Valid;
      var n := n0;
      assert data[n0..n] == [];
      while n < |data|
        invariant Valid() && taken == old(taken) && k.current == old(k.current) && n0 <= n <= |data|
        invariant written == old(written) + data[n0..n] && calls == old(calls) && count == old(count) + (n - n0)
        invariant n > n0 ==> readers > 0
        decreases |data| - n
      {
        if count == SIZE && readers > 0 {
          Sleep(Writing(data, n));
          return Suspends, n;
        }
        if readers == 0 {
          Forget();
          return if n > 0 then Wrote(n) else Broken, n;
        }
        ghost var m := n;
        n := Fill(data, n);
        Appended(old(written), data, n0, m, n);
      }
      Forget();
      return Wrote(n), n;
    }

    /** A call has returned. */
    ghost method Forget()
      requires Valid()
      modifies this`calls
      ensures Valid() && calls == old(calls) - {k.current}
    {
      hide Held, Kernel.Valid;
      CurrentRuns();
      calls := calls - {k.current};
    }

    /** The inner loop of pipe_write: as many bytes as there is room for, and readers are woken. */
    method Fill(data: seq<Byte>, n0: nat) returns (n: nat)
      requires Valid() && n0 < |data| && count < SIZE
      modifies this`w, this`count, this`written, buf, k`th
      ensures Valid() && taken == old(taken) && k.current == old(k.current) && n0 < n <= |data|
      ensures count == old(count) + (n - n0)
      ensures written == old(written) + data[n0..n] && (n == |data| || count == SIZE) && forall t :: !Waiting(k.th, chan, t)
    {
      hide Held, Kernel.Valid;
      n := n0;
      assert data[n0..n] == [];
      while n < |data| && count < SIZE
        invariant Shape() && Fifo() && k.Valid() && taken == old(taken) && n0 <= n <= |data| && (n == n0 ==> count < SIZE)
        invariant written == old(written) + data[n0..n] && k.current == old(k.current) && count == old(count) + (n - n0)
        decreases |data| - n
      {
        PutByte(data[n]);
        assert data[n..n + 1] == [data[n]];
        Appended(old(written), data, n0, n, n + 1);
        n := n + 1;
      }
      WakeAll();
    }

    /** A step of the kernel that is not this pipe's leaves the pipe's bytes alone and strands nobody
        on it. */
    method OtherStep(step: Step)
      requires Valid() && Possible(step, k.th, k.current, k.idle) && step != BlockOn(chan)
      modifies k
      ensures Valid()
    {
      hide Held, Kernel.Valid, Cycle, Scheduled, Stuck;
      ghost var th0, l := k.th, k.ring;
      ValidRing(k);
      match step {
        case Yield =>
          k.Schedule();
          ScheduledWaits(th0, l, k.th, k.ring, chan);
        case BlockOn(c) =>
          k.Block(c);
        case SleepUntil(tick) =>
          k.Park(k.th[k.current].(wakeTick := tick, state := Sleeping));
        case Resumed =>
          k.Resume();
        case WakeOn(c) =>
          k.Wake(c);
        case TimerTick =>
          var resched := k.Tick();
        case Create(t, x) =>
          k.Insert(t, x);
        case WaitChild =>
          var child, any := k.Reap();
        case ExitWith(status) =>
          k.Exit(status);
      }
      KeptByOthers(th0, k.th, chan, calls, count, readers, writers);
    }

    /** pipe_close: one end less, and everybody looks again. Returns whether the pipe is freed; nobody
        waits on it then. */
    method Close(writable: bool) returns (freed: bool)
      requires Valid() && (if writable then writers > 0 else readers > 0)
      modifies this`readers, this`writers, k`th
      ensures Valid() && written == old(written) && taken == old(taken) && count == old(count)
      ensures readers == old(readers) - (if writable then 0 else 1) && writers == old(writers) - (if writable then 1 else 0)
      ensures freed <==> readers == 0 && writers == 0
      ensures forall t :: !Waiting(k.th, chan, t)
    {
      hide Held, Kernel.Valid;
      if writable { writers := writers - 1; } else { readers := readers - 1; }
      WakeAll();
      freed := readers == 0 && writers == 0;
    }
  }

  datatype ReadResult = Blocks | Returns(bytes: seq<Byte>)
  datatype WriteResult = Suspends | Wrote(n: nat) | Broken

  /** How a write came out after n bytes of data: asleep with bytes left, done, or cut off. */
  predicate Outcome(out: WriteResult, data: seq<Byte>, n: nat) {
    match out
    case Suspends => n < |data|
    case Wrote(m) => m == n
    case Broken => n == 0 && |data| > 0
  }

  lemma Appended(w: seq<Byte>, data: seq<Byte>, a: nat, b: nat, c: nat)
    requires a <= b <= c <= |data|
    ensures w + data[a..b] + data[b..c] == w + data[a..c]
  {
  }

  /** Nobody waits who did not wait before, so nobody is stranded. */
  lemma KeptByOthers(th: Table, th': Table, chan: nat, calls: map<nat, Call>, count: nat, readers: nat, writers: nat)
    requires NoneStranded(th, chan, calls, count, readers, writers)
    requires forall t :: Waiting(th', chan, t) ==> Waiting(th, chan, t)
    ensures NoneStranded(th', chan, calls, count, readers, writers)
  {
  }

  lemma ScheduledWaits(th: Table, l: seq<nat>, th': Table, l': seq<nat>, chan: nat)
    requires l != [] && Scheduled(th, l, th', l')
    ensures forall t :: Waiting(th', chan, t) ==> Waiting(th, chan, t)
  {
    hide First;
  }

  /** A thread that is blocked on the pipe is a reader of an empty ring with a writer left, or a writer, not
      yet done, of a full one with a reader left. */
  lemma StuckIs(th: Table, chan: nat, calls: map<nat, Call>, count: nat, readers: nat, writers: nat, t: nat)
    requires NoneStranded(th, chan, calls, count, readers, writers) && t in th && th[t].state == Blocked && th[t].chan == chan
    ensures t in calls
    ensures calls[t].Reading? ==> count == 0 && writers > 0
    ensures calls[t].Writing? ==> count == 16384 && readers > 0 && calls[t].n < |calls[t].data|
  {
    assert Waiting(th, chan, t);
  }

  /** ... and a call that went to sleep left its thread so. */
  lemma WaitingIs(th: Table, chan: nat, t: nat)
    requires Waiting(th, chan, t)
    ensures t in th && th[t].state == Blocked && th[t].chan == chan
  {
  }

  /** A reader and a writer never wait on the same pipe at the same time. */
  lemma NoDeadlock(th: Table, chan: nat, calls: map<nat, Call>, count: nat, readers: nat, writers: nat, t: nat, u: nat)
    requires NoneStranded(th, chan, calls, count, readers, writers) && Waiting(th, chan, t) && Waiting(th, chan, u)
    ensures t in calls && u in calls && (calls[t].Reading? <==> calls[u].Reading?)
  {
  }
}
