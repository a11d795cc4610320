/** The retransmission timeout estimator (sections 2.2 to 2.4 of RFC 6298, in 32-bit integers). */
module TcpRto {
  const INIT: int := 1_000_000
  const MIN: int := 200_000
  const MAX: int := 60_000_000

  /** The largest sample for which SRTT + 4 RTTVAR stays inside int32. */
  const SAFE: int := 429_496_729

  /** A 32-bit sum that wraps. */
  function W(x: int): int { (x + 0x8000_0000) % 0x1_0000_0000 - 0x8000_0000 }

  lemma Exact(x: int)
    requires -0x8000_0000 <= x < 0x8000_0000
    ensures W(x) == x
  {
  }

  /** It is the one 32-bit integer that differs from x by a multiple of 2 to the 32. */
  lemma WrapIs(x: int, y: int)
    requires -2147483648 <= y < 2147483648
    ensures W(x) == y <==> (x - y) % 4294967296 == 0
  {
  }

  /** The largest 32-bit integer. */
  const BIG: int := 0x7FFF_FFFF

  /** No step of a sample before the timeout wraps, whatever the sample. */
  lemma NoWrap(s: int, v: int, r: int)
    requires 0 <= s <= BIG && 0 <= v <= BIG && 0 <= r <= BIG
    ensures var d := if s < r then r - s else s - r;
      && W(s - r) == s - r && W(r - s) == r - s
      && W(W(v - v / 4) + d / 4) == Quarter(v, d) && W(W(s - s / 8) + r / 8) == Eighth(s, r)
  {
    hide W;
    var d := if s < r then r - s else s - r;
    Exact(s - r);
    Exact(r - s);
    Exact(v - v / 4);
    Exact(v - v / 4 + d / 4);
    Exact(s - s / 8);
    Exact(s - s / 8 + r / 8);
  }

  /** Wrapping on the way does not show in a wrapped sum. */
  lemma WrapSum(s: int, y: int)
    ensures W(s + W(y)) == W(s + y)
  {
    var q := (y + 0x8000_0000) / 0x1_0000_0000;
    assert W(y) == y - q * 0x1_0000_0000;
  }

  datatype Est = Est(seeded: bool, srtt: int, rttvar: int, rto: int)

  function Clamp(rto: int): int {
    if rto < MIN then MIN else if rto > MAX then MAX else rto
  }

  function Abs(x: int): int { if x < 0 then -x else x }

  /** RTTVAR's and SRTT's step towards a new value. */
  function Quarter(v: int, d: int): int { v - v / 4 + d / 4 }
  function Eighth(s: int, r: int): int { s - s / 8 + r / 8 }

  /** The estimator after one sample, in exact integers; >> on a nonnegative number divides. */
  function Sampled(e: Est, r0: int): Est {
    var r := if r0 < 0 then 0 else r0;
    var v := if e.seeded then Quarter(e.rttvar, Abs(e.srtt - r)) else r / 2;
    var s := if e.seeded then Eighth(e.srtt, r) else r;
    Est(true, s, v, Clamp(s + 4 * v))
  }

  function BackedOff(e: Est): Est {
    e.(rto := if e.rto * 2 > MAX then MAX else e.rto * 2)
  }

  datatype Event = Sample(r: int) | Backoff

  function Step(e: Est, ev: Event): Est {
    match ev case Sample(r) => Sampled(e, r) case Backoff => BackedOff(e)
  }

  const Start: Est := Est(false, 0, 0, INIT)

  function Run(e: Est, evs: seq<Event>): Est
    decreases |evs|
  {
    if evs == [] then e else Run(Step(e, evs[0]), evs[1..])
  }

  // ----- bounds -----

  /** Both smoothed values between 0 and the largest sample m, the timeout inside its limits. */
  predicate Bounded(e: Est, m: int) {
    0 <= e.srtt <= m && 0 <= e.rttvar <= m && MIN <= e.rto <= MAX
  }

  lemma SampleBounded(e: Est, r: int, m: int)
    requires Bounded(e, m) && r <= m && 0 <= m
    ensures Bounded(Sampled(e, r), m)
  {
  }

  /** Over any run of samples and backoffs. */
  lemma {:induction false} RunBounded(e: Est, evs: seq<Event>, m: int)
    requires Bounded(e, m) && 0 <= m && forall k :: 0 <= k < |evs| && evs[k].Sample? ==> evs[k].r <= m
    ensures Bounded(Run(e, evs), m)
    decreases |evs|
  {
    if evs != [] {
      if evs[0].Sample? { SampleBounded(e, evs[0].r, m); }
      RunBounded(Step(e, evs[0]), evs[1..], m);
    }
  }

  class Rto {
    var seeded: bool
    var srtt: int
    var rttvar: int
    var rto: int

    ghost function View(): Est
      reads this
    {
      Est(seeded, srtt, rttvar, rto)
    }

    /** tcp_rto_init. */
    constructor ()
      ensures View() == Start && Bounded(View(), 0) && !seeded && srtt == rttvar == 0 && rto == 1_000_000
    {
      seeded, srtt, rttvar, rto := false, 0, 0, INIT;
    }

    method Recompute()
      modifies this`rto
      ensures rto == Clamp(W(srtt + 4 * rttvar))
    {
      WrapSum(srtt, 4 * rttvar);
      rto := W(srtt + W(4 * rttvar));
      if rto < MIN { rto := MIN; }
      if rto > MAX { rto := MAX; }
    }

    /** The half of tcp_rto_sample in front of recompute: RTTVAR first, with the old SRTT. */
    method Smooth(rtt0: int)
      requires Bounded(View(), BIG) && -0x8000_0000 <= rtt0 <= BIG
      modifies this
      ensures seeded && rto == old(rto)
      ensures srtt == Sampled(old(View()), rtt0).srtt && rttvar == Sampled(old(View()), rtt0).rttvar
    {
      hide W, Quarter, Eighth;
      var rtt := rtt0;
      if rtt < 0 { rtt := 0; }
      if !seeded {
        srtt := rtt;
        rttvar := rtt / 2;
        seeded := true;
      } else {
        var d := W(srtt - rtt);
        NoWrap(srtt, rttvar, rtt);
        if d < 0 { d := W(-d); }
        rttvar := W(W(rttvar - rttvar / 4) + d / 4);
        srtt := W(W(srtt - srtt / 8) + rtt / 8);
      }
    }

    /** tcp_rto_sample. SRTT and RTTVAR are exact for every sample; the timeout is exact if and only if
        SRTT + 4 RTTVAR does not wrap, or wraps to something that is cut to the same limit. While no
        sample exceeds SAFE it never wraps. */
    method Sample(rtt0: int)
      requires Bounded(View(), BIG) && -0x8000_0000 <= rtt0 <= BIG
      modifies this
      ensures Bounded(View(), BIG)
      ensures var e := Sampled(old(View()), rtt0);
        && View() == e.(rto := Clamp(W(e.srtt + 4 * e.rttvar)))
        && (View() == e <==> e.srtt + 4 * e.rttvar <= BIG || W(e.srtt + 4 * e.rttvar) >= MAX)
      ensures var r := if rtt0 < 0 then 0 else rtt0;
        && seeded && (if old(seeded) then
                        && srtt == old(srtt) - old(srtt) / 8 + r / 8
                        && rttvar == old(rttvar) - old(rttvar) / 4 + (if old(srtt) < r then r - old(srtt) else old(srtt) - r) / 4
                      else srtt == r && rttvar == r / 2)
      ensures var x := srtt + 4 * rttvar;
        && (x < 200_000 ==> rto == 200_000)
        && (200_000 <= x <= 60_000_000 ==> rto == x)
        && (60_000_000 < x < 0x8000_0000 ==> rto == 60_000_000)
      ensures old(Bounded(View(), SAFE)) && rtt0 <= SAFE ==> View() == Sampled(old(View()), rtt0) && Bounded(View(), SAFE)
    {
      hide W, Sampled;
      ghost var e := old(View());
      Smooth(rtt0);
      SampleForm(e, rtt0);
      SampledIs(e, rtt0);
      SampleBounded(e, rtt0, BIG);
      if old(Bounded(View(), SAFE)) && rtt0 <= SAFE { SampleBounded(e, rtt0, SAFE); }
      TimeoutExact(srtt + 4 * rttvar);
      TimeoutIs(srtt + 4 * rttvar);
      Recompute();
    }

    /** tcp_rto_backoff. */
    method BackOff()
      requires Bounded(View(), BIG)
      modifies this`rto
      ensures View() == BackedOff(old(View())) && Bounded(View(), BIG)
      ensures rto == if old(rto) > 30_000_000 then 60_000_000 else 2 * old(rto)
    {
      var r := W(rto * 2);
      if r > MAX || r < 0 { r := MAX; }
      rto := r;
    }
  }

  lemma SampledIs(e: Est, r0: int)
    ensures var e', r := Sampled(e, r0), if r0 < 0 then 0 else r0;
      if e.seeded then
        && e'.srtt == e.srtt - e.srtt / 8 + r / 8
        && e'.rttvar == e.rttvar - e.rttvar / 4 + (if e.srtt < r then r - e.srtt else e.srtt - r) / 4
      else e'.srtt == r && e'.rttvar == r / 2
  {
  }

  lemma TimeoutExact(x: int)
    requires 0 <= x
    ensures Clamp(W(x)) == Clamp(x) <==> x <= BIG || W(x) >= MAX
    ensures MIN <= Clamp(W(x)) <= MAX
  {
    if x <= BIG { Exact(x); }
  }

  /** The timeout is the sum itself between its limits, and the limit outside of them. */
  lemma TimeoutIs(x: int)
    requires 0 <= x
    ensures x < 200_000 ==> Clamp(W(x)) == 200_000
    ensures 200_000 <= x <= 60_000_000 ==> Clamp(W(x)) == x
    ensures 60_000_000 < x < 0x8000_0000 ==> Clamp(W(x)) == 60_000_000
  {
    if x <= BIG { Exact(x); }
  }

  /** Section 2.3 of RFC 6298 up to the rounding of the two shifts: an eighth of the way to the sample and
      a quarter of the way to the deviation, within 7 eighths and 3 quarters of a microsecond. */
  lemma Smoothing(e: Est, r: int)
    requires e.seeded && e.srtt >= 0 && e.rttvar >= 0 && r >= 0
    ensures var e', d := Sampled(e, r), if e.srtt < r then r - e.srtt else e.srtt - r;
      && 7 * e.srtt + r - 7 <= 8 * e'.srtt <= 7 * e.srtt + r + 7
      && 3 * e.rttvar + d - 3 <= 4 * e'.rttvar <= 3 * e.rttvar + d + 3
  {
    var d := if e.srtt < r then r - e.srtt else e.srtt - r;
    assert Abs(e.srtt - r) == d;
  }

  /** A first sample of 715827884 microseconds, twelve minutes, gives the smallest timeout, not the largest. */
  lemma WrapsToFloor()
    ensures var e := Sampled(Start, 715_827_884); e.rto == MAX && Clamp(W(e.srtt + 4 * e.rttvar)) == MIN
  {
  }

  // ----- convergence -----

  /** n samples of the same value. */
  function Repeat(e: Est, r: int, n: nat): Est {
    if n == 0 then e else Sampled(Repeat(e, r, n - 1), r)
  }

  predicate Near(e: Est, r: int) { Abs(e.srtt - r) <= 7 }
  predicate Settled(e: Est, r: int) { Near(e, r) && e.rttvar <= 7 }

  /** One sample brings SRTT closer to it, until it is within 7; then it stays there. */
  lemma Closer(e: Est, r: int)
    requires e.seeded && e.srtt >= 0 && r >= 0
    ensures Near(e, r) ==> Near(Sampled(e, r), r)
    ensures !Near(e, r) ==> Abs(Sampled(e, r).srtt - r) < Abs(e.srtt - r)
  {
  }

  /** Near the sample, RTTVAR falls to 7 and stays. */
  lemma Calmer(e: Est, r: int)
    requires e.seeded && e.rttvar >= 0 && Near(e, r) && r >= 0
    ensures e.rttvar <= 7 ==> Sampled(e, r).rttvar <= 7
    ensures e.rttvar > 7 ==> Sampled(e, r).rttvar < e.rttvar
  {
  }

  lemma {:induction false} RepeatBounded(e: Est, r: int, n: nat, m: int)
    requires Bounded(e, m) && e.seeded && 0 <= r <= m
    ensures Bounded(Repeat(e, r, n), m) && Repeat(e, r, n).seeded
  {
    if n > 0 {
      RepeatBounded(e, r, n - 1, m);
      SampleBounded(Repeat(e, r, n - 1), r, m);
    }
  }

  lemma {:induction false} GetsNear(e: Est, r: int, n: nat, m: int)
    requires Bounded(e, m) && e.seeded && 0 <= r <= m
    ensures Near(Repeat(e, r, n), r) || Abs(Repeat(e, r, n).srtt - r) + n <= m
  {
    if n > 0 {
      GetsNear(e, r, n - 1, m);
      RepeatBounded(e, r, n - 1, m);
      Closer(Repeat(e, r, n - 1), r);
    }
  }

  lemma {:induction false} GetsCalm(e: Est, r: int, n: nat, m: int)
    requires Bounded(e, m) && e.seeded && 0 <= r <= m && Near(e, r)
    ensures Near(Repeat(e, r, n), r) && (Repeat(e, r, n).rttvar <= 7 || Repeat(e, r, n).rttvar + n <= m)
  {
    if n > 0 {
      GetsCalm(e, r, n - 1, m);
      RepeatBounded(e, r, n - 1, m);
      Closer(Repeat(e, r, n - 1), r);
      Calmer(Repeat(e, r, n - 1), r);
    }
  }

  lemma {:induction false} RepeatTwice(e: Est, r: int, n: nat, k: nat)
    ensures Repeat(e, r, n + k) == Repeat(Repeat(e, r, n), r, k)
  {
    hide Sampled;
    if k > 0 { RepeatTwice(e, r, n, k - 1); }
  }

  /** From any seeded state, repeating a sample settles the estimator within 2m steps for good: SRTT stays
      within 7 microseconds of it, and the timeout, where no limit cuts it, between 7 below and 35 above. */
  lemma Converges(e: Est, r: int, m: int, n: nat)
    requires Bounded(e, m) && e.seeded && 0 <= r <= m && n >= 2 * m + 2
    ensures Settled(Repeat(e, r, n), r)
    ensures var f := Repeat(e, r, n); r - 7 <= f.srtt <= r + 7 && 0 <= f.rttvar <= 7
    ensures var rto := Repeat(e, r, n).rto; (rto == 200_000 || rto <= r + 35) && (r - 7 <= rto || rto == 60_000_000)
  {
    hide Sampled;
    var k := m + 1;
    GetsNear(e, r, k, m);
    RepeatBounded(e, r, k, m);
    RepeatTwice(e, r, k, n - k);
    GetsCalm(Repeat(e, r, k), r, n - k, m);
    RepeatBounded(e, r, n, m);
    LastTimeout(Repeat(e, r, n - 1), r);
  }

  lemma SampleForm(e: Est, r: int)
    ensures Sampled(e, r) == Est(true, Sampled(e, r).srtt, Sampled(e, r).rttvar, Clamp(Sampled(e, r).srtt + 4 * Sampled(e, r).rttvar))
  {
  }

  lemma LastTimeout(e: Est, r: int)
    requires Settled(Sampled(e, r), r) && Sampled(e, r).rttvar >= 0
    ensures var rto := Sampled(e, r).rto; (rto == 200_000 || rto <= r + 35) && (r - 7 <= rto || rto == 60_000_000)
  {
  }
}
