/** put-text-property, set-text-properties and remove-text-properties on the interval table. */
module TextOps {
  import opened TextProps
  import opened TextBuffer

  // ----- how many table slots an update needs -----

  ghost function Edge(s: seq<Ival>, p: int): nat {
    if Cut(s, p) then 0 else 1
  }

  /** The number of maximal uncovered runs inside [a, b). */
  ghost function Runs(s: seq<Ival>, a: int, b: int): nat
    decreases b - a
  {
    if b <= a then 0
    else Runs(s, a, b - 1) + if !Covers(s, b - 1) && (b - 1 == a || Covers(s, b - 2)) then 1 else 0
  }

  /** New intervals needed to give every position of [a, b) an interval of its own range. */
  ghost function Needed(s: seq<Ival>, a: int, b: int): nat {
    Edge(s, a) + Edge(s, b) + Runs(s, a, b)
  }

  lemma {:induction false} RunsSame(s: seq<Ival>, s': seq<Ival>, a: int, b: int)
    requires forall q :: a <= q < b ==> Covers(s', q) == Covers(s, q)
    ensures Runs(s', a, b) == Runs(s, a, b)
    decreases b - a
  {
    if b > a { RunsSame(s, s', a, b - 1); }
  }

  /** A covered stretch counts for nothing. */
  lemma {:induction false} RunsCovered(s: seq<Ival>, a: int, m: int, b: int)
    requires a < m <= b && forall q :: a <= q < m ==> Covers(s, q)
    ensures Runs(s, a, b) == Runs(s, m, b)
    decreases b - a
  {
    if b > m { RunsCovered(s, a, m, b - 1); } else if m > a + 1 { RunsCovered(s, a, m - 1, b - 1); }
  }

  /** An uncovered stretch up to something covered, or to the end, counts for one. */
  lemma {:induction false} RunsGap(s: seq<Ival>, a: int, m: int, b: int)
    requires a < m <= b && (forall q :: a <= q < m ==> !Covers(s, q)) && (m == b || Covers(s, m))
    ensures Runs(s, a, b) == 1 + Runs(s, m, b)
    decreases b - a
  {
    if b > m {
      RunsGap(s, a, m, b - 1);
    } else if m > a + 1 {
      RunsGap(s, a, m - 1, b - 1);
    }
  }

  /** One more interval splits at most one hole. */
  lemma {:induction false} RunsMore(s: seq<Ival>, a: int, b: int)
    requires s != [] && s[0].start <= s[0].end
    ensures Runs(s, a, b) <= Runs(s[1..], a, b) + if b <= s[0].end then 0 else 1
    decreases b - a
  {
    if b > a { RunsMore(s, a, b - 1); }
  }

  /** A table of n intervals leaves at most n + 1 holes. */
  lemma {:induction false} RunsBound(s: seq<Ival>, a: int, b: int)
    requires forall i :: 0 <= i < |s| ==> s[i].start <= s[i].end
    ensures Runs(s, a, b) <= |s| + 1
  {
    if s == [] { RunsNone(a, b); } else { RunsBound(s[1..], a, b); RunsMore(s, a, b); }
  }

  lemma {:induction false} RunsNone(a: int, b: int)
    ensures Runs([], a, b) == if a < b then 1 else 0
    decreases b - a
  {
    if b > a { RunsNone(a, b - 1); }
  }

  // ----- steps of the walk -----

  /** The walk over [start, end) has come to pos: slots below i lie before it, the others after, and
      the positions passed carry their new properties. */
  ghost predicate Walk(s0: seq<Ival>, s: seq<Ival>, i: nat, start: int, pos: int, end: int, len: int, f: Lobj -> Lobj) {
    && Table(s, len) && i <= |s| && Cut(s, end) && start <= pos <= end <= len && 0 <= start
    && (forall k :: 0 <= k < i ==> s[k].end <= pos)
    && (forall k :: i <= k < |s| ==> pos <= s[k].start)
    && Mapped(s0, s, start, pos, f)
  }

  lemma Parts(s: seq<Ival>, i: nat)
    requires i < |s|
    ensures s == s[..i] + [s[i]] + s[i + 1..]
  {
  }

  lemma WalkUpdate(s0: seq<Ival>, s: seq<Ival>, i: nat, start: int, pos: int, end: int, len: int, f: Lobj -> Lobj)
    requires Walk(s0, s, i, start, pos, end, len, f) && i < |s| && pos < end && s[i].start <= pos
    ensures s[i].start == pos && s[i].end <= end
    ensures Walk(s0, s[i := s[i].(plist := f(s[i].plist))], i + 1, start, s[i].end, end, len, f)
  {
    var x := s[i];
    var x' := x.(plist := f(x.plist));
    var a, c, s' := s[..i], s[i + 1..], s[i := x'];
    Parts(s, i);
    Parts(s', i);
    Apart(a, x, c, len);
    forall q ensures Props(s', q) == if start <= q < x.end then f(Props(s0, q)) else Props(s0, q) {
      PropsMiddle(a, x, c, q);
      PropsMiddle(a, x', c, q);
    }
  }

  lemma WalkFill(s0: seq<Ival>, s: seq<Ival>, i: nat, start: int, pos: int, g: int, end: int, len: int, f: Lobj -> Lobj)
    requires Walk(s0, s, i, start, pos, end, len, f) && pos < g <= end && (i < |s| ==> g <= s[i].start)
    ensures Walk(s0, s[..i] + [Ival(pos, g, f(Nil))] + s[i..], i + 1, start, g, end, len, f)
  {
    var x := Ival(pos, g, f(Nil));
    var a, c := s[..i], s[i..];
    var s' := a + [x] + c;
    assert a + c == s;
    forall k | 0 <= k < |c| ensures g <= c[k].start { assert c[k] == s[i + k]; }
    FillTable(a, x, c, len, end);
    FillProps(s0, s, a, x, c, start, pos, g, f);
  }

  lemma FillTable(a: seq<Ival>, x: Ival, c: seq<Ival>, len: int, end: int)
    requires Table(a + c, len) && Cut(a + c, end) && 0 <= x.start < x.end <= end <= len
    requires (forall k :: 0 <= k < |a| ==> a[k].end <= x.start) && (forall k :: 0 <= k < |c| ==> x.end <= c[k].start)
    ensures Table(a + [x] + c, len) && Cut(a + [x] + c, end)
  {
    var s, s' := a + c, a + [x] + c;
    forall k | 0 <= k < |s'| ensures 0 <= s'[k].start < s'[k].end <= len && (s'[k].end <= end || end <= s'[k].start) {
      assert k < |a| ==> s'[k] == s[k];
      assert k > |a| ==> s'[k] == s[k - 1];
    }
    forall k, j | 0 <= k < j < |s'| ensures s'[k].end <= s'[j].start {
      assert k < |a| ==> s'[k] == s[k] && s'[k] == a[k];
      assert k > |a| ==> s'[k] == s[k - 1];
      assert j < |a| ==> s'[j] == s[j];
      assert j > |a| ==> s'[j] == s[j - 1] && s'[j] == c[j - |a| - 1];
    }
  }

  lemma FillProps(s0: seq<Ival>, s: seq<Ival>, a: seq<Ival>, x: Ival, c: seq<Ival>, start: int, pos: int, g: int, f: Lobj -> Lobj)
    requires s == a + c && Mapped(s0, s, start, pos, f) && start <= pos < g && x == Ival(pos, g, f(Nil))
    requires (forall k :: 0 <= k < |a| ==> a[k].end <= pos) && (forall k :: 0 <= k < |c| ==> g <= c[k].start)
    ensures Mapped(s0, a + [x] + c, start, g, f)
  {
    CoversNone(a, c, pos, g);
    forall q ensures Props(a + [x] + c, q) == if start <= q < g then f(Props(s0, q)) else Props(s0, q) {
      PropsMiddle(a, x, c, q);
      PropsAround(a, c, pos, q);
      PropsAround(a, c, g, q);
      if pos <= q < g { Uncovered(s, q); }
    }
  }

  /** Nothing covers the hole between two parts of a table. */
  lemma CoversNone(a: seq<Ival>, c: seq<Ival>, pos: int, g: int)
    requires (forall k :: 0 <= k < |a| ==> a[k].end <= pos) && (forall k :: 0 <= k < |c| ==> g <= c[k].start)
    ensures forall q :: pos <= q < g ==> !Covers(a + c, q)
  {
    forall q | pos <= q < g ensures !Covers(a + c, q) {
      CoversIs(a, q);
      CoversIs(c, q);
      PropsConcat(a, c, q);
    }
  }

  /** A hole is passed when f leaves no properties where there were none. */
  lemma WalkSkip(s0: seq<Ival>, s: seq<Ival>, i: nat, start: int, pos: int, g: int, end: int, len: int, f: Lobj -> Lobj)
    requires Walk(s0, s, i, start, pos, end, len, f) && pos < g <= end && (i < |s| ==> g <= s[i].start) && f(Nil) == Nil
    ensures Walk(s0, s, i, start, g, end, len, f)
  {
    var a, c := s[..i], s[i..];
    assert a + c == s;
    forall k | 0 <= k < |c| ensures g <= c[k].start { assert c[k] == s[i + k]; }
    CoversNone(a, c, pos, g);
    forall q ensures Props(s, q) == if start <= q < g then f(Props(s0, q)) else Props(s0, q) {
      if pos <= q < g { Uncovered(s, q); }
    }
  }

  /** An interval goes when f leaves it nothing. */
  lemma WalkDrop(s0: seq<Ival>, s: seq<Ival>, i: nat, start: int, pos: int, end: int, len: int, f: Lobj -> Lobj)
    requires Walk(s0, s, i, start, pos, end, len, f) && i < |s| && pos < end && s[i].start <= pos && f(s[i].plist) == Nil
    ensures s[i].start == pos && s[i].end <= end
    ensures Walk(s0, s[..i] + s[i + 1..], i, start, s[i].end, end, len, f)
  {
    var a, x, c := s[..i], s[i], s[i + 1..];
    var s' := a + c;
    Parts(s, i);
    Apart(a, x, c, len);
    DropTable(s, i, len, end);
    DropProps(a, x, c);
    forall q ensures Props(s', q) == if start <= q < x.end then f(Props(s0, q)) else Props(s0, q) {
      assert Props(s', q) == (if x.start <= q < x.end then Nil else Props(s, q));
      if x.start <= q < x.end { PropsMiddle(a, x, c, q); }
    }
  }

  lemma DropTable(s: seq<Ival>, i: nat, len: int, end: int)
    requires Table(s, len) && i < |s| && Cut(s, end)
    ensures Table(s[..i] + s[i + 1..], len) && Cut(s[..i] + s[i + 1..], end)
  {
    var s' := s[..i] + s[i + 1..];
    forall k, j | 0 <= k < j < |s'| ensures s'[k].end <= s'[j].start {
      assert s'[k] == s[if k < i then k else k + 1] && s'[j] == s[if j < i then j else j + 1];
    }
  }

  lemma DropProps(a: seq<Ival>, x: Ival, c: seq<Ival>)
    requires (forall k :: 0 <= k < |a| ==> a[k].end <= x.start < x.end) && (forall k :: 0 <= k < |c| ==> x.start < x.end <= c[k].start)
    requires x.start < x.end
    ensures forall q :: Props(a + c, q) == if x.start <= q < x.end then Nil else Props(a + [x] + c, q)
  {
    forall q ensures Props(a + c, q) == if x.start <= q < x.end then Nil else Props(a + [x] + c, q) {
      PropsMiddle(a, x, c, q);
      PropsAround(a, c, x.start, q);
      PropsAround(a, c, x.end, q);
      if x.start <= q < x.end { CoversNone(a, c, x.start, x.end); Uncovered(a + c, q); }
    }
  }

  // ----- how the walk uses slots -----

  lemma CoversMiddle(a: seq<Ival>, x: Ival, c: seq<Ival>, q: int)
    ensures Covers(a + [x] + c, q) <==> Covers(a, q) || x.start <= q < x.end || Covers(c, q)
  {
    PropsConcat(a + [x], c, q);
    PropsConcat(a, [x], q);
  }

  /** Passing an interval takes no slot. */
  lemma RunsUpdate(s: seq<Ival>, i: nat, x': Ival, end: int)
    requires i < |s| && x'.start == s[i].start < x'.end == s[i].end <= end
    ensures Runs(s[i := x'], s[i].end, end) == Runs(s, s[i].start, end)
  {
    var x, s' := s[i], s[i := x'];
    Parts(s, i);
    Parts(s', i);
    forall q ensures Covers(s', q) == Covers(s, q) && (x.start <= q < x.end ==> Covers(s, q)) {
      CoversMiddle(s[..i], x, s[i + 1..], q);
      CoversMiddle(s[..i], x', s[i + 1..], q);
    }
    RunsCovered(s, x.start, x.end, end);
    RunsSame(s, s', x.end, end);
  }

  /** Filling a hole takes one. */
  lemma RunsFill(s: seq<Ival>, i: nat, pos: int, g: int, end: int, pl: Lobj)
    requires i <= |s| && pos < g <= end
    requires (forall k :: 0 <= k < i ==> s[k].end <= pos) && (forall k :: i <= k < |s| ==> g <= s[k].start)
    requires g == end || (i < |s| && s[i].start == g < s[i].end)
    ensures Runs(s, pos, end) == 1 + Runs(s[..i] + [Ival(pos, g, pl)] + s[i..], g, end)
  {
    var a, x, c := s[..i], Ival(pos, g, pl), s[i..];
    assert s == a + c;
    CoversNone(a, c, pos, g);
    CoversIs(s, g);
    RunsGap(s, pos, g, end);
    forall q | g <= q < end ensures Covers(a + [x] + c, q) == Covers(s, q) {
      CoversMiddle(a, x, c, q);
      PropsConcat(a, c, q);
    }
    RunsSame(s, a + [x] + c, g, end);
  }

  // ----- where a full table stops the walk -----

  /** How far a put on [a, e) gets, n slots being taken: nowhere if the edges find no slots, to the end
      if the holes do, else to the start of the first hole that finds none. */
  ghost predicate StopsAt(s: seq<Ival>, a: int, e: int, n: nat, m: int) {
    var room := MAX_IVALS - n - Edge(s, a) - Edge(s, e);
    if room < 0 then m == a
    else if Runs(s, a, e) <= room then m == e
    else a <= m < e && !Covers(s, m) && (m == a || Covers(s, m - 1)) && Runs(s, a, m) == room
  }

  /** That is one place. */
  lemma StopsOnce(s: seq<Ival>, a: int, e: int, n: nat, m: int, m': int)
    requires a < e && StopsAt(s, a, e, n, m) && StopsAt(s, a, e, n, m')
    ensures m == m'
  {
    if m < m' < e { RunsGrow(s, a, m + 1, m'); }
    if m' < m < e { RunsGrow(s, a, m' + 1, m); }
  }

  lemma {:induction false} RunsGrow(s: seq<Ival>, a: int, m: int, b: int)
    requires m <= b
    ensures Runs(s, a, m) <= Runs(s, a, b)
    decreases b - m
  {
    if m < b { RunsGrow(s, a, m, b - 1); }
  }

  /** From pos on the same positions are covered. */
  ghost predicate AheadSame(s0: seq<Ival>, s: seq<Ival>, pos: int) {
    forall q :: pos <= q ==> Covers(s, q) == Covers(s0, q)
  }

  /** pos lies inside no hole. */
  ghost predicate AtSeam(s0: seq<Ival>, start: int, pos: int, end: int) {
    pos == start || pos == end || Covers(s0, pos - 1) || Covers(s0, pos)
  }

  lemma {:induction false} RunsJoin(s: seq<Ival>, a: int, m: int, b: int)
    requires a <= m <= b && AtSeam(s, a, m, b)
    ensures Runs(s, a, b) == Runs(s, a, m) + Runs(s, m, b)
    decreases b - m
  {
    if m < b - 1 {
      RunsJoin(s, a, m, b - 1);
    } else if m == b - 1 {
      assert Runs(s, m, m) == 0;
    }
  }

  lemma SeamUpdate(s0: seq<Ival>, s: seq<Ival>, i: nat, x': Ival, start: int, end: int)
    requires i < |s| && AheadSame(s0, s, s[i].start) && x'.start == s[i].start < x'.end == s[i].end
    ensures AheadSame(s0, s[i := x'], s[i].end) && AtSeam(s0, start, s[i].end, end)
  {
    var x := s[i];
    Parts(s, i);
    Parts(s[i := x'], i);
    forall q | x.start <= q ensures Covers(s[i := x'], q) == Covers(s0, q) && (q < x.end ==> Covers(s0, q)) {
      CoversMiddle(s[..i], x, s[i + 1..], q);
      CoversMiddle(s[..i], x', s[i + 1..], q);
    }
  }

  lemma SeamFill(s0: seq<Ival>, s: seq<Ival>, i: nat, start: int, pos: int, g: int, end: int, pl: Lobj)
    requires i <= |s| && pos < g <= end && AheadSame(s0, s, pos)
    requires g == end || (i < |s| && s[i].start == g < s[i].end)
    ensures AheadSame(s0, s[..i] + [Ival(pos, g, pl)] + s[i..], g) && AtSeam(s0, start, g, end)
  {
    var a, x, c := s[..i], Ival(pos, g, pl), s[i..];
    assert s == a + c;
    CoversIs(s, g);
    forall q | g <= q ensures Covers(a + [x] + c, q) == Covers(s0, q) {
      CoversMiddle(a, x, c, q);
      PropsConcat(a, c, q);
    }
  }

  lemma SeamStop(s0: seq<Ival>, s: seq<Ival>, i: nat, start: int, pos: int, end: int)
    requires i <= |s| && start <= pos < end && AheadSame(s0, s, pos) && AtSeam(s0, start, pos, end)
    requires (forall k :: 0 <= k < i ==> s[k].end <= pos) && (forall k :: i <= k < |s| ==> pos < s[k].start)
    ensures !Covers(s0, pos) && (pos == start || Covers(s0, pos - 1))
    ensures Runs(s0, start, end) == Runs(s0, start, pos) + Runs(s, pos, end) && Runs(s, pos, end) > 0
  {
    CoversIs(s, pos);
    RunsJoin(s0, start, pos, end);
    RunsSame(s0, s, pos, end);
    RunsGrow(s, pos, pos + 1, end);
    assert Runs(s, pos, pos) == 0;
  }

  lemma SeamStart(s0: seq<Ival>, start: int, end: int)
    ensures AtSeam(s0, start, start, end)
  {
  }

  lemma StopsEdge(s0: seq<Ival>, start: int, end: int, n: nat)
    requires n + Edge(s0, start) + Edge(s0, end) > MAX_IVALS
    ensures StopsAt(s0, start, end, n, start) && n + Needed(s0, start, end) > MAX_IVALS
  {
  }

  lemma StopsHole(s0: seq<Ival>, start: int, end: int, n: nat, m: int, left: nat)
    requires start <= m < end && !Covers(s0, m) && (m == start || Covers(s0, m - 1)) && left > 0
    requires Runs(s0, start, end) == Runs(s0, start, m) + left && n + Needed(s0, start, end) == MAX_IVALS + left
    ensures StopsAt(s0, start, end, n, m)
  {
  }

  lemma StopsEnd(s0: seq<Ival>, start: int, end: int, n: nat)
    requires n + Needed(s0, start, end) <= MAX_IVALS
    ensures StopsAt(s0, start, end, n, end)
  {
  }

  // ----- the table in place -----

  /** ival_insert_at: the slots from at on move up by one; a full table refuses. */
  method InsertAt(b: Buffer, at: nat, x: Ival) returns (ok: bool)
    requires b.Shape() && at <= b.n
    modifies b`n, b.table
    ensures b.Shape() && ok == (old(b.n) < MAX_IVALS)
    ensures b.Ivals() == if ok then old(b.Ivals())[..at] + [x] + old(b.Ivals())[at..] else old(b.Ivals())
  {
    if b.n >= MAX_IVALS { return false; }
    ghost var s := b.Ivals();
    var i := b.n;
    while i > at
      invariant at <= i <= b.n && b.Shape() && b.n == old(b.n)
      invariant forall k :: 0 <= k < i ==> b.table[k] == s[k]
      invariant forall k :: i < k <= b.n ==> b.table[k] == s[k - 1]
    {
      b.table[i] := b.table[i - 1];
      i := i - 1;
    }
    b.table[at] := x;
    b.n := b.n + 1;
    Shifted(s, at, x, b.Ivals());
    return true;
  }

  /** A sequence with everything from at on one place up is the old one with x put in. */
  lemma Shifted(s: seq<Ival>, at: nat, x: Ival, s': seq<Ival>)
    requires at <= |s| && |s'| == |s| + 1 && s'[at] == x
    requires (forall k :: 0 <= k < at ==> s'[k] == s[k]) && forall k :: at < k <= |s| ==> s'[k] == s[k - 1]
    ensures s' == s[..at] + [x] + s[at..]
  {
  }

  /** ival_remove_at. */
  method RemoveAt(b: Buffer, at: nat)
    requires b.Shape() && at < b.n
    modifies b`n, b.table
    ensures b.Shape() && b.Ivals() == old(b.Ivals())[..at] + old(b.Ivals())[at + 1..]
  {
    ghost var s := b.Ivals();
    var i := at;
    while i < b.n - 1
      invariant at <= i <= b.n - 1 && b.Shape() && b.n == old(b.n)
      invariant forall k :: 0 <= k < at ==> b.table[k] == s[k]
      invariant forall k :: at < k <= i ==> b.table[k - 1] == s[k]
      invariant forall k :: i < k < b.n ==> b.table[k] == s[k]
    {
      b.table[i] := b.table[i + 1];
      i := i + 1;
    }
    forall k | at <= k < b.n - 1 ensures b.table[k] == s[k + 1] { assert b.table[(k + 1) - 1] == s[k + 1]; }
    b.n := b.n - 1;
  }

  /** ival_split_at. */
  method SplitAt(b: Buffer, i: nat, p: int) returns (ok: bool)
    requires b.Shape() && i < b.n
    modifies b`n, b.table
    ensures b.Shape() && ok == (old(b.n) < MAX_IVALS)
    ensures var s := old(b.Ivals());
      b.Ivals() == if ok then s[..i] + [s[i].(end := p), s[i].(start := p)] + s[i + 1..] else s
  {
    if b.n >= MAX_IVALS { return false; }
    ghost var s := b.Ivals();
    var x := b.table[i];
    b.table[i] := x.(end := p);
    assert b.Ivals() == s[i := x.(end := p)];
    ok := InsertAt(b, i + 1, x.(start := p));
    Halves(s, i, x.(end := p), x.(start := p));
  }

  lemma Halves(s: seq<Ival>, i: nat, l: Ival, r: Ival)
    requires i < |s|
    ensures s[i := l][..i + 1] + [r] + s[i := l][i + 1..] == s[..i] + [l, r] + s[i + 1..]
  {
  }

  /** The split prologue: afterwards no interval lies on both sides of p. */
  method SplitEdge(b: Buffer, p: int, ghost len: int) returns (ok: bool)
    requires b.Shape() && Table(b.Ivals(), len)
    modifies b`n, b.table
    ensures b.Shape() && Table(b.Ivals(), len) && SameProps(old(b.Ivals()), b.Ivals())
    ensures ok <==> old(b.n) + Edge(old(b.Ivals()), p) <= MAX_IVALS
    ensures ok ==> Cut(b.Ivals(), p) && b.n == old(b.n) + Edge(old(b.Ivals()), p)
    ensures forall q :: q != p ==> (Cut(b.Ivals(), q) <==> Cut(old(b.Ivals()), q))
    ensures forall q :: Covers(b.Ivals(), q) == Covers(old(b.Ivals()), q)
    ensures !ok ==> b.Ivals() == old(b.Ivals()) && b.n == MAX_IVALS
  {
    ghost var s := b.Ivals();
    var i := 0;
    while i < b.n
      invariant i <= b.n && b.Shape() && b.Ivals() == s && b.n == old(b.n)
      invariant forall k :: 0 <= k < i ==> s[k].end <= p || p <= s[k].start
    {
      if b.table[i].start < p && b.table[i].end > p {
        assert !Cut(s, p);
        Parts(s, i);
        ok := SplitAt(b, i, p);
        if ok { SplitDone(s[..i], s[i], s[i + 1..], p, len); }
        return;
      }
      i := i + 1;
    }
    return true;
  }

  lemma SplitDone(a: seq<Ival>, x: Ival, c: seq<Ival>, p: int, len: int)
    requires Table(a + [x] + c, len) && x.start < p < x.end
    ensures var s, s' := a + [x] + c, a + [x.(end := p), x.(start := p)] + c;
      && Table(s', len) && SameProps(s, s') && Cut(s', p)
      && (forall q :: q != p ==> (Cut(s', q) <==> Cut(s, q))) && forall q :: Covers(s', q) == Covers(s, q)
  {
    var s, s' := a + [x] + c, a + [x.(end := p), x.(start := p)] + c;
    SplitProps(a, x, c, p, len);
    SplitTable(a, x, c, p, len);
    SplitCut(a, x, c, p, p, len);
    forall q | q != p ensures Cut(s', q) <==> Cut(s, q) {
      if Cut(s, q) { SplitCut(a, x, c, p, q, len); }
      if Cut(s', q) { JoinCut(a, x, c, p, q, len); }
    }
    assert s' == a + [x.(end := p)] + ([x.(start := p)] + c);
    forall q ensures Covers(s', q) == Covers(s, q) {
      CoversMiddle(a, x, c, q);
      CoversMiddle(a, x.(end := p), [x.(start := p)] + c, q);
      CoversMiddle([], x.(start := p), c, q);
      assert [] + [x.(start := p)] + c == [x.(start := p)] + c;
    }
  }

  lemma JoinCut(a: seq<Ival>, x: Ival, c: seq<Ival>, p: int, q: int, len: int)
    requires Table(a + [x] + c, len) && x.start < p < x.end && q != p
    requires Cut(a + [x.(end := p), x.(start := p)] + c, q)
    ensures Cut(a + [x] + c, q)
  {
    var s, s' := a + [x] + c, a + [x.(end := p), x.(start := p)] + c;
    assert s'[|a|] == x.(end := p) && s'[|a| + 1] == x.(start := p);
    forall i | 0 <= i < |s| ensures s[i].end <= q || q <= s[i].start {
      assert i < |a| ==> s'[i] == s[i];
      assert i > |a| ==> s'[i + 1] == s[i];
    }
  }

  // ----- the three updates -----

  function Putting(prop: Lobj, val: Lobj): Lobj -> Lobj { pl => Put(pl, prop, val) }
  function Setting(plist: Lobj): Lobj -> Lobj { _ => plist }
  function Stripping(props: Lobj): Lobj -> Lobj { pl => RemoveAll(pl, props) }

  /** Both edges are split; slots used so far and slots still needed add up. */
  ghost predicate Ready(s0: seq<Ival>, s: seq<Ival>, start: int, end: int, len: int) {
    && Table(s, len) && SameProps(s0, s) && Cut(s, start) && Cut(s, end)
    && |s| == |s0| + Edge(s0, start) + Edge(s0, end) && Runs(s, start, end) == Runs(s0, start, end)
  }

  /** The two split loops in front of every update. */
  method SplitEdges(b: Buffer, start: int, end: int) returns (ok: bool)
    requires b.Valid() && start < end
    modifies b`n, b.table
    ensures b.Valid() && b.Length() == old(b.Length()) && SameProps(old(b.Ivals()), b.Ivals())
    ensures ok <==> old(b.n) + Edge(old(b.Ivals()), start) + Edge(old(b.Ivals()), end) <= MAX_IVALS
    ensures ok ==> Ready(old(b.Ivals()), b.Ivals(), start, end, b.Length()) && AheadSame(old(b.Ivals()), b.Ivals(), start)
    ensures !ok ==> b.n == MAX_IVALS
  {
    hide Table, Cut, SameProps, Covers, Runs;
    ghost var s0, len := b.Ivals(), b.Length();
    ok := SplitEdge(b, start, len);
    ghost var s1 := b.Ivals();
    EdgeSame(s0, s1, end);
    if !ok { SameRefl(s0); return; }
    ok := SplitEdge(b, end, len);
    SameTrans(s0, s1, b.Ivals());
    if ok { RunsSame(s0, b.Ivals(), start, end); }
  }

  lemma EdgeSame(s: seq<Ival>, s': seq<Ival>, q: int)
    requires Cut(s', q) <==> Cut(s, q)
    ensures Edge(s', q) == Edge(s, q)
  {
  }

  lemma SameRefl(s: seq<Ival>)
    ensures SameProps(s, s)
  {
  }

  lemma SameTrans(s: seq<Ival>, s1: seq<Ival>, s2: seq<Ival>)
    requires SameProps(s, s1) && SameProps(s1, s2)
    ensures SameProps(s, s2)
  {
  }

  /** Skipping what ends before start brings the walk to its first position. */
  method FirstSlot(b: Buffer, start: int, end: int, ghost s0: seq<Ival>, ghost f: Lobj -> Lobj) returns (i: nat)
    requires b.Shape() && 0 <= start < end <= b.Length() && Ready(s0, b.Ivals(), start, end, b.Length())
    ensures Walk(s0, b.Ivals(), i, start, start, end, b.Length(), f)
  {
    i := 0;
    ghost var s := b.Ivals();
    while i < b.n && b.table[i].end <= start
      invariant i <= b.n && forall k :: 0 <= k < i ==> s[k].end <= start
    {
      i := i + 1;
    }
    assert i < b.n ==> s[i] == b.table[i];
    forall k | i <= k < |s| ensures start <= s[k].start { assert k > i ==> s[i].end <= s[k].start; }
  }

  /** What the clamped range says of the range asked for: outside of it nothing changes, inside of it
      every position of the text is reached if the table holds at most 126 intervals. */
  lemma InRange(s0: seq<Ival>, s: seq<Ival>, start0: int, end0: int, len: int, m: int, f: Lobj -> Lobj)
    requires Table(s0, len)
    requires var a, e := if start0 < 0 then 0 else start0, if end0 > len then len else end0;
      if a >= e then SameProps(s0, s)
      else a <= m <= e && Mapped(s0, s, a, m, f) && (|s0| + Needed(s0, a, e) <= MAX_IVALS ==> m == e)
    ensures forall pos :: pos < start0 || end0 <= pos ==> Props(s, pos) == Props(s0, pos)
    ensures |s0| <= 126 ==>
      forall pos :: 0 <= pos < len && start0 <= pos < end0 ==> Props(s, pos) == f(Props(s0, pos))
  {
    var a, e := if start0 < 0 then 0 else start0, if end0 > len then len else end0;
    RunsBound(s0, a, e);
  }

  /** The splits and the walk of rd_put_text_prop, on a nonempty range of the text. */
  method PutRange(b: Buffer, start: int, end: int, prop: Lobj, val: Lobj) returns (ghost m: int)
    requires b.Valid() && 0 <= start < end <= b.Length()
    modifies b`n, b.table
    ensures b.Valid() && b.Length() == old(b.Length()) && b.Text() == old(b.Text()) && start <= m <= end
    ensures Mapped(old(b.Ivals()), b.Ivals(), start, m, Putting(prop, val)) && (m < end ==> b.n == MAX_IVALS)
    ensures StopsAt(old(b.Ivals()), start, end, old(b.n), m)
    ensures m == end <==> old(b.n) + Needed(old(b.Ivals()), start, end) <= MAX_IVALS
  {
    hide Walk, Ready, Table, Mapped, SameProps, Cut, Runs, Edge, AheadSame, AtSeam, StopsAt, Covers;
    var len := b.Length();
    m := start;
    ghost var s0, f := b.Ivals(), Putting(prop, val);
    ghost var total := b.n + Needed(s0, start, end);
    var ok := SplitEdges(b, start, end);
    SameMapped(s0, b.Ivals(), start, f);
    if !ok {
      StopsEdge(s0, start, end, old(b.n));
      return;
    }
    var i: nat := FirstSlot(b, start, end, s0, f);
    ReadyTotal(s0, b.Ivals(), start, end, len);
    var pos := start;
    SeamStart(s0, start, end);
    while pos < end
      invariant b.Shape() && b.Length() == len && b.Text() == old(b.Text()) && start <= pos <= end
      invariant Walk(s0, b.Ivals(), i, start, pos, end, len, f)
      invariant b.n + Runs(b.Ivals(), pos, end) == total && AheadSame(s0, b.Ivals(), pos) && AtSeam(s0, start, pos, end)
      decreases end - pos
    {
      ghost var s := b.Ivals();
      WalkAt(s0, s, i, start, pos, end, len, f);
      if i < b.n && b.table[i].start <= pos && b.table[i].end <= end {
        var x := b.table[i];
        WalkUpdate(s0, s, i, start, pos, end, len, f);
        RunsUpdate(s, i, x.(plist := f(x.plist)), end);
        SeamUpdate(s0, s, i, x.(plist := f(x.plist)), start, end);
        b.table[i] := x.(plist := Put(x.plist, prop, val));
        assert b.Ivals() == s[i := x.(plist := f(x.plist))];
        pos := x.end;
        i := i + 1;
      } else {
        var g := if i < b.n && b.table[i].start < end && b.table[i].start > pos then b.table[i].start else end;
        WalkFill(s0, s, i, start, pos, g, end, len, f);
        RunsFill(s, i, pos, g, end, f(Nil));
        SeamFill(s0, s, i, start, pos, g, end, f(Nil));
        ok := InsertAt(b, i, Ival(pos, g, Put(Nil, prop, val)));
        if !ok {
          m := pos;
          WalkEnd(s0, s, i, start, pos, end, len, f);
          SeamStop(s0, s, i, start, pos, end);
          StopsHole(s0, start, end, old(b.n), pos, Runs(s, pos, end));
          return;
        }
        pos := g;
        i := i + 1;
      }
    }
    m := end;
    WalkEnd(s0, b.Ivals(), i, start, pos, end, len, f);
    NoRuns(b.Ivals(), end);
    StopsEnd(s0, start, end, old(b.n));
  }

  /** rd_put_text_prop. Positions of [start, m) take the property on top of what they had, m reaching
      the end exactly when the table has the slots. */
  method PutProp(b: Buffer, start0: int, end0: int, prop: Lobj, val: Lobj) returns (ghost m: int)
    requires b.Valid()
    modifies b`n, b.table
    ensures b.Valid() && b.Text() == old(b.Text())
    ensures var a, e := if start0 < 0 then 0 else start0, if end0 > b.Length() then b.Length() else end0;
      && (a >= e ==> b.Ivals() == old(b.Ivals()))
      && (a < e ==> a <= m <= e && Mapped(old(b.Ivals()), b.Ivals(), a, m, Putting(prop, val)))
      && (a < e ==> StopsAt(old(b.Ivals()), a, e, old(b.n), m))
      && (a < e ==> (m == e <==> old(b.n) + Needed(old(b.Ivals()), a, e) <= MAX_IVALS))
      && (a < e && m < e ==> b.n == 256)
    ensures forall pos :: pos < start0 || end0 <= pos ==> Props(b.Ivals(), pos) == Props(old(b.Ivals()), pos)
    ensures old(b.n) <= 126 ==> (forall pos :: 0 <= pos < b.Length() && start0 <= pos < end0 ==>
              Props(b.Ivals(), pos) == Cons(prop, Cons(val, Props(old(b.Ivals()), pos))))
  {
    hide Mapped, StopsAt, Table, Runs, Edge, Cut, SameProps, Props;
    var len := b.Length();
    var start := if start0 < 0 then 0 else start0;
    var end := if end0 > len then len else end0;
    m := start;
    ghost var s0 := b.Ivals();
    SameRefl(s0);
    if start < end { m := PutRange(b, start, end, prop, val); }
    InRange(s0, b.Ivals(), start0, end0, len, m, Putting(prop, val));
  }

  lemma NoRuns(s: seq<Ival>, end: int)
    ensures Runs(s, end, end) == 0
  {
  }

  lemma SameMapped(s0: seq<Ival>, s: seq<Ival>, start: int, f: Lobj -> Lobj)
    requires SameProps(s0, s)
    ensures Mapped(s0, s, start, start, f)
  {
  }

  lemma ReadyTotal(s0: seq<Ival>, s: seq<Ival>, start: int, end: int, len: int)
    requires Ready(s0, s, start, end, len)
    ensures |s| + Runs(s, start, end) == |s0| + Needed(s0, start, end)
  {
  }

  /** What the walk knows about the slot it is at. */
  lemma WalkAt(s0: seq<Ival>, s: seq<Ival>, i: nat, start: int, pos: int, end: int, len: int, f: Lobj -> Lobj)
    requires Walk(s0, s, i, start, pos, end, len, f)
    ensures (forall k :: 0 <= k < i ==> s[k].end <= pos) && i <= |s|
    ensures i < |s| ==> pos <= s[i].start < s[i].end && (s[i].end <= end || end <= s[i].start)
    ensures i < |s| ==> forall k :: i <= k < |s| ==> s[i].start <= s[k].start
    ensures i < |s| && end <= s[i].start ==> forall k :: i <= k < |s| ==> end <= s[k].start
  {
  }

  lemma WalkEnd(s0: seq<Ival>, s: seq<Ival>, i: nat, start: int, pos: int, end: int, len: int, f: Lobj -> Lobj)
    requires Walk(s0, s, i, start, pos, end, len, f)
    ensures Table(s, len) && Mapped(s0, s, start, pos, f)
  {
  }

  /** The splits and the walk of rd_set_text_props, on a nonempty range of the text. */
  method SetRange(b: Buffer, start: int, end: int, plist: Lobj) returns (ghost m: int)
    requires b.Valid() && 0 <= start < end <= b.Length()
    modifies b`n, b.table
    ensures b.Valid() && b.Length() == old(b.Length()) && b.Text() == old(b.Text()) && start <= m <= end
    ensures Mapped(old(b.Ivals()), b.Ivals(), start, m, Setting(plist)) && (m < end ==> b.n == MAX_IVALS)
    ensures plist != Nil ==> StopsAt(old(b.Ivals()), start, end, old(b.n), m)
    ensures plist != Nil ==> (m == end <==> old(b.n) + Needed(old(b.Ivals()), start, end) <= MAX_IVALS)
    ensures plist == Nil ==>
      m == if old(b.n) + Edge(old(b.Ivals()), start) + Edge(old(b.Ivals()), end) <= MAX_IVALS then end else start
  {
    hide Walk, Ready, Table, Mapped, SameProps, Cut, Runs, Edge, AheadSame, AtSeam, StopsAt, Covers;
    var len := b.Length();
    m := start;
    ghost var s0, f := b.Ivals(), Setting(plist);
    ghost var total := b.n + Needed(s0, start, end);
    var ok := SplitEdges(b, start, end);
    SameMapped(s0, b.Ivals(), start, f);
    if !ok {
      StopsEdge(s0, start, end, old(b.n));
      return;
    }
    var i: nat := FirstSlot(b, start, end, s0, f);
    ReadyTotal(s0, b.Ivals(), start, end, len);
    var pos := start;
    SeamStart(s0, start, end);
    while pos < end
      invariant b.Shape() && b.Length() == len && b.Text() == old(b.Text()) && start <= pos <= end
      invariant Walk(s0, b.Ivals(), i, start, pos, end, len, f)
      invariant plist != Nil ==>
        b.n + Runs(b.Ivals(), pos, end) == total && AheadSame(s0, b.Ivals(), pos) && AtSeam(s0, start, pos, end)
      decreases end - pos
    {
      ghost var s := b.Ivals();
      WalkAt(s0, s, i, start, pos, end, len, f);
      if i < b.n && b.table[i].start <= pos && b.table[i].end <= end {
        var x := b.table[i];
        if plist == Nil {
          WalkDrop(s0, s, i, start, pos, end, len, f);
          RemoveAt(b, i);
          pos := x.end;
        } else {
          WalkUpdate(s0, s, i, start, pos, end, len, f);
          RunsUpdate(s, i, x.(plist := f(x.plist)), end);
          SeamUpdate(s0, s, i, x.(plist := f(x.plist)), start, end);
          b.table[i] := x.(plist := plist);
          assert b.Ivals() == s[i := x.(plist := f(x.plist))];
          pos := x.end;
          i := i + 1;
        }
      } else {
        var g := if i < b.n && b.table[i].start < end && b.table[i].start > pos then b.table[i].start else end;
        if plist == Nil {
          WalkSkip(s0, s, i, start, pos, g, end, len, f);
        } else {
          WalkFill(s0, s, i, start, pos, g, end, len, f);
          RunsFill(s, i, pos, g, end, f(Nil));
          SeamFill(s0, s, i, start, pos, g, end, f(Nil));
          ok := InsertAt(b, i, Ival(pos, g, plist));
          if !ok {
            m := pos;
            WalkEnd(s0, s, i, start, pos, end, len, f);
            SeamStop(s0, s, i, start, pos, end);
            StopsHole(s0, start, end, old(b.n), pos, Runs(s, pos, end));
            return;
          }
          i := i + 1;
        }
        pos := g;
      }
    }
    m := end;
    WalkEnd(s0, b.Ivals(), i, start, pos, end, len, f);
    NoRuns(b.Ivals(), end);
    if plist != Nil { StopsEnd(s0, start, end, old(b.n)); }
  }

  /** rd_set_text_props: replaces the properties of the range, or drops its intervals for nil. */
  method SetProps(b: Buffer, start0: int, end0: int, plist: Lobj) returns (ghost m: int)
    requires b.Valid()
    modifies b`n, b.table
    ensures b.Valid() && b.Text() == old(b.Text())
    ensures var a, e := if start0 < 0 then 0 else start0, if end0 > b.Length() then b.Length() else end0;
      && (a >= e ==> b.Ivals() == old(b.Ivals()))
      && (a < e ==> a <= m <= e && Mapped(old(b.Ivals()), b.Ivals(), a, m, Setting(plist)))
      && (a < e && plist != Nil ==> StopsAt(old(b.Ivals()), a, e, old(b.n), m))
      && (a < e && plist != Nil ==> (m == e <==> old(b.n) + Needed(old(b.Ivals()), a, e) <= MAX_IVALS))
      && (a < e && plist == Nil ==> m == if old(b.n) + Edge(old(b.Ivals()), a) + Edge(old(b.Ivals()), e) <= MAX_IVALS then e else a)
      && (a < e && m < e ==> b.n == 256)
    ensures forall pos :: pos < start0 || end0 <= pos ==> Props(b.Ivals(), pos) == Props(old(b.Ivals()), pos)
    ensures old(b.n) <= 126 ==> (forall pos :: 0 <= pos < b.Length() && start0 <= pos < end0 ==>
              Props(b.Ivals(), pos) == plist)
  {
    hide Mapped, StopsAt, Table, Runs, Edge, Cut, SameProps, Props;
    var len := b.Length();
    var start := if start0 < 0 then 0 else start0;
    var end := if end0 > len then len else end0;
    m := start;
    ghost var s0 := b.Ivals();
    SameRefl(s0);
    if start < end { m := SetRange(b, start, end, plist); }
    InRange(s0, b.Ivals(), start0, end0, len, m, Setting(plist));
  }

  // ----- remove -----

  /** The table walked slot by slot: slots below i are done, those from i on are as after the split. */
  ghost predicate Strip(s0: seq<Ival>, s: seq<Ival>, i: nat, start: int, end: int, len: int, f: Lobj -> Lobj) {
    && Table(s, len) && i <= |s| && Cut(s, start) && Cut(s, end) && start < end
    && forall q :: Props(s, q) == if start <= q < end && Before(s, i, q) then f(Props(s0, q)) else Props(s0, q)
  }

  /** Position q lies before slot i, or past every slot. */
  ghost predicate Before(s: seq<Ival>, i: nat, q: int) {
    i >= |s| || q < s[i].start
  }

  /** Between a slot and the next one nothing is covered. */
  lemma HoleAfter(c: seq<Ival>, q: int)
    requires Before(c, 0, q) && forall i, j :: 0 <= i < j < |c| ==> c[i].start <= c[j].start
    ensures Props(c, q) == Nil
  {
    CoversIs(c, q);
    Uncovered(c, q);
  }

  lemma StripTurn(s0: seq<Ival>, s: seq<Ival>, i: nat, start: int, end: int, len: int, f: Lobj -> Lobj)
    requires Strip(s0, s, i, start, end, len, f) && i < |s| && f(Nil) == Nil
    ensures s[i].start < s[i].end
    ensures s[i].start < start || s[i].end > end ==> Strip(s0, s, i + 1, start, end, len, f)
    ensures start <= s[i].start && s[i].end <= end ==>
      Strip(s0, s[i := s[i].(plist := f(s[i].plist))], i + 1, start, end, len, f)
    ensures start <= s[i].start && s[i].end <= end && f(s[i].plist) == Nil ==>
      Strip(s0, s[..i] + s[i + 1..], i, start, end, len, f)
  {
    var a, x, c := s[..i], s[i], s[i + 1..];
    Parts(s, i);
    Apart(a, x, c, len);
    forall q
      ensures q < x.start ==> Props(s, q) == Props(a, q)
      ensures x.start <= q < x.end ==> Props(s, q) == x.plist == Props(s0, q)
      ensures x.end <= q ==> Props(s, q) == Props(c, q) == Props(s0, q)
      ensures x.end <= q && Before(c, 0, q) ==> Props(c, q) == Nil
    {
      PropsMiddle(a, x, c, q);
      if Before(c, 0, q) { HoleAfter(c, q); }
    }
    if x.start < start || x.end > end {
      assert x.end <= start || x.start >= end;
      assert Strip(s0, s, i + 1, start, end, len, f);
    } else {
      StripChange(s0, s, i, start, end, len, f);
    }
  }

  /** What the slot at hand and the ones behind it say about the old table. */
  ghost predicate Ahead(s0: seq<Ival>, s: seq<Ival>, i: nat)
    requires i < |s|
  {
    forall q ::
      && (s[i].start <= q < s[i].end ==> Props(s0, q) == s[i].plist)
      && (s[i].end <= q ==> Props(s0, q) == Props(s[i + 1..], q))
      && (s[i].end <= q && Before(s[i + 1..], 0, q) ==> Props(s[i + 1..], q) == Nil)
  }

  lemma StripChange(s0: seq<Ival>, s: seq<Ival>, i: nat, start: int, end: int, len: int, f: Lobj -> Lobj)
    requires Strip(s0, s, i, start, end, len, f) && i < |s| && f(Nil) == Nil && start <= s[i].start && s[i].end <= end
    requires Ahead(s0, s, i)
    ensures Strip(s0, s[i := s[i].(plist := f(s[i].plist))], i + 1, start, end, len, f)
    ensures f(s[i].plist) == Nil ==> Strip(s0, s[..i] + s[i + 1..], i, start, end, len, f)
  {
    StripUpdate(s0, s, i, start, end, len, f);
    if f(s[i].plist) == Nil { StripDrop(s0, s, i, start, end, len, f); }
  }

  lemma StripUpdate(s0: seq<Ival>, s: seq<Ival>, i: nat, start: int, end: int, len: int, f: Lobj -> Lobj)
    requires Strip(s0, s, i, start, end, len, f) && i < |s| && f(Nil) == Nil && start <= s[i].start && s[i].end <= end
    requires Ahead(s0, s, i)
    ensures Strip(s0, s[i := s[i].(plist := f(s[i].plist))], i + 1, start, end, len, f)
  {
    var a, x, c := s[..i], s[i], s[i + 1..];
    var x' := x.(plist := f(x.plist));
    var s1 := s[i := x'];
    Parts(s, i);
    Parts(s1, i);
    Apart(a, x, c, len);
    SameBounds(s, i, x', start, len);
    SameBounds(s, i, x', end, len);
    hide Table, Cut, Props;
    forall q ensures Props(s1, q) == if start <= q < end && Before(s1, i + 1, q) then f(Props(s0, q)) else Props(s0, q) {
      PropsMiddle(a, x, c, q);
      PropsMiddle(a, x', c, q);
      assert Before(s1, i + 1, q) == Before(c, 0, q);
    }
  }

  lemma SameBounds(s: seq<Ival>, i: nat, x': Ival, p: int, len: int)
    requires Table(s, len) && i < |s| && Cut(s, p) && x'.start == s[i].start && x'.end == s[i].end
    ensures Table(s[i := x'], len) && Cut(s[i := x'], p)
  {
  }

  lemma StripDrop(s0: seq<Ival>, s: seq<Ival>, i: nat, start: int, end: int, len: int, f: Lobj -> Lobj)
    requires Strip(s0, s, i, start, end, len, f) && i < |s| && f(Nil) == Nil && start <= s[i].start && s[i].end <= end
    requires Ahead(s0, s, i) && f(s[i].plist) == Nil
    ensures Strip(s0, s[..i] + s[i + 1..], i, start, end, len, f)
  {
    var a, x, c := s[..i], s[i], s[i + 1..];
    var s2 := a + c;
    Parts(s, i);
    Apart(a, x, c, len);
    DropTable(s, i, len, end);
    DropTable(s, i, len, start);
    DropProps(a, x, c);
    forall q ensures Props(s2, q) == if start <= q < end && Before(s2, i, q) then f(Props(s0, q)) else Props(s0, q) {
      PropsMiddle(a, x, c, q);
      assert Before(s2, i, q) == Before(c, 0, q);
    }
  }

  lemma RemoveSaid(s0: seq<Ival>, s: seq<Ival>, start0: int, end0: int, len: int, m: int, props: Lobj)
    requires Table(s0, len)
    requires var a, e := if start0 < 0 then 0 else start0, if end0 > len then len else end0;
      if a >= e then SameProps(s0, s)
      else a <= m <= e && Mapped(s0, s, a, m, Stripping(props)) && (|s0| + Edge(s0, a) + Edge(s0, e) <= MAX_IVALS ==> m == e)
    ensures forall pos :: pos < start0 || end0 <= pos ==> Props(s, pos) == Props(s0, pos)
    ensures |s0| <= 126 ==> (forall pos, key :: 0 <= pos < len && start0 <= pos < end0 ==>
              Get(Props(s, pos), key) == if Member(key, props) then Nil else Get(Props(s0, pos), key))
  {
    InRange(s0, s, start0, end0, len, m, Stripping(props));
    forall pos, key { GetRemoveAll(Props(s0, pos), props, key); }
  }

  /** rd_remove_text_props: strips the keys from every interval inside the range and drops those left
      without any. It needs slots for the two splits only; without them nothing changes. */
  method RemoveProps(b: Buffer, start0: int, end0: int, props: Lobj)
    requires b.Valid()
    modifies b`n, b.table
    ensures b.Valid() && b.Text() == old(b.Text())
    ensures var a, e := if start0 < 0 then 0 else start0, if end0 > b.Length() then b.Length() else end0;
      && (a >= e ==> b.Ivals() == old(b.Ivals()))
      && (a < e && old(b.n) + Edge(old(b.Ivals()), a) + Edge(old(b.Ivals()), e) <= MAX_IVALS ==>
            Mapped(old(b.Ivals()), b.Ivals(), a, e, Stripping(props)))
      && (old(b.n) + Edge(old(b.Ivals()), a) + Edge(old(b.Ivals()), e) > MAX_IVALS ==>
            SameProps(old(b.Ivals()), b.Ivals()))
    ensures forall pos :: pos < start0 || end0 <= pos ==> Props(b.Ivals(), pos) == Props(old(b.Ivals()), pos)
    ensures old(b.n) <= 126 ==> (forall pos, key :: 0 <= pos < b.Length() && start0 <= pos < end0 ==>
              Get(Props(b.Ivals(), pos), key) == if Member(key, props) then Nil else Get(Props(old(b.Ivals()), pos), key))
  {
    hide Strip, Ready, Table, Mapped, SameProps, Cut, Runs, Edge;
    var len := b.Length();
    var start := if start0 < 0 then 0 else start0;
    var end := if end0 > len then len else end0;
    ghost var s0, f := b.Ivals(), Stripping(props);
    SameRefl(s0);
    if start >= end { RemoveSaid(s0, s0, start0, end0, len, start, props); return; }
    RemoveAllNil(props);
    var ok := SplitEdges(b, start, end);
    SameMapped(s0, b.Ivals(), start, f);
    if !ok { RemoveSaid(s0, b.Ivals(), start0, end0, len, start, props); return; }
    StripStart(s0, b.Ivals(), start, end, len, f);
    var i: nat := 0;
    while i < b.n
      invariant b.Shape() && b.Length() == len && b.Text() == old(b.Text()) && i <= b.n
      invariant Strip(s0, b.Ivals(), i, start, end, len, f)
      decreases b.n - i
    {
      ghost var s := b.Ivals();
      StripTurn(s0, s, i, start, end, len, f);
      if b.table[i].start < start || b.table[i].end > end { i := i + 1; continue; }
      var pl := StripKeys(b.table[i].plist, props);
      if pl == Nil {
        RemoveAt(b, i);
      } else {
        b.table[i] := b.table[i].(plist := pl);
        assert b.Ivals() == s[i := s[i].(plist := f(s[i].plist))];
        i := i + 1;
      }
    }
    StripEnd(s0, b.Ivals(), i, start, end, len, f);
    RemoveSaid(s0, b.Ivals(), start0, end0, len, end, props);
  }

  method StripKeys(plist: Lobj, props: Lobj) returns (pl: Lobj)
    ensures pl == RemoveAll(plist, props)
  {
    pl := plist;
    var kp := props;
    while kp.Cons?
      invariant RemoveAll(pl, kp) == RemoveAll(plist, props)
      decreases kp
    {
      pl := PlistRemove(pl, kp.car);
      kp := kp.cdr;
    }
  }

  lemma StripStart(s0: seq<Ival>, s: seq<Ival>, start: int, end: int, len: int, f: Lobj -> Lobj)
    requires Ready(s0, s, start, end, len) && start < end && f(Nil) == Nil
    ensures Strip(s0, s, 0, start, end, len, f)
  {
    forall q | Before(s, 0, q) ensures Props(s, q) == Nil { HoleAfter(s, q); }
  }

  lemma StripEnd(s0: seq<Ival>, s: seq<Ival>, i: nat, start: int, end: int, len: int, f: Lobj -> Lobj)
    requires Strip(s0, s, i, start, end, len, f) && i >= |s|
    ensures Table(s, len) && Mapped(s0, s, start, end, f)
  {
  }

  // ----- what a reader of one property sees -----

  /** After a put, a position of the range answers the new value for that property and what it did
      before for every other; after a removal, nil for the removed ones. */
  lemma PutSeen(s0: seq<Ival>, s: seq<Ival>, a: int, b: int, prop: Lobj, val: Lobj, pos: int, key: Lobj)
    requires Mapped(s0, s, a, b, Putting(prop, val))
    ensures Get(Props(s, pos), key) == if a <= pos < b && key == prop then val else Get(Props(s0, pos), key)
  {
    GetPut(Props(s0, pos), prop, val, key);
  }

  lemma RemoveSeen(s0: seq<Ival>, s: seq<Ival>, a: int, b: int, props: Lobj, pos: int, key: Lobj)
    requires Mapped(s0, s, a, b, Stripping(props))
    ensures Get(Props(s, pos), key) == if a <= pos < b && Member(key, props) then Nil else Get(Props(s0, pos), key)
  {
    GetRemoveAll(Props(s0, pos), props, key);
  }

  /** rd_get_text_prop. */
  method GetProp(b: Buffer, pos: int, prop: Lobj) returns (v: Lobj)
    requires b.Valid()
    ensures v == Get(Props(b.Ivals(), pos), prop)
  {
    var i := 0;
    ghost var s := b.Ivals();
    assert s[0..] == s;
    while i < b.n
      invariant i <= b.n && Props(s, pos) == Props(s[i..], pos)
    {
      assert s[i] == b.table[i] && s[i..][1..] == s[i + 1..];
      if b.table[i].start <= pos < b.table[i].end {
        v := PlistGet(b.table[i].plist, prop);
        return;
      }
      i := i + 1;
    }
    return Nil;
  }
}
