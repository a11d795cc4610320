/** The diff loop of rd_redisplay: repaint the cells that changed, and report where. */
module Redisplay {
  const CW: nat := 20
  const CH: nat := 40

  datatype Cell = Cell(ch: nat, face: nat)
  datatype Pos = Pos(col: int, row: int)
  datatype Rect = Rect(x: int, y: int, w: int, h: int)

  /** The cells of a frame, row by row. */
  type Grid = seq<seq<Cell>>

  /** A pixel of a painted cell: a function of the cell, of the cursor's inversion, and of the place
      inside the cell. Font and faces stay abstract but fixed. */
  datatype Look = Look(pixel: (Cell, bool, nat, nat) -> int)

  ghost function GridOf(a: array2<Cell>): (g: Grid)
    reads a
    ensures |g| == a.Length0 && forall r :: 0 <= r < |g| ==> |g[r]| == a.Length1
    ensures forall r, c :: 0 <= r < a.Length0 && 0 <= c < a.Length1 ==> g[r][c] == a[r, c]
  {
    seq(a.Length0, r requires 0 <= r < a.Length0 reads a =>
      seq(a.Length1, c requires 0 <= c < a.Length1 reads a => a[r, c]))
  }

  ghost predicate Sized(g: Grid, rows: nat, cols: nat) {
    |g| == rows && forall r :: 0 <= r < rows ==> |g[r]| == cols
  }

  // ----- pixels -----

  /** Pixel (x, y) lies in cell (row, col). */
  predicate InCell(row: nat, col: nat, x: int, y: int) {
    col * CW <= x < (col + 1) * CW && row * CH <= y < (row + 1) * CH
  }

  /** The pixels of one cell are those of this cell and inversion. */
  ghost predicate Shown(look: Look, fb: array2<int>, cell: Cell, inv: bool, row: nat, col: nat)
    requires fb.Length0 >= (row + 1) * CH && fb.Length1 >= (col + 1) * CW
    reads fb
  {
    forall y, x :: InCell(row, col, x, y) ==> fb[y, x] == look.pixel(cell, inv, x - col * CW, y - row * CH)
  }

  /** Every cell of the grid is painted, the cursor's inverted. */
  ghost predicate Painted(look: Look, fb: array2<int>, g: Grid, cur: Pos, rows: nat, cols: nat)
    requires Sized(g, rows, cols) && fb.Length0 >= rows * CH && fb.Length1 >= cols * CW
    reads fb
  {
    forall r, c :: 0 <= r < rows && 0 <= c < cols ==> Shown(look, fb, g[r][c], cur == Pos(c, r), r, c)
  }

  /** paint_cell: writes its own rectangle and nothing else. */
  method PaintCell(look: Look, fb: array2<int>, col: nat, row: nat, cell: Cell, inv: bool)
    requires fb.Length0 >= (row + 1) * CH && fb.Length1 >= (col + 1) * CW
    modifies fb
    ensures Shown(look, fb, cell, inv, row, col)
    ensures forall y, x :: 0 <= y < fb.Length0 && 0 <= x < fb.Length1 && !InCell(row, col, x, y) ==> fb[y, x] == old(fb[y, x])
  {
    for gy := 0 to CH
      invariant forall y, x :: 0 <= y < fb.Length0 && 0 <= x < fb.Length1 ==>
        fb[y, x] == if InCell(row, col, x, y) && y < row * CH + gy then look.pixel(cell, inv, x - col * CW, y - row * CH) else old(fb[y, x])
    {
      for gx := 0 to CW
        invariant forall y, x :: 0 <= y < fb.Length0 && 0 <= x < fb.Length1 ==>
          fb[y, x] == if InCell(row, col, x, y) && (y < row * CH + gy || (y == row * CH + gy && x < col * CW + gx))
                      then look.pixel(cell, inv, x - col * CW, y - row * CH) else old(fb[y, x])
      {
        fb[row * CH + gy, col * CW + gx] := look.pixel(cell, inv, gx, gy);
      }
    }
  }

  /** Two framebuffers that show the same grid and agree outside of it are the same. */
  lemma PaintedUnique(look: Look, fb: array2<int>, fb': array2<int>, g: Grid, cur: Pos, rows: nat, cols: nat, x: nat, y: nat)
    requires Sized(g, rows, cols) && fb.Length0 == fb'.Length0 >= rows * CH && fb.Length1 == fb'.Length1 >= cols * CW
    requires Painted(look, fb, g, cur, rows, cols) && Painted(look, fb', g, cur, rows, cols)
    requires x < cols * CW && y < rows * CH
    ensures fb[y, x] == fb'[y, x]
  {
    var r, c := y / CH, x / CW;
    assert InCell(r, c, x, y);
    assert Shown(look, fb, g[r][c], cur == Pos(c, r), r, c) && Shown(look, fb', g[r][c], cur == Pos(c, r), r, c);
  }

  // ----- what changed -----

  /** The cell has to be painted again: its contents changed, or the cursor came or went. */
  predicate Changed(f: Grid, b: Grid, was: Pos, now: Pos, r: nat, c: nat)
    requires r < |f| && r < |b| && c < |f[r]| && c < |b[r]|
  {
    f[r][c] != b[r][c] || (now == Pos(c, r)) != (was == Pos(c, r))
  }

  /** A run of changed cells ends in front of column c. */
  predicate Closes(f: Grid, b: Grid, was: Pos, now: Pos, r: nat, c: nat)
    requires r < |f| && r < |b| && 0 < c <= |f[r]| == |b[r]|
  {
    Changed(f, b, was, now, r, c - 1) && (c == |f[r]| || !Changed(f, b, was, now, r, c))
  }

  /** Runs of changed cells that end before column n of row r. */
  function RunsIn(f: Grid, b: Grid, was: Pos, now: Pos, r: nat, n: nat): nat
    requires r < |f| && r < |b| && n <= |f[r]| + 1 && |f[r]| == |b[r]|
  {
    if n < 2 then 0
    else RunsIn(f, b, was, now, r, n - 1) + (if Closes(f, b, was, now, r, n - 1) then 1 else 0)
  }

  /** ... in the first n rows. */
  function Runs(f: Grid, b: Grid, was: Pos, now: Pos, cols: nat, n: nat): nat
    requires Sized(f, |f|, cols) && Sized(b, |f|, cols) && n <= |f|
  {
    if n == 0 then 0 else Runs(f, b, was, now, cols, n - 1) + RunsIn(f, b, was, now, n - 1, cols + 1)
  }

  /** A run of changed cells: columns [from, to) of a row. */
  datatype Run = Run(row: nat, from: nat, to: nat)

  function RunRect(u: Run): Rect {
    Rect(u.from * CW, u.row * CH, (u.to - u.from) * CW, CH)
  }

  predicate InRuns(us: seq<Run>, r: nat, c: nat) {
    exists k :: 0 <= k < |us| && us[k].row == r && us[k].from <= c < us[k].to
  }

  /** The rectangle covers the whole of the cell. */
  predicate CoversCell(q: Rect, r: nat, c: nat) {
    q.x <= c * CW && (c + 1) * CW <= q.x + q.w && q.y <= r * CH && (r + 1) * CH <= q.y + q.h
  }

  lemma RunCovers(u: Run, r: nat, c: nat)
    requires u.from < u.to
    ensures CoversCell(RunRect(u), r, c) <==> u.row == r && u.from <= c < u.to
  {
  }

  // ----- the same in pixels -----

  /** What a painted framebuffer shows, pixel by pixel: cells are 20 pixels wide and 40 high. */
  lemma PaintedIs(look: Look, fb: array2<int>, g: Grid, cur: Pos, rows: nat, cols: nat, x: nat, y: nat)
    requires Sized(g, rows, cols) && fb.Length0 >= rows * CH && fb.Length1 >= cols * CW
    requires Painted(look, fb, g, cur, rows, cols) && x < cols * 20 && y < rows * 40
    ensures y < fb.Length0 && x < fb.Length1
    ensures fb[y, x] == look.pixel(g[y / 40][x / 20], cur.col == x / 20 && cur.row == y / 40, x % 20, y % 40)
  {
    var r, c := y / 40, x / 20;
    assert InCell(r, c, x, y) && Shown(look, fb, g[r][c], cur == Pos(c, r), r, c);
  }

  /** The cells to paint: other contents, or the cursor was or is there, but not both. */
  lemma ChangedIs(f: Grid, b: Grid, was: Pos, now: Pos, r: nat, c: nat)
    requires r < |f| && r < |b| && c < |f[r]| && c < |b[r]|
    ensures !Changed(f, b, was, now, r, c) <==>
      f[r][c] == b[r][c] && (was.col == c && was.row == r <==> now.col == c && now.row == r)
  {
  }

  /** A reported cell lies inside a rectangle with all of its pixels, and a run's rectangle has no others. */
  lemma CoversIs(q: Rect, u: Run, r: nat, c: nat)
    requires u.from < u.to
    ensures CoversCell(q, r, c) <==> q.x <= 20 * c && 20 * c + 20 <= q.x + q.w && q.y <= 40 * r && 40 * r + 40 <= q.y + q.h
    ensures RunRect(u) == Rect(20 * u.from, 40 * u.row, 20 * (u.to - u.from), 40)
  {
  }

  /** A changed cell with nothing changed behind it. */
  predicate Last(f: Grid, b: Grid, was: Pos, now: Pos, r: nat, c: nat)
    requires r < |f| && r < |b| && |f[r]| == |b[r]| && c < |f[r]|
  {
    Changed(f, b, was, now, r, c) && (c + 1 == |f[r]| || !Changed(f, b, was, now, r, c + 1))
  }

  function Lasts(f: Grid, b: Grid, was: Pos, now: Pos, r: nat, n: nat): set<nat>
    requires r < |f| && r < |b| && |f[r]| == |b[r]| && n <= |f[r]|
  {
    set c: nat | c < n && Last(f, b, was, now, r, c)
  }

  lemma {:induction false} RunsInIs(f: Grid, b: Grid, was: Pos, now: Pos, r: nat, n: nat)
    requires r < |f| && r < |b| && |f[r]| == |b[r]| && n <= |f[r]|
    ensures RunsIn(f, b, was, now, r, n + 1) == |Lasts(f, b, was, now, r, n)|
  {
    hide Changed;
    if n == 0 {
      assert Lasts(f, b, was, now, r, n) == {};
    } else {
      RunsInIs(f, b, was, now, r, n - 1);
      assert Lasts(f, b, was, now, r, n) ==
        Lasts(f, b, was, now, r, n - 1) + if Closes(f, b, was, now, r, n) then {n - 1} else {};
    }
  }

  /** Row n adds its runs to the count, one for each of its last cells. */
  lemma RunsIs(f: Grid, b: Grid, was: Pos, now: Pos, cols: nat, n: nat)
    requires Sized(f, |f|, cols) && Sized(b, |f|, cols) && n < |f|
    ensures Runs(f, b, was, now, cols, 0) == 0
    ensures Runs(f, b, was, now, cols, n + 1) == Runs(f, b, was, now, cols, n) + |Lasts(f, b, was, now, n, cols)|
  {
    RunsInIs(f, b, was, now, n, cols);
  }

  // ----- the rectangle that has run out of slots -----

  /** The out-of-slots branch: the last rectangle is grown towards a further run. */
  function Grown(q: Rect, u: Run): Rect {
    var q1 := if q.x > u.from * CW then q.(x := u.from * CW) else q;
    var q2 := if q1.y + q1.h < (u.row + 1) * CH then q1.(h := (u.row + 1) * CH - q1.y) else q1;
    if q2.x + q2.w < u.to * CW then q2.(w := u.to * CW - q2.x) else q2
  }

  lemma GrownIs(q: Rect, u: Run, q': Rect)
    requires var q1 := if q.x > u.from * CW then q.(x := u.from * CW) else q;
      var q2 := if q1.y + q1.h < (u.row + 1) * CH then q1.(h := (u.row + 1) * CH - q1.y) else q1;
      q' == if q2.x + q2.w < u.to * CW then q2.(w := u.to * CW - q2.x) else q2
    ensures q' == Grown(q, u)
  {
  }

  predicate Contains(q: Rect, p: Rect) {
    q.x <= p.x && p.x + p.w <= q.x + q.w && q.y <= p.y && p.y + p.h <= q.y + q.h
  }

  /** Growing covers the new run always, and the old rectangle exactly when the left edge did not have
      to move or the new run reaches the old right edge: moving x alone gives the right edge away. */
  lemma GrownCovers(q: Rect, u: Run)
    requires u.from < u.to && q.y <= u.row * CH
    ensures Contains(Grown(q, u), RunRect(u))
    ensures Contains(Grown(q, u), q) <==> q.x <= u.from * CW || q.x + q.w <= u.to * CW
  {
  }

  /** The last slot after it took in all of the runs, in order. */
  function Merge(us: seq<Run>): Rect
    requires us != []
  {
    if |us| == 1 then RunRect(us[0]) else Grown(Merge(us[..|us| - 1]), us[|us| - 1])
  }

  /** The rectangle contains every run's. */
  ghost predicate TakesIn(q: Rect, us: seq<Run>) {
    forall k :: 0 <= k < |us| ==> Contains(q, RunRect(us[k]))
  }

  lemma Inside(q: Rect, us: seq<Run>, k: nat, r: nat, c: nat)
    requires TakesIn(q, us) && k < |us| && CoversCell(RunRect(us[k]), r, c)
    ensures CoversCell(q, r, c)
  {
    assert Contains(q, RunRect(us[k]));
  }

  predicate Ahead(u: Run, v: Run) {
    u.row < v.row || (u.row == v.row && u.to <= v.from)
  }

  /** Runs in reading order, apart from each other. */
  ghost predicate InOrder(us: seq<Run>) {
    (forall k :: 0 <= k < |us| ==> us[k].from < us[k].to) && forall i, j :: 0 <= i < j < |us| ==> Ahead(us[i], us[j])
  }

  /** Taking in the last run loses nothing: it reaches as far right as every run before it, or it does
      not start left of them all and nothing was lost before. */
  predicate NoLoss(us: seq<Run>) {
    |us| <= 1
    || (forall k :: 0 <= k < |us| - 1 ==> us[k].to <= us[|us| - 1].to)
    || (NoLoss(us[..|us| - 1]) && exists k :: 0 <= k < |us| - 1 && us[k].from <= us[|us| - 1].from)
  }

  /** q reaches left and down far enough for every run, and no farther to either side than some run. */
  ghost predicate Bounds(us: seq<Run>, q: Rect) {
    && (forall k :: 0 <= k < |us| ==> q.x <= us[k].from * CW && q.y <= us[k].row * CH && (us[k].row + 1) * CH <= q.y + q.h)
    && (exists k :: 0 <= k < |us| && q.x == us[k].from * CW) && exists k :: 0 <= k < |us| && q.x + q.w <= us[k].to * CW
  }

  ghost predicate Reaches(us: seq<Run>, to: int) {
    forall k :: 0 <= k < |us| ==> us[k].to * CW <= to
  }

  /** What the last slot ends up as. */
  lemma {:induction false} MergeFacts(us: seq<Run>)
    requires us != [] && InOrder(us)
    ensures Bounds(us, Merge(us)) && (NoLoss(us) <==> Reaches(us, Merge(us).x + Merge(us).w))
  {
    hide Bounds, Reaches, NoLoss, Grown, Merge, InOrder;
    var n := |us| - 1;
    if n == 0 {
      OneRun(us);
    } else {
      var p, u := us[..n], us[n];
      assert us == p + [u];
      OrderedFront(us);
      MergeFacts(p);
      MergeLast(us);
      StepBounds(p, u, Merge(p));
      StepLoss(p, u, Merge(p));
    }
  }

  lemma OneRun(us: seq<Run>)
    requires |us| == 1 && InOrder(us)
    ensures Bounds(us, Merge(us)) && NoLoss(us) && Reaches(us, Merge(us).x + Merge(us).w)
  {
    assert us[0].from * CW == Merge(us).x && us[0].to * CW == Merge(us).x + Merge(us).w;
  }

  lemma OrderedFront(us: seq<Run>)
    requires |us| > 1 && InOrder(us)
    ensures var p, u := us[..|us| - 1], us[|us| - 1];
      InOrder(p) && u.from < u.to && forall k :: 0 <= k < |p| ==> p[k].row <= u.row
  {
    forall k | 0 <= k < |us| - 1 ensures us[k].row <= us[|us| - 1].row { assert Ahead(us[k], us[|us| - 1]); }
  }

  lemma MergeLast(us: seq<Run>)
    requires |us| > 1
    ensures Merge(us) == Grown(Merge(us[..|us| - 1]), us[|us| - 1])
  {
  }

  lemma StepBounds(p: seq<Run>, u: Run, q: Rect)
    requires p != [] && u.from < u.to && Bounds(p, q) && forall k :: 0 <= k < |p| ==> p[k].row <= u.row
    ensures Bounds(p + [u], Grown(q, u))
  {
    var us, q1 := p + [u], Grown(q, u);
    var i :| 0 <= i < |p| && q.x == p[i].from * CW;
    var j :| 0 <= j < |p| && q.x + q.w <= p[j].to * CW;
    assert us[|p|] == u && us[i] == p[i] && us[j] == p[j];
    assert q.y <= p[i].row * CH;
    assert us[if q1.x == q.x then i else |p|].from * CW == q1.x;
    assert q1.x + q1.w <= us[if q1.x + q1.w <= q.x + q.w then j else |p|].to * CW;
    forall k | 0 <= k < |us| ensures q1.x <= us[k].from * CW && q1.y <= us[k].row * CH && (us[k].row + 1) * CH <= q1.y + q1.h {
      if k < |p| { assert us[k] == p[k]; }
    }
  }

  lemma StepLoss(p: seq<Run>, u: Run, q: Rect)
    requires p != [] && u.from < u.to && Bounds(p, q) && (NoLoss(p) <==> Reaches(p, q.x + q.w))
    ensures NoLoss(p + [u]) <==> Reaches(p + [u], Grown(q, u).x + Grown(q, u).w)
  {
    var us, q1 := p + [u], Grown(q, u);
    assert us[..|p|] == p && us[|p|] == u;
    assert forall k :: 0 <= k < |p| ==> us[k] == p[k];
    var left := exists k :: 0 <= k < |p| && p[k].from <= u.from;
    var wide := forall k :: 0 <= k < |p| ==> p[k].to <= u.to;
    assert NoLoss(us) <==> wide || (NoLoss(p) && left);
    hide NoLoss;
    assert left <==> q.x <= u.from * CW;
    var to := q1.x + q1.w;
    assert Reaches(us, to) <==> Reaches(p, to) by { assert u.to * CW <= to; }
    if wide {
      assert forall k :: 0 <= k < |p| ==> p[k].to * CW <= u.to * CW;
    } else {
      var m :| 0 <= m < |p| && p[m].to > u.to;
      assert p[m].to * CW > u.to * CW;
      if left { assert to == q.x + q.w || to == u.to * CW; } else { Narrower(p, u, q); }
    }
  }

  /** Moving the left edge alone loses the old right edge for good. */
  lemma Narrower(p: seq<Run>, u: Run, q: Rect)
    requires Bounds(p, q) && u.from * CW < q.x && exists m :: 0 <= m < |p| && p[m].to > u.to
    ensures !Reaches(p, Grown(q, u).x + Grown(q, u).w)
  {
    var j :| 0 <= j < |p| && q.x + q.w <= p[j].to * CW;
    var m :| 0 <= m < |p| && p[m].to > u.to;
    assert p[m].to * CW > u.to * CW;
    assert Grown(q, u).x + Grown(q, u).w < q.x + q.w || Grown(q, u).x + Grown(q, u).w == u.to * CW;
  }

  /** The last slot covers every run it took in if and only if nothing was lost. */
  lemma MergeCovers(us: seq<Run>)
    requires us != [] && InOrder(us)
    ensures TakesIn(Merge(us), us) <==> NoLoss(us)
  {
    MergeFacts(us);
    hide Merge, NoLoss, InOrder;
    assert forall k :: 0 <= k < |us| ==> (Contains(Merge(us), RunRect(us[k])) <==> us[k].to * CW <= Merge(us).x + Merge(us).w);
  }

  /** One slot, and the runs [5, 7) of row 0 and [3, 4) of row 1: cell (0, 6) changed and is not
      reported. */
  lemma LostCell()
    ensures var us := [Run(0, 5, 7), Run(1, 3, 4)]; InOrder(us) && InRuns(us, 0, 6) && !NoLoss(us) && !CoversCell(Merge(us), 0, 6)
  {
    var us := [Run(0, 5, 7), Run(1, 3, 4)];
    assert us[0].row == 0 && us[0].from <= 6 < us[0].to;
    assert us[..1] == [Run(0, 5, 7)];
  }

  // ----- the loop -----

  /** Cells before (row, col) in reading order. */
  predicate Done(r: int, c: int, row: int, col: int) {
    r < row || (r == row && c < col)
  }

  /** The runs end in front of column col of the row. */
  ghost predicate Before(us: seq<Run>, row: nat, col: int) {
    forall k :: 0 <= k < |us| ==> us[k].row < row || (us[k].row == row && us[k].to <= col)
  }

  /** A run behind the others keeps the order. */
  lemma OrderSnoc(us: seq<Run>, u: Run)
    requires InOrder(us) && Before(us, u.row, u.from) && u.from < u.to
    ensures InOrder(us + [u]) && Before(us + [u], u.row, u.to)
  {
    var w := us + [u];
    forall i, j | 0 <= i < j < |w| ensures Ahead(w[i], w[j]) { assert w[i] == us[i] && (j < |us| ==> w[j] == us[j]); }
  }

  /** The runs closed so far and the open one cover the changed cells passed so far, and no others. */
  ghost predicate RunsAt(f: Grid, b: Grid, was: Pos, now: Pos, rows: nat, cols: nat, us: seq<Run>, row: nat, col: nat, start: int)
    requires Sized(f, rows, cols) && Sized(b, rows, cols)
  {
    && (forall k :: 0 <= k < |us| ==> us[k].from < us[k].to <= cols && us[k].row < rows && Done(us[k].row, us[k].to - 1, row, col))
    && InOrder(us) && Before(us, row, if start >= 0 then start else col)
    && (forall r, c :: 0 <= r < rows && 0 <= c < cols && Done(r, c, row, col) ==>
          (Changed(f, b, was, now, r, c) <==> InRuns(us, r, c) || (start >= 0 && r == row && start <= c)))
    && (start >= 0 ==> row < rows && start < col <= cols && Changed(f, b, was, now, row, col - 1))
    && (start < 0 && row < rows && 0 < col <= cols ==> !Changed(f, b, was, now, row, col - 1))
  }

  lemma InRunsSnoc(us: seq<Run>, u: Run)
    ensures forall r: nat, c: nat :: InRuns(us + [u], r, c) <==> InRuns(us, r, c) || (u.row == r && u.from <= c < u.to)
  {
    forall r: nat, c: nat ensures InRuns(us + [u], r, c) <==> InRuns(us, r, c) || (u.row == r && u.from <= c < u.to) {
      var w := us + [u];
      assert w[|us|] == u;
      if InRuns(us, r, c) {
        var k :| 0 <= k < |us| && us[k].row == r && us[k].from <= c < us[k].to;
        assert w[k] == us[k];
      }
    }
  }

  /** A changed cell opens a run or lengthens the open one. */
  lemma RunOn(f: Grid, b: Grid, was: Pos, now: Pos, rows: nat, cols: nat, us: seq<Run>, row: nat, col: nat, start: int)
    requires Sized(f, rows, cols) && Sized(b, rows, cols) && row < rows && col < cols
    requires RunsAt(f, b, was, now, rows, cols, us, row, col, start) && Changed(f, b, was, now, row, col)
    ensures RunsAt(f, b, was, now, rows, cols, us, row, col + 1, if start < 0 then col else start)
  {
    hide InOrder;
  }

  /** A cell that did not change, or the end of the row, closes the open run. */
  lemma RunOff(f: Grid, b: Grid, was: Pos, now: Pos, rows: nat, cols: nat, us: seq<Run>, row: nat, col: nat, start: int)
    requires Sized(f, rows, cols) && Sized(b, rows, cols) && row < rows && col <= cols
    requires RunsAt(f, b, was, now, rows, cols, us, row, col, start) && (col < cols ==> !Changed(f, b, was, now, row, col))
    ensures start < 0 ==> RunsAt(f, b, was, now, rows, cols, us, row, col + 1, -1)
    ensures start >= 0 ==> RunsAt(f, b, was, now, rows, cols, us + [Run(row, start, col)], row, col + 1, -1)
  {
    hide InOrder, Before, InRuns, Changed;
    if start >= 0 {
      var u := Run(row, start, col);
      InRunsSnoc(us, u);
      OrderSnoc(us, u);
      Later(us + [u], row, col);
      NotBeyond(us, row, start, col);
      assert forall k :: 0 <= k < |us| ==> (us + [u])[k] == us[k];
    } else {
      Later(us, row, col);
      NotBeyond(us, row, col, col);
    }
  }

  lemma NotBeyond(us: seq<Run>, row: nat, col: nat, c: nat)
    requires Before(us, row, col) && col <= c
    ensures !InRuns(us, row, c)
  {
  }

  lemma Later(us: seq<Run>, row: nat, col: nat)
    requires Before(us, row, col)
    ensures Before(us, row, col + 1)
  {
  }

  class Screen {
    const rows: nat
    const cols: nat
    const front: array2<Cell>
    const back: array2<Cell>
    /** Where the layout put the cursor, and where it was last painted. */
    var cursor: Pos
    var painted: Pos

    ghost predicate Shape()
      reads this
    {
      front != back && front.Length0 == back.Length0 == rows && front.Length1 == back.Length1 == cols
    }

    /** Reading order: what lies before (row, col) is the new grid, the rest still the old one. */
    ghost predicate FrontAt(f: Grid, b: Grid, row: nat, col: nat)
      requires Shape() && Sized(f, rows, cols) && Sized(b, rows, cols)
      reads this, front, back
    {
      && (forall r, c :: 0 <= r < rows && 0 <= c < cols ==> front[r, c] == if Done(r, c, row, col) then b[r][c] else f[r][c])
      && (forall r, c :: 0 <= r < rows && 0 <= c < cols ==> back[r, c] == b[r][c])
    }

    ghost predicate FbAt(look: Look, fb: array2<int>, f: Grid, b: Grid, was: Pos, now: Pos, row: nat, col: nat)
      requires Shape() && Sized(f, rows, cols) && Sized(b, rows, cols) && fb.Length0 >= rows * CH && fb.Length1 >= cols * CW
      reads this, fb
    {
      forall r, c :: 0 <= r < rows && 0 <= c < cols ==>
        if Done(r, c, row, col) then Shown(look, fb, b[r][c], now == Pos(c, r), r, c) else Shown(look, fb, f[r][c], was == Pos(c, r), r, c)
    }

    /** One changed cell: painted, if there is a framebuffer, and copied to the front grid. */
    method Refresh(look: Look, fb: array2?<int>, row: nat, col: nat, ghost f: Grid, ghost b: Grid, ghost was: Pos, now: Pos, ghost shown: bool)
      requires Shape() && Sized(f, rows, cols) && Sized(b, rows, cols) && row < rows && col < cols
      requires FrontAt(f, b, row, col)
      requires fb != null ==> fb.Length0 >= rows * CH && fb.Length1 >= cols * CW
      requires shown ==> fb != null && FbAt(look, fb, f, b, was, now, row, col)
      modifies front, if fb == null then {} else {fb}
      ensures FrontAt(f, b, row, col + 1)
      ensures shown ==> fb != null && FbAt(look, fb, f, b, was, now, row, col + 1)
    {
      if fb != null { Repaint(look, fb, row, col, f, b, was, now, shown); }
      front[row, col] := back[row, col];
    }

    method Repaint(look: Look, fb: array2<int>, row: nat, col: nat, ghost f: Grid, ghost b: Grid, ghost was: Pos, now: Pos, ghost shown: bool)
      requires Shape() && Sized(f, rows, cols) && Sized(b, rows, cols) && row < rows && col < cols && FrontAt(f, b, row, col)
      requires fb.Length0 >= rows * CH && fb.Length1 >= cols * CW && (shown ==> FbAt(look, fb, f, b, was, now, row, col))
      modifies fb
      ensures shown ==> FbAt(look, fb, f, b, was, now, row, col + 1)
    {
      PaintCell(look, fb, col, row, back[row, col], now == Pos(col, row));
    }

    /** A cell that did not change, or the end of a row, is passed as it is. */
    lemma Passed(look: Look, fb: array2?<int>, row: nat, col: nat, f: Grid, b: Grid, was: Pos, now: Pos)
      requires Shape() && Sized(f, rows, cols) && Sized(b, rows, cols) && row < rows && col <= cols && FrontAt(f, b, row, col)
      requires fb != null ==> fb.Length0 >= rows * CH && fb.Length1 >= cols * CW
      requires col < cols ==> !Changed(f, b, was, now, row, col)
      ensures FrontAt(f, b, row, col + 1)
      ensures fb != null && FbAt(look, fb, f, b, was, now, row, col) ==> FbAt(look, fb, f, b, was, now, row, col + 1)
      ensures col == cols ==> FrontAt(f, b, row + 1, 0)
      ensures fb != null && col == cols && FbAt(look, fb, f, b, was, now, row, col) ==> FbAt(look, fb, f, b, was, now, row + 1, 0)
    {
      hide Shown;
    }

    /** The cell at hand still is the old one. */
    lemma At(f: Grid, b: Grid, was: Pos, now: Pos, row: nat, col: nat)
      requires Shape() && Sized(f, rows, cols) && Sized(b, rows, cols) && row < rows && col <= cols && FrontAt(f, b, row, col)
      ensures col < cols ==> (Changed(f, b, was, now, row, col) <==>
        back[row, col] != front[row, col] || (now == Pos(col, row)) != (was == Pos(col, row)))
    {
    }

    /** Nothing done, and everything done. */
    lemma Ends(look: Look, fb: array2?<int>, f: Grid, b: Grid, was: Pos, now: Pos)
      requires Shape() && Sized(f, rows, cols) && Sized(b, rows, cols) && GridOf(back) == b
      requires fb != null ==> fb.Length0 >= rows * CH && fb.Length1 >= cols * CW
      ensures GridOf(front) == f ==> FrontAt(f, b, 0, 0)
      ensures fb != null && Painted(look, fb, f, was, rows, cols) ==> FbAt(look, fb, f, b, was, now, 0, 0)
      ensures FrontAt(f, b, rows, 0) ==> GridOf(front) == b
      ensures fb != null && FbAt(look, fb, f, b, was, now, rows, 0) ==> Painted(look, fb, b, now, rows, cols)
    {
      hide Shown;
      if FrontAt(f, b, rows, 0) {
        forall r | 0 <= r < rows ensures GridOf(front)[r] == b[r] {}
      }
    }

    /** The closed run takes a slot, or the last rectangle grows when there is none. */
    method Record(rects: array<Rect>, max: nat, n0: nat, row: nat, from: nat, col: nat, ghost us: seq<Run>) returns (n: nat)
      requires max <= rects.Length && RectsAt(rects, max, n0, us)
      modifies rects
      ensures RectsAt(rects, max, n, us + [Run(row, from, col)])
    {
      ghost var u := Run(row, from, col);
      if 0 < max <= |us| + 1 { TailSnoc(us, u, max); }
      hide Merge, Grown;
      n := n0;
      if n < max {
        rects[n] := Rect(from * CW, row * CH, (col - from) * CW, CH);
        n := n + 1;
      } else if max > 0 {
        var q := rects[max - 1];
        var x2, y2 := col * CW, (row + 1) * CH;
        if q.x > from * CW { q := q.(x := from * CW); }
        if q.y + q.h < y2 { q := q.(h := y2 - q.y); }
        if q.x + q.w < x2 { q := q.(w := x2 - q.x); }
        rects[max - 1] := q;
        assert q == Grown(old(rects[max - 1]), u) by { GrownIs(old(rects[max - 1]), u, q); }
      }
    }

    /** rd_redisplay on a frame of text windows, the back grid laid out. If the framebuffer showed the
        old front grid with the old cursor, it shows the new grid with the new cursor, just as if every
        cell had been painted. Each damage rectangle is a run of changed cells of a row; as long as the
        runs fit, they cover the changed cells and nothing else. The last one takes in the runs that do
        not fit: all changed cells are covered if and only if that loses nothing. us are the runs. */
    method Redisplay(look: Look, fb: array2?<int>, rects: array<Rect>, max: nat) returns (n: nat, ghost us: seq<Run>)
      requires Shape() && max <= rects.Length
      requires fb != null ==> fb.Length0 >= rows * CH && fb.Length1 >= cols * CW
      modifies this`painted, front, rects, if fb == null then {} else {fb}
      ensures GridOf(front) == GridOf(back) == old(GridOf(back)) && painted == cursor
      ensures fb != null && old(Painted(look, fb, GridOf(front), painted, rows, cols)) ==>
        Painted(look, fb, GridOf(front), painted, rows, cols)
      ensures |us| == Runs(old(GridOf(front)), GridOf(back), old(painted), cursor, cols, rows) && InOrder(us) && RectsAt(rects, max, n, us)
      ensures var f, b := old(GridOf(front)), GridOf(back);
        && (forall r, c :: 0 <= r < rows && 0 <= c < cols ==> (Changed(f, b, old(painted), cursor, r, c) <==> InRuns(us, r, c)))
        && (|us| <= max ==> forall r, c :: 0 <= r < rows && 0 <= c < cols ==>
              (Changed(f, b, old(painted), cursor, r, c) <==> Reported(rects, n, r, c)))
        && ((forall r, c :: 0 <= r < rows && 0 <= c < cols && Changed(f, b, old(painted), cursor, r, c) ==> Reported(rects, n, r, c))
              <==> |us| <= max || (max > 0 && NoLoss(us[max - 1..])))
    {
      hide Done, Changed, RunsAt, RectsAt, Shown, Painted, FrontAt, FbAt, Runs, RunsIn, Closes, InOrder, NoLoss, Reported, InRuns;
      ghost var f, b, was := GridOf(front), GridOf(back), painted;
      us := [];
      ghost var shown := fb != null && Painted(look, fb, f, was, rows, cols);
      n := 0;
      Ends(look, fb, f, b, was, cursor);
      NoRuns(f, b, was, cursor, rows, cols, rects, max);
      for row := 0 to rows
        invariant painted == was && GridOf(back) == b && FrontAt(f, b, row, 0) && (shown ==> FbAt(look, fb, f, b, was, cursor, row, 0))
        invariant RunsAt(f, b, was, cursor, rows, cols, us, row, 0, -1) && RectsAt(rects, max, n, us)
        invariant |us| == Runs(f, b, was, cursor, cols, row)
      {
        var start := -1;
        Counts(f, b, was, cursor, cols, row, 0, start);
        for col := 0 to cols + 1
          invariant painted == was && GridOf(back) == b && (col <= cols ==> FrontAt(f, b, row, col) && (shown ==> FbAt(look, fb, f, b, was, cursor, row, col)))
          invariant col > cols ==> FrontAt(f, b, row + 1, 0) && (shown ==> FbAt(look, fb, f, b, was, cursor, row + 1, 0))
          invariant -1 <= start < col && (col > cols ==> start == -1)
          invariant RunsAt(f, b, was, cursor, rows, cols, us, row, col, start) && RectsAt(rects, max, n, us)
          invariant |us| == Runs(f, b, was, cursor, cols, row) + RunsIn(f, b, was, cursor, row, col)
        {
          var changed := col < cols && (back[row, col] != front[row, col] ||
            (cursor == Pos(col, row)) != (painted == Pos(col, row)));
          At(f, b, was, cursor, row, col);
          RunOpen(f, b, was, cursor, rows, cols, us, row, col, start);
          Counts(f, b, was, cursor, cols, row, col, start);
          if changed {
            RunOn(f, b, was, cursor, rows, cols, us, row, col, start);
            Refresh(look, fb, row, col, f, b, was, cursor, shown);
            if start < 0 { start := col; }
          } else {
            RunOff(f, b, was, cursor, rows, cols, us, row, col, start);
            Passed(look, fb, row, col, f, b, was, cursor);
            if start >= 0 {
              n := Record(rects, max, n, row, start, col, us);
              us := us + [Run(row, start, col)];
              start := -1;
            }
          }
        }
        NextRow(f, b, was, cursor, rows, cols, us, row);
      }
      Ends(look, fb, f, b, was, cursor);
      painted := cursor;
      Found(f, b, was, cursor, rows, cols, us);
      AllCovered(f, b, was, cursor, rows, cols, us, rects, max, n);
    }
  }

  /** The slots used so far hold the runs, one each; the last one takes in all that find no slot. */
  ghost predicate RectsAt(rects: array<Rect>, max: nat, n: nat, us: seq<Run>)
    reads rects
  {
    && n == (if |us| <= max then |us| else max) && n <= rects.Length
    && (forall k :: 0 <= k < n && k < max - 1 ==> rects[k] == RunRect(us[k]))
    && (|us| >= max > 0 ==> rects[max - 1] == Merge(us[max - 1..]))
  }

  lemma TailSnoc(us: seq<Run>, u: Run, max: nat)
    requires 0 < max <= |us| + 1
    ensures (us + [u])[max - 1..] == us[max - 1..] + [u]
    ensures max <= |us| ==> Merge((us + [u])[max - 1..]) == Grown(Merge(us[max - 1..]), u)
    ensures max == |us| + 1 ==> Merge((us + [u])[max - 1..]) == RunRect(u)
  {
    assert (us[max - 1..] + [u])[..|us| + 1 - max] == us[max - 1..];
  }

  lemma NoRuns(f: Grid, b: Grid, was: Pos, now: Pos, rows: nat, cols: nat, rects: array<Rect>, max: nat)
    requires Sized(f, rows, cols) && Sized(b, rows, cols) && max <= rects.Length
    ensures RunsAt(f, b, was, now, rows, cols, [], 0, 0, -1) && RectsAt(rects, max, 0, []) && Runs(f, b, was, now, cols, 0) == 0
  {
  }

  lemma NextRow(f: Grid, b: Grid, was: Pos, now: Pos, rows: nat, cols: nat, us: seq<Run>, row: nat)
    requires Sized(f, rows, cols) && Sized(b, rows, cols) && row < rows
    requires RunsAt(f, b, was, now, rows, cols, us, row, cols + 1, -1)
    ensures RunsAt(f, b, was, now, rows, cols, us, row + 1, 0, -1)
    ensures Runs(f, b, was, now, cols, row + 1) == Runs(f, b, was, now, cols, row) + RunsIn(f, b, was, now, row, cols + 1)
  {
    hide Changed, InRuns, RunsIn;
  }

  /** How the run count moves at column col. */
  lemma Counts(f: Grid, b: Grid, was: Pos, now: Pos, cols: nat, row: nat, col: nat, start: int)
    requires Sized(f, |f|, cols) && Sized(b, |f|, cols) && row < |f| && col <= cols
    ensures col == 0 ==> RunsIn(f, b, was, now, row, col) == 0
    ensures RunsIn(f, b, was, now, row, col + 1) == RunsIn(f, b, was, now, row, col) +
      if col > 0 && Changed(f, b, was, now, row, col - 1) && (col == cols || !Changed(f, b, was, now, row, col)) then 1 else 0
  {
  }

  /** A run is open exactly behind a changed cell. */
  lemma RunOpen(f: Grid, b: Grid, was: Pos, now: Pos, rows: nat, cols: nat, us: seq<Run>, row: nat, col: nat, start: int)
    requires Sized(f, rows, cols) && Sized(b, rows, cols) && row < rows && col <= cols && start < col
    requires RunsAt(f, b, was, now, rows, cols, us, row, col, start)
    ensures start >= 0 <==> col > 0 && Changed(f, b, was, now, row, col - 1)
  {
  }

  /** Rectangle k or the one that took run k in. */
  lemma SlotOf(us: seq<Run>, rects: array<Rect>, max: nat, n: nat, k: nat)
    requires RectsAt(rects, max, n, us) && k < |us| && (k < n || max > 0)
    ensures |us| <= max ==> k < n && rects[k] == RunRect(us[k])
    ensures |us| > max && k < max - 1 ==> k < n && rects[k] == RunRect(us[k])
    ensures |us| > max && k >= max - 1 ==> n == max && rects[max - 1] == Merge(us[max - 1..]) && us[max - 1..][k - (max - 1)] == us[k]
  {
    if |us| <= max && k == max - 1 { assert us[max - 1..] == [us[k]]; }
  }

  /** The changed cell is inside some rectangle reported. */
  ghost predicate Reported(rects: array<Rect>, n: nat, r: nat, c: nat)
    requires n <= rects.Length
    reads rects
  {
    exists k :: 0 <= k < n && CoversCell(rects[k], r, c)
  }

  /** The rectangles cover the cells of all runs if and only if the runs fit their slots, or taking in
      those that do not loses nothing. */
  lemma AllReported(us: seq<Run>, rects: array<Rect>, max: nat, n: nat)
    requires RectsAt(rects, max, n, us) && InOrder(us)
    ensures (forall r: nat, c: nat :: InRuns(us, r, c) ==> Reported(rects, n, r, c)) <==> |us| <= max || (max > 0 && NoLoss(us[max - 1..]))
    ensures |us| <= max ==> forall r: nat, c: nat :: Reported(rects, n, r, c) ==> InRuns(us, r, c)
  {
    hide Merge, NoLoss;
    if |us| <= max {
      forall r: nat, c: nat ensures Reported(rects, n, r, c) <==> InRuns(us, r, c) { FitReported(us, rects, max, n, r, c); }
    } else if max > 0 {
      TailOrder(us, max - 1);
      MergeCovers(us[max - 1..]);
      if NoLoss(us[max - 1..]) {
        forall r: nat, c: nat | InRuns(us, r, c) ensures Reported(rects, n, r, c) { TailReported(us, rects, max, n, r, c); }
      } else {
        LossSeen(us, rects, max, n);
        var r: nat, c: nat :| Missed(us, rects, n, r, c);
      }
    } else {
      assert InRuns(us, us[0].row, us[0].from);
    }
  }

  lemma TailOrder(us: seq<Run>, k: nat)
    requires InOrder(us) && k <= |us|
    ensures InOrder(us[k..])
  {
  }

  lemma FitReported(us: seq<Run>, rects: array<Rect>, max: nat, n: nat, r: nat, c: nat)
    requires RectsAt(rects, max, n, us) && InOrder(us) && |us| <= max
    ensures Reported(rects, n, r, c) <==> InRuns(us, r, c)
  {
    hide RectsAt, RunRect, CoversCell, Merge;
    SlotCount(us, rects, max, n);
    forall k | 0 <= k < |us| ensures CoversCell(rects[k], r, c) <==> us[k].row == r && us[k].from <= c < us[k].to {
      SlotOf(us, rects, max, n, k);
      RunCovers(us[k], r, c);
    }
  }

  /** Some cell of a run is not reported. */
  ghost predicate Missed(us: seq<Run>, rects: array<Rect>, n: nat, r: nat, c: nat)
    requires n <= rects.Length
    reads rects
  {
    InRuns(us, r, c) && !Reported(rects, n, r, c)
  }

  lemma SlotCount(us: seq<Run>, rects: array<Rect>, max: nat, n: nat)
    requires RectsAt(rects, max, n, us)
    ensures n == (if |us| <= max then |us| else max) && n <= rects.Length
  {
  }

  lemma TailReported(us: seq<Run>, rects: array<Rect>, max: nat, n: nat, r: nat, c: nat)
    requires RectsAt(rects, max, n, us) && InOrder(us) && |us| > max > 0 && InRuns(us, r, c)
    requires TakesIn(Merge(us[max - 1..]), us[max - 1..])
    ensures Reported(rects, n, r, c)
  {
    hide Merge, RectsAt;
    var k :| 0 <= k < |us| && us[k].row == r && us[k].from <= c < us[k].to;
    SlotCount(us, rects, max, n);
    SlotOf(us, rects, max, n, k);
    RunCovers(us[k], r, c);
    if k >= max - 1 { Inside(Merge(us[max - 1..]), us[max - 1..], k - (max - 1), r, c); }
    assert CoversCell(rects[if k < max - 1 then k else max - 1], r, c);
  }

  /** When something was lost, the last cell of some run is not inside any rectangle. */
  lemma LossSeen(us: seq<Run>, rects: array<Rect>, max: nat, n: nat)
    requires RectsAt(rects, max, n, us) && InOrder(us) && |us| > max > 0 && !NoLoss(us[max - 1..])
    ensures n <= rects.Length
    ensures exists r: nat, c: nat :: Missed(us, rects, n, r, c)
  {
    var tail := us[max - 1..];
    TailOrder(us, max - 1);
    MergeFacts(tail);
    SlotCount(us, rects, max, n);
    hide Merge, NoLoss, RectsAt, InOrder, Bounds;
    var m: nat :| m < |tail| && tail[m].to * CW > Merge(tail).x + Merge(tail).w;
    assert max - 1 + m < |us|;
    var u := us[max - 1 + m];
    RunSpan(us, max - 1 + m);
    var c: nat := u.to - 1;
    assert InRuns(us, u.row, c);
    forall k | 0 <= k < n ensures !CoversCell(rects[k], u.row, c) {
      SlotOf(us, rects, max, n, k);
      if k < max - 1 {
        RunSpan(us, k);
        RunCovers(us[k], u.row, c);
        InFront(us, k, max - 1 + m);
      }
    }
    assert Missed(us, rects, n, u.row, c);
  }

  lemma RunSpan(us: seq<Run>, k: nat)
    requires InOrder(us) && k < |us|
    ensures us[k].from < us[k].to
  {
  }

  lemma InFront(us: seq<Run>, i: nat, j: nat)
    requires InOrder(us) && i < j < |us|
    ensures us[i].row < us[j].row || (us[i].row == us[j].row && us[i].to <= us[j].from)
  {
    assert Ahead(us[i], us[j]);
  }

  /** The runs found are those of the changed cells. */
  lemma Found(f: Grid, b: Grid, was: Pos, now: Pos, rows: nat, cols: nat, us: seq<Run>)
    requires Sized(f, rows, cols) && Sized(b, rows, cols) && RunsAt(f, b, was, now, rows, cols, us, rows, 0, -1)
    ensures InOrder(us) && forall k :: 0 <= k < |us| ==> us[k].row < rows && us[k].to <= cols
    ensures forall r, c :: 0 <= r < rows && 0 <= c < cols ==> (Changed(f, b, was, now, r, c) <==> InRuns(us, r, c))
  {
    hide Changed, InRuns, InOrder;
  }

  lemma AllCovered(f: Grid, b: Grid, was: Pos, now: Pos, rows: nat, cols: nat, us: seq<Run>, rects: array<Rect>, max: nat, n: nat)
    requires Sized(f, rows, cols) && Sized(b, rows, cols)
    requires RunsAt(f, b, was, now, rows, cols, us, rows, 0, -1) && RectsAt(rects, max, n, us)
    ensures n == (if |us| <= max then |us| else max) && n <= rects.Length
    ensures |us| <= max ==> forall r, c :: 0 <= r < rows && 0 <= c < cols ==> (Changed(f, b, was, now, r, c) <==> Reported(rects, n, r, c))
    ensures (forall r, c :: 0 <= r < rows && 0 <= c < cols && Changed(f, b, was, now, r, c) ==> Reported(rects, n, r, c))
      <==> |us| <= max || (max > 0 && NoLoss(us[max - 1..]))
  {
    hide Changed, RunsAt, RectsAt, InOrder, NoLoss, Reported;
    Found(f, b, was, now, rows, cols, us);
    SlotCount(us, rects, max, n);
    AllReported(us, rects, max, n);
    forall r: nat, c: nat | InRuns(us, r, c) ensures r < rows && c < cols {}
  }
}
