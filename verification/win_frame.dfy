/** The window tree in its node pool: split, delete, other-window and layout, in place. */
module WinFrame {
  import opened WinTree

  /** RD_MAX_WIN. */
  const POOL: nat := 16

  /** A pool node; a, b and parent are pool indices, -1 for none. */
  datatype Win = Win(used: bool, leaf: bool, vertical: bool, ratio: int, a: int, b: int, parent: int,
                     show: Show, rect: Rect)

  const Blank: Win := Win(true, true, false, 50, -1, -1, -1, Show(0, 0), Rect(0, 0, 0, 0))

  /** Pool node n and those below it spell the tree t, hanging from node p. */
  ghost predicate Rep(pool: seq<Win>, t: Tree, p: int) {
    t.n < |pool| && pool[t.n].used && pool[t.n].parent == p &&
    match t
    case Leaf(n, show) => pool[n].leaf && pool[n].a == -1 && pool[n].b == -1 && pool[n].show == show
    case Node(n, v, ratio, l, r) =>
      && !pool[n].leaf && pool[n].vertical == v && pool[n].ratio == ratio && pool[n].a == l.n && pool[n].b == r.n
      && Rep(pool, l, n) && Rep(pool, r, n)
  }

  /** Two nodes that differ at most in their rectangles. */
  predicate SameNode(w: Win, w': Win) {
    w' == w.(rect := w'.rect)
  }

  lemma {:induction false} RepFrame(pool: seq<Win>, t: Tree, p: int, pool': seq<Win>)
    requires Rep(pool, t, p) && |pool'| == |pool|
    requires forall i :: i in Ids(t) && i < |pool| ==> SameNode(pool[i], pool'[i])
    ensures Rep(pool', t, p)
  {
    if t.Node? {
      RepFrame(pool, t.l, t.n, pool');
      RepFrame(pool, t.r, t.n, pool');
    }
  }

  lemma RepSame(pool: seq<Win>, t: Tree, p: int, pool': seq<Win>)
    requires Rep(pool, t, p) && |pool'| == |pool| && forall i :: i in Ids(t) && 0 <= i < |pool| ==> pool'[i] == pool[i]
    ensures Rep(pool', t, p)
  {
    RepFrame(pool, t, p, pool');
  }

  lemma {:induction false} RepIds(pool: seq<Win>, t: Tree, p: int)
    requires Rep(pool, t, p)
    ensures forall i :: i in Ids(t) ==> i < |pool| && pool[i].used
  {
    if t.Node? {
      RepIds(pool, t.l, t.n);
      RepIds(pool, t.r, t.n);
    }
  }

  lemma {:induction false} RepSub(pool: seq<Win>, t: Tree, p: int, n: nat)
    requires Rep(pool, t, p) && n in Ids(t)
    ensures Rep(pool, Sub(t, n), Above(t, n, p)) && n < |pool|
  {
    if t.n != n {
      if n in Ids(t.l) { RepSub(pool, t.l, t.n, n); } else { RepSub(pool, t.r, t.n, n); }
    }
  }

  /** A subtree replaced in the pool is replaced in the tree. */
  lemma {:induction false} RepPut(pool: seq<Win>, t: Tree, p: int, s: nat, u: Tree, pool': seq<Win>)
    requires Rep(pool, t, p) && Distinct(t) && s in Ids(t) && u.n == s && |pool'| == |pool|
    requires forall i :: i in Ids(t) && i !in Ids(Sub(t, s)) && i < |pool| ==> SameNode(pool[i], pool'[i])
    requires Rep(pool', u, Above(t, s, p))
    ensures Rep(pool', Put(t, s, u), p)
  {
    if t.n != s {
      RepIds(pool, t, p);
      if s in Ids(t.l) {
        SubIn(t.l, s);
        RepPut(pool, t.l, t.n, s, u, pool');
        RepFrame(pool, t.r, t.n, pool');
      } else {
        SubIn(t.r, s);
        RepPut(pool, t.r, t.n, s, u, pool');
        RepFrame(pool, t.l, t.n, pool');
      }
    }
  }

  class Frame {
    var wins: array<Win>
    var root: int
    var selected: int
    ghost var tree: Tree

    /** The used nodes are a single tree with exact parent links and a selected leaf. */
    ghost predicate Valid()
      reads this, wins
    {
      && wins.Length == POOL && Distinct(tree) && Rep(wins[..], tree, -1) && root == tree.n
      && (forall i :: 0 <= i < POOL ==> (wins[i].used <==> i in Ids(tree)))
      && 0 <= selected && selected in Ids(tree) && Sub(tree, selected).Leaf? && Ratios(tree)
    }

    /** The place of the selected leaf among the leaves. */
    ghost function Place(): nat
      requires Valid()
      reads this, wins
      ensures Place() < |Shows(tree)|
    {
      LeafAt(tree, selected);
      Off(tree, selected)
    }

    constructor (initial: nat)
      ensures Valid() && fresh(wins) && wins.Length == 16 && tree == Leaf(0, Show(initial, 0)) && Shows(tree) == [Show(initial, 0)]
    {
      var pool := new Win[POOL](_ => Blank.(used := false));
      pool[0] := Blank.(show := Show(initial, 0));
      wins := pool;
      root, selected := 0, 0;
      tree := Leaf(0, Show(initial, 0));
    }

    /** win_alloc: the first free node, -1 when the pool is used up. */
    method Alloc() returns (r: int)
      requires wins.Length == POOL
      modifies wins
      ensures r == -1 ==> wins[..] == old(wins[..]) && forall i :: 0 <= i < POOL ==> wins[i].used
      ensures r != -1 ==> 0 <= r < POOL && !old(wins[r].used) && wins[..] == old(wins[..])[r := Blank]
      ensures r != -1 ==> forall k :: 0 <= k < r ==> old(wins[k].used)
      ensures r != -1 ==> wins[r] == Win(true, true, false, 50, -1, -1, -1, Show(0, 0), Rect(0, 0, 0, 0))
    {
      var i := 0;
      while i < POOL
        invariant i <= POOL && wins[..] == old(wins[..]) && forall k :: 0 <= k < i ==> wins[k].used
      {
        if !wins[i].used {
          wins[i] := Blank;
          return i;
        }
        i := i + 1;
      }
      return -1;
    }

    /** The two allocations of rd_split; one that succeeded alone is given back. */
    method AllocTwo() returns (a: int, b: int, ok: bool, ghost extra: set<nat>)
      requires wins.Length == POOL
      modifies wins
      ensures ok ==> 0 <= a < POOL && 0 <= b < POOL && a != b && !old(wins[a].used) && !old(wins[b].used)
      ensures ok ==> wins[..] == old(wins[..])[a := Blank][b := Blank]
      ensures !ok ==> |extra| <= 1 && forall i :: 0 <= i < POOL ==>
        (wins[i].used <==> old(wins[i].used)) && (wins[i].used ==> wins[i] == old(wins[i])) && (wins[i].used || i in extra)
    {
      a := Alloc();
      b := Alloc();
      ok := a != -1 && b != -1;
      extra := {};
      if !ok && a != -1 {
        wins[a] := wins[a].(used := false);
        extra := {a};
      }
    }

    /** rd_split: the selected leaf becomes a split of two leaves showing what it showed; the first one
        is selected. Refused, with nothing changed, exactly when fewer than two nodes are free. */
    method Split(vertical: bool) returns (r: int)
      requires Valid()
      modifies this`selected, this`tree, wins
      ensures Valid()
      ensures r == -1 <==> |Ids(old(tree))| > POOL - 2
      ensures r == -1 ==> tree == old(tree) && selected == old(selected)
      ensures r != -1 ==>
        var k, s := old(Place()), Shows(old(tree));
        && Shows(tree) == s[..k] + [s[k], s[k]] + s[k + 1..]
        && Place() == k && r in Ids(tree) && Off(tree, r) == k + 1 && Sub(tree, r).Leaf?
      ensures r != -1 ==>
        var s: nat, x := old(selected), Shows(old(tree))[old(Place())];
        selected >= 0 && r >= 0 && tree == Put(old(tree), s, Node(s, vertical, 50, Leaf(selected, x), Leaf(r, x)))
    {
      hide Rep, Distinct, Ids, Sub, Ratios, Shows, Off, Put, Leaves;
      ghost var t0, pool0 := tree, wins[..];
      IdsBelow(pool0, t0);
      var a, b, ok, extra := AllocTwo();
      RepSame(pool0, t0, -1, wins[..]);
      if !ok {
        RangeIs(POOL);
        PoolFull(Ids(t0), extra);
        return -1;
      }
      PoolRoom(Ids(t0), a, b);
      SplitInto(vertical, a, b);
      return b;
    }

    /** Between the allocations and the split: a and b are used, and not in the tree yet. */
    ghost predicate Reserved(a: int, b: int)
      reads this, wins
    {
      && wins.Length == POOL && Distinct(tree) && Rep(wins[..], tree, -1) && root == tree.n && Ratios(tree)
      && 0 <= a < POOL && 0 <= b < POOL && a != b && a !in Ids(tree) && b !in Ids(tree) && wins[a] == wins[b] == Blank
      && (forall i :: 0 <= i < POOL ==> (wins[i].used <==> i in Ids(tree) || i == a || i == b))
      && 0 <= selected < POOL && selected in Ids(tree) && Sub(tree, selected).Leaf?
    }

    /** The selected leaf becomes a split of the leaves a and b. */
    method SplitInto(vertical: bool, a: int, b: int)
      requires Reserved(a, b)
      modifies this`selected, this`tree, wins
      ensures Valid()
      ensures var k, s := Off(old(tree), old(selected)), Shows(old(tree));
        && k < |s| && Shows(tree) == s[..k] + [s[k], s[k]] + s[k + 1..]
        && Place() == k && b in Ids(tree) && Off(tree, b) == k + 1 && Sub(tree, b).Leaf?
      ensures var s: nat, x := old(selected), Shows(old(tree))[Off(old(tree), old(selected))];
        selected == a && tree == Put(old(tree), s, Node(s, vertical, 50, Leaf(a, x), Leaf(b, x)))
    {
      hide Rep, Distinct, Ids, Sub, Ratios, Shows, Off, Put, Leaves;
      ghost var t0, pool0 := tree, wins[..];
      var leaf := selected;
      Fork(leaf, vertical, a, b);
      assert Forked(pool0, leaf, vertical, a, b, wins[..]);
      hide Forked;
      selected := a;
      SplitRep(pool0, t0, leaf, vertical, a, b, wins[..]);
      SplitTree(t0, leaf, vertical, a, b);
      ShowAt(t0, leaf);
      assert SplitOf(leaf, Sub(t0, leaf).show, vertical, a, b) ==
        Node(leaf, vertical, 50, Leaf(a, Sub(t0, leaf).show), Leaf(b, Sub(t0, leaf).show));
      tree := Put(t0, leaf, SplitOf(leaf, Sub(t0, leaf).show, vertical, a, b));
    }

    /** The halves' fields: both show what the leaf showed, and the leaf becomes their split. */
    method Fork(leaf: int, vertical: bool, a: int, b: int)
      requires wins.Length == POOL && 0 <= leaf < POOL && 0 <= a < POOL && 0 <= b < POOL && a != b && a != leaf && b != leaf
      modifies wins
      ensures wins[..] == old(wins[..])[a := old(wins[a]).(show := old(wins[leaf]).show, parent := leaf)]
        [b := old(wins[b]).(show := old(wins[leaf]).show, parent := leaf)]
        [leaf := old(wins[leaf]).(leaf := false, vertical := vertical, ratio := 50, a := a, b := b)]
    {
      wins[a] := wins[a].(show := wins[leaf].show, parent := leaf);
      wins[b] := wins[b].(show := wins[leaf].show, parent := leaf);
      wins[leaf] := wins[leaf].(leaf := false, vertical := vertical, ratio := 50, a := a, b := b);
    }

    /** first_leaf: down the first halves. */
    method FirstLeaf(w0: int, ghost u: Tree, ghost p: int) returns (w: int)
      requires wins.Length == POOL && Rep(wins[..], u, p) && w0 == u.n
      ensures w == First(u)
    {
      w := w0;
      ghost var v, q := u, p;
      while !wins[w].leaf
        invariant Rep(wins[..], v, q) && w == v.n && First(v) == First(u)
        decreases v
      {
        w := wins[w].a;
        v, q := v.l, v.n;
      }
    }

    /** rd_win_delete: the selected leaf goes and its sibling takes over the split's node. Refused, with
        nothing changed, exactly on the only window. */
    method Delete() returns (r: int)
      requires Valid()
      modifies this`selected, this`tree, wins
      ensures Valid() && (r == 0 || r == -1)
      ensures r == -1 <==> old(tree).Leaf?
      ensures r == -1 ==> tree == old(tree) && selected == old(selected)
      ensures r == 0 ==>
        var k, s := old(Place()), Shows(old(tree));
        Shows(tree) == s[..k] + s[k + 1..] && |Ids(tree)| == |Ids(old(tree))| - 2
      ensures r == 0 ==>
        var p := Above(old(tree), old(selected), -1); p >= 0 && p in Ids(old(tree)) && Place() == Off(old(tree), p)
      ensures r == 0 ==>
        var t, s, p: nat := old(tree), old(selected), Above(old(tree), old(selected), -1);
        var q := Sub(t, p);
        q.Node? && tree == Put(t, p, if q.l.n == s then q.r.(n := p) else q.l.(n := p))
    {
      hide Rep, Distinct, Ids, Sub, Ratios, Shows, Off, Leaves, Above, Put, Other, Unhooked, Lifted, First, Renamed, Half;
      ghost var t0, pool0 := tree, wins[..];
      var dead := selected;
      Parents(pool0, t0, dead);
      var parent := wins[dead].parent;
      if parent == -1 { return -1; }
      DeleteAbove(t0, dead);
      ghost var q, x := Sub(t0, parent), Sub(t0, dead).show;
      RepSub(pool0, t0, -1, parent);
      HalfRep(pool0, q, Above(t0, parent, -1), dead, x);
      Unhook(dead, parent);
      ghost var u := Renamed(Other(q, dead), parent);
      OtherIs(q, dead, x, parent);
      DeleteTree(t0, dead, parent, x);
      DeleteShows(t0, dead, parent, x);
      DeleteRep(pool0, t0, dead, parent, x, wins[..]);
      tree := Put(t0, parent, u);
      selected := FirstLeaf(parent, u, Above(t0, parent, -1));
      return 0;
    }

    /** The leaf's half of its split goes, and the other half's contents move up. */
    method Unhook(dead: int, parent: int)
      requires wins.Length == POOL && 0 <= dead < POOL && 0 <= parent < POOL && dead != parent
      requires var sib := if wins[parent].a == dead then wins[parent].b else wins[parent].a;
        0 <= sib < POOL && sib != dead && sib != parent && -1 <= wins[sib].a < POOL && -1 <= wins[sib].b < POOL
      modifies wins
      ensures Unhooked(old(wins[..]), old(if wins[parent].a == dead then wins[parent].b else wins[parent].a), parent, dead, wins[..])
    {
      hide Lifted;
      var sib := if wins[parent].a == dead then wins[parent].b else wins[parent].a;
      LiftUp(sib, parent);
      wins[sib] := wins[sib].(used := false);
      wins[dead] := wins[dead].(used := false);
    }

    /** Up while the node is a second half: what is left of the selected leaf's subtree. */
    method Climb() returns (w: nat)
      requires Valid()
      ensures w in Ids(tree) && w < POOL && Off(tree, w) + |Leaves(Sub(tree, w))| == Place() + 1
      ensures -1 <= wins[w].parent < POOL && (wins[w].parent == -1 || wins[wins[w].parent].b != w)
    {
      hide Rep, Distinct, Ids, Sub, Ratios, Off, Above, Depth, Leaves;
      w := selected;
      LeafSize(Sub(tree, w));
      Up(wins[..], tree, w);
      while wins[w].parent != -1 && wins[wins[w].parent].b == w
        invariant w in Ids(tree) && w < POOL && Off(tree, w) + |Leaves(Sub(tree, w))| == Place() + 1
        invariant -1 <= wins[w].parent < POOL
        decreases Depth(tree, w)
      {
        Up(wins[..], tree, w);
        w := wins[w].parent;
        Up(wins[..], tree, w);
      }
    }

    /** rd_other_window: the next leaf in order, from the last one back to the first. */
    method OtherWindow()
      requires Valid()
      modifies this`selected
      ensures Valid() && Place() == (old(Place()) + 1) % |Leaves(tree)| && selected == Leaves(tree)[Place()]
    {
      hide Rep, Distinct, Ids, Sub, Ratios, Off, Above, Depth, Leaves, First;
      ghost var k, n := Place(), |Leaves(tree)|;
      var w := Climb();
      Up(wins[..], tree, w);
      ghost var b: nat := tree.n;
      if wins[w].parent != -1 {
        b := wins[wins[w].parent].b;
        selected := FirstLeaf(wins[wins[w].parent].b, Sub(tree, b), wins[w].parent);
      } else {
        selected := FirstLeaf(root, tree, -1);
      }
      Across(tree, tree.n);
      Across(tree, b);
      LeafAt(tree, selected);
      Wraps(k, n);
    }

    /** m calls of rd_other_window, with the leaf each one selects. As many as there are leaves visit
        every leaf exactly once and end where they began. */
    method Tour(m: nat) returns (visited: seq<nat>)
      requires Valid()
      modifies this`selected
      ensures Valid() && |visited| == m && Place() == (old(Place()) + m) % |Leaves(tree)|
      ensures forall j: nat :: j < m ==> visited[j] == After(tree, old(Place()), j + 1)
      ensures m == |Leaves(tree)| ==> selected == old(selected) && forall i :: 0 <= i < m ==> Once(visited, Leaves(tree)[i])
    {
      hide Rep, Distinct, Ids, Sub, Ratios, Off, Leaves, Once;
      LeafAt(tree, selected);
      ghost var k, n, s0 := Place(), |Leaves(tree)|, selected;
      visited := [];
      StepMod(k, 0, n);
      for i := 0 to m
        invariant Valid() && |visited| == i && Place() == (k + i) % n && selected == Leaves(tree)[Place()]
        invariant forall j: nat :: j < i ==> visited[j] == After(tree, k, j + 1)
      {
        StepMod(k, i, n);
        OtherWindow();
        visited := visited + [selected];
      }
      if m == n {
        StepMod(k, n, n);
        forall i | 0 <= i < m ensures Once(visited, Leaves(tree)[i]) { FullCycle(tree, k, visited, i); }
      }
    }

    /** layout_tree: every node below w gets its rectangle, and nothing else changes. */
    method LayoutTree(w: nat, ghost t: Tree, ghost p: int, r: Rect)
      requires wins.Length == POOL && Rep(wins[..], t, p) && Distinct(t) && w == t.n
      modifies wins
      ensures forall i :: 0 <= i < POOL ==>
        wins[i] == if i in Ids(t) then old(wins[i]).(rect := RectOf(t, r, i)) else old(wins[i])
      decreases t
    {
      ghost var pool := wins[..];
      wins[w] := wins[w].(rect := r);
      RepFrame(pool, t, p, wins[..]);
      if wins[w].leaf { return; }
      var one, two := r, r;
      if wins[w].vertical {
        var aw := r.w * wins[w].ratio / 100;
        one, two := r.(w := aw), r.(x := r.x + aw, w := r.w - aw);
      } else {
        var ah := r.h * wins[w].ratio / 100;
        one, two := r.(h := ah), r.(y := r.y + ah, h := r.h - ah);
      }
      assert one == LeftRect(t, r) && two == RightRect(t, r);
      LayoutTree(wins[w].a, t.l, w, one);
      RepFrame(pool, t, p, wins[..]);
      LayoutTree(wins[w].b, t.r, w, two);
    }

    /** rd_layout's window half: the area above the echo lines is cut up among the leaves. */
    method Layout(cols: nat, rows: nat)
      requires Valid()
      modifies wins
      ensures Valid() && tree == old(tree)
      ensures forall i :: 0 <= i < POOL && i in Ids(tree) ==> wins[i].rect == RectOf(tree, Rect(0, 0, cols, rows), i)
    {
      ghost var pool := wins[..];
      LayoutTree(root, tree, -1, Rect(0, 0, cols, rows));
      RepFrame(pool, tree, -1, wins[..]);
    }

    /** After a layout each cell of the area lies in the rectangle of exactly one leaf. */
    lemma OneOwner(cols: nat, rows: nat, cx: int, cy: int, n: nat)
      requires Valid() && n in Leaves(tree) && n in Ids(tree) && n < POOL
      requires forall i :: 0 <= i < POOL && i in Ids(tree) ==> wins[i].rect == RectOf(tree, Rect(0, 0, cols, rows), i)
      ensures Inside(wins[n].rect, cx, cy) <==>
        0 <= cx < cols && 0 <= cy < rows && n == LeafUnder(tree, Rect(0, 0, cols, rows), cx, cy)
    {
      Partition(tree, Rect(0, 0, cols, rows), cx, cy, n);
    }

    /** rd_set_buffer. */
    method SetBuffer(buf: nat)
      requires Valid()
      modifies this`tree, wins
      ensures Valid() && Shows(tree) == old(Shows(tree))[old(Place()) := Show(buf, 0)] && Place() == old(Place())
      ensures selected >= 0 && tree == Put(old(tree), selected, Leaf(selected, Show(buf, 0)))
    {
      hide Distinct, Ids, Sub, Ratios, Off, Leaves, Shows, Put;
      ghost var pool, s, t := wins[..], selected, tree;
      ghost var u := Leaf(selected, Show(buf, 0));
      RepSub(pool, t, -1, s);
      LeafShow(t, s);
      wins[selected] := wins[selected].(show := Show(buf, 0));
      RepPut(pool, t, -1, s, u, wins[..]);
      OneLeaf(s, Show(buf, 0));
      PutIds(t, s, u);
      PutRatios(t, s, u);
      PutShows(t, s, u);
      PutInner(t, s, u, s);
      Replaced(LeftOf(t, s), Sub(t, s).show, Show(buf, 0), RightOf(t, s));
      tree := Put(t, s, u);
    }

    /** rd_delete_other: one window is left, showing what the selected one showed. */
    method DeleteOthers()
      requires Valid()
      modifies this`root, this`selected, this`tree, wins
      ensures Valid() && Shows(tree) == [old(Shows(tree)[Place()])] && selected == 0 && tree == Leaf(0, old(Shows(tree)[Place()]))
    {
      ghost var t := tree;
      RepSub(wins[..], t, -1, selected);
      LeafAt(t, selected);
      ShowAt(t, selected);
      var show := wins[selected].show;
      for i := 0 to POOL
        invariant wins.Length == POOL && forall k :: 0 <= k < i ==> !wins[k].used
      {
        wins[i] := wins[i].(used := false);
      }
      assert !wins[0].used;
      var w := Alloc();
      wins[w] := wins[w].(show := show);
      root, selected := w, w;
      tree := Leaf(w, show);
    }

    /** The sibling's contents copied up into the split's node. */
    method LiftUp(sib: nat, parent: nat)
      requires wins.Length == POOL && sib < POOL && parent < POOL
      requires -1 <= wins[sib].a < POOL && -1 <= wins[sib].b < POOL && sib != parent
      modifies wins
      ensures wins[..] == Lifted(old(wins[..]), sib, parent)
    {
      var w := wins[sib];
      wins[parent] := wins[parent].(leaf := w.leaf, vertical := w.vertical, ratio := w.ratio, a := w.a, b := w.b, show := w.show);
      if wins[sib].a != -1 { wins[wins[sib].a] := wins[wins[sib].a].(parent := parent); }
      if wins[sib].b != -1 { wins[wins[sib].b] := wins[wins[sib].b].(parent := parent); }
    }
  }

  /** Node sib's contents moved up into its parent, its children told. */
  function Lifted(pool: seq<Win>, sib: nat, parent: nat): (r: seq<Win>)
    requires sib < |pool| && parent < |pool| && -1 <= pool[sib].a < |pool| && -1 <= pool[sib].b < |pool| && sib != parent
    ensures |r| == |pool|
  {
    var w := pool[sib];
    var p1 := pool[parent := pool[parent].(leaf := w.leaf, vertical := w.vertical, ratio := w.ratio, a := w.a, b := w.b, show := w.show)];
    var p2 := if p1[sib].a == -1 then p1 else p1[p1[sib].a := p1[p1[sib].a].(parent := parent)];
    if w.b == -1 then p2 else p2[w.b := p2[w.b].(parent := parent)]
  }

  /** ... and sib and s given back to the pool. */
  ghost predicate Unhooked(pool: seq<Win>, sib: nat, p: nat, s: nat, pool': seq<Win>) {
    && sib < |pool| && p < |pool| && s < |pool| && -1 <= pool[sib].a < |pool| && -1 <= pool[sib].b < |pool|
    && sib != p && sib != s && s != p
    && var l := Lifted(pool, sib, p); pool' == l[sib := l[sib].(used := false)][s := l[s].(used := false)]
  }

  lemma Parents(pool: seq<Win>, t: Tree, s: nat)
    requires Rep(pool, t, -1) && Distinct(t) && s in Ids(t) && Sub(t, s).Leaf?
    ensures s < |pool| && pool[s].parent == Above(t, s, -1)
    ensures Above(t, s, -1) == -1 <==> t.Leaf?
    ensures s == t.n <==> t.Leaf?
  {
    RepSub(pool, t, -1, s);
    if s != t.n { Child(t, s, -1); }
  }

  lemma HalfRep(pool: seq<Win>, q: Tree, p0: int, s: nat, x: Show)
    requires Rep(pool, q, p0) && Half(q, s, x) && Distinct(q)
    ensures var sib := Other(q, s);
      && q.n < |pool| && s < |pool| && sib.n < |pool| && sib.n != q.n && sib.n != s && s != q.n && pool[q.n].used
      && sib.n == (if pool[q.n].a == s then pool[q.n].b else pool[q.n].a)
      && Rep(pool, sib, q.n) && -1 <= pool[sib.n].a < |pool| && -1 <= pool[sib.n].b < |pool|
  {
    var sib := Other(q, s);
    if sib.Node? { assert Rep(pool, sib.l, sib.n) && Rep(pool, sib.r, sib.n); }
  }

  lemma RepReroot(pool: seq<Win>, t: Tree, p: int, pool': seq<Win>, p': int)
    requires Rep(pool, t, p) && Distinct(t) && |pool'| == |pool|
    requires pool'[t.n] == pool[t.n].(parent := p')
    requires forall i :: i in Ids(t) && i != t.n && i < |pool| ==> pool'[i] == pool[i]
    ensures Rep(pool', t, p')
  {
    if t.Node? {
      RepFrame(pool, t.l, t.n, pool');
      RepFrame(pool, t.r, t.n, pool');
    }
  }

  /** The pool after a deletion spells the tree without the leaf. */
  lemma DeleteRep(pool: seq<Win>, t: Tree, s: nat, p: nat, x: Show, pool': seq<Win>)
    requires Rep(pool, t, -1) && Distinct(t) && p in Ids(t) && Half(Sub(t, p), s, x) && |pool'| == |pool|
    requires Unhooked(pool, Other(Sub(t, p), s).n, p, s, pool')
    ensures Rep(pool', Put(t, p, Renamed(Other(Sub(t, p), s), p)), -1)
    ensures Rep(pool', Renamed(Other(Sub(t, p), s), p), Above(t, p, -1))
    ensures forall i :: 0 <= i < |pool| ==> (pool'[i].used <==> pool[i].used && i != s && i != Other(Sub(t, p), s).n)
  {
    hide Rep, Lifted, Unhooked;
    var q := Sub(t, p);
    var sib := Other(q, s);
    SubIn(t, p);
    RepSub(pool, t, -1, p);
    HalfRep(pool, q, Above(t, p, -1), s, x);
    SiblingRep(pool, q, s, x, Above(t, p, -1), pool');
    OthersSame(pool, sib, s, p, pool');
    RepPut(pool, t, -1, p, Renamed(sib, p), pool');
  }

  lemma OthersSame(pool: seq<Win>, sib: Tree, s: nat, p: nat, pool': seq<Win>)
    requires Rep(pool, sib, p) && |pool'| == |pool| && Unhooked(pool, sib.n, p, s, pool')
    ensures forall i :: 0 <= i < |pool| && i !in Ids(sib) && i != s && i != p ==> pool'[i] == pool[i]
    ensures forall i :: 0 <= i < |pool| ==> (pool'[i].used <==> pool[i].used && i != s && i != sib.n)
  {
    if sib.Node? { assert sib.l.n in Ids(sib) && sib.r.n in Ids(sib); }
  }

  lemma SiblingRep(pool: seq<Win>, q: Tree, s: nat, x: Show, p0: int, pool': seq<Win>)
    requires Rep(pool, q, p0) && Half(q, s, x) && Distinct(q) && |pool'| == |pool|
    requires Unhooked(pool, Other(q, s).n, q.n, s, pool')
    ensures Rep(pool', Renamed(Other(q, s), q.n), p0)
  {
    var sib := Other(q, s);
    assert Rep(pool, sib, q.n) && Distinct(sib) && s !in Ids(sib) && q.n !in Ids(sib);
    if sib.Node? {
      RepReroot(pool, sib.l, sib.n, pool', q.n);
      RepReroot(pool, sib.r, sib.n, pool', q.n);
    }
  }

  /** One step on from the place i steps lead to. */
  lemma StepMod(k: nat, i: nat, n: nat)
    requires k < n
    ensures ((k + i) % n + 1) % n == (k + (i + 1)) % n && (k + 0) % n == k == (k + n) % n
  {
    NextMod(k + i, n);
    Wraps(k, n);
    Quotient(0, k, n);
    Quotient(1, k, n);
  }

  lemma NextMod(x: nat, n: nat)
    requires n > 0
    ensures (x % n + 1) % n == (x + 1) % n
  {
    var q, r := x / n, x % n;
    assert x == q * n + r;
    NextOf(q, r, n);
  }

  lemma NextOf(q: nat, r: nat, n: nat)
    requires r < n
    ensures (r + 1) % n == (q * n + r + 1) % n
  {
    if r + 1 < n {
      Quotient(0, r + 1, n);
      Quotient(q, r + 1, n);
    } else {
      ProductStep(q, q + 1, n);
      Quotient(1, 0, n);
      Quotient(q + 1, 0, n);
    }
  }

  lemma Quotient(q: nat, r: nat, n: nat)
    requires r < n
    ensures (q * n + r) % n == r
  {
    var x := q * n + r;
    var y := x / n;
    assert x == y * n + x % n;
    if y < q { ProductStep(y, q, n); }
    if y > q { ProductStep(q, y, n); }
  }

  lemma {:induction false} ProductStep(k: nat, l: nat, n: nat)
    requires k < l
    ensures k * n + n <= l * n && (l == k + 1 ==> l * n == k * n + n)
    decreases l
  {
    assert l * n == (l - 1) * n + n;
    if k < l - 1 { ProductStep(k, l - 1, n); }
  }

  lemma Wraps(k: nat, n: nat)
    ensures k + 1 < n ==> (k + 1) % n == k + 1
    ensures k + 1 == n ==> (k + 1) % n == 0
  {
  }

  lemma OneLeaf(s: nat, x: Show)
    ensures var u := Leaf(s, x);
      Distinct(u) && Ids(u) == {s} && Ratios(u) && Shows(u) == [x] && Off(u, s) == 0 && Sub(u, s) == u
  {
  }

  lemma Replaced(a: seq<Show>, x: Show, y: Show, c: seq<Show>)
    ensures a + [y] + c == (a + [x] + c)[|a| := y]
  {
  }

  lemma {:induction false} ShowAt(t: Tree, n: nat)
    requires n in Ids(t) && Sub(t, n).Leaf? && Off(t, n) < |Shows(t)|
    ensures Shows(t)[Off(t, n)] == Sub(t, n).show
  {
    PutShows(t, n, Sub(t, n));
    LeafShow(t, n);
  }

  lemma LeafSize(t: Tree)
    requires t.Leaf?
    ensures |Leaves(t)| == 1
  {
  }

  /** The first leaf of a subtree, in the whole tree. */
  lemma Across(t: Tree, b: nat)
    requires Distinct(t) && b in Ids(t)
    ensures var f := First(Sub(t, b));
      f in Ids(t) && Off(t, f) == Off(t, b) && Sub(t, f).Leaf? && Off(t, b) < |Leaves(t)|
    ensures Off(t, t.n) == 0 && Sub(t, t.n) == t
  {
    SubIn(t, b);
    FirstIs(Sub(t, b));
    OffInner(t, b, First(Sub(t, b)));
  }

  /** What the pool says about a node's parent and its parent's second half. */
  lemma Up(pool: seq<Win>, t: Tree, w: nat)
    requires Rep(pool, t, -1) && Distinct(t) && |pool| == POOL && w in Ids(t)
    ensures w < POOL && pool[w].parent == Above(t, w, -1) && -1 <= pool[w].parent < POOL
    ensures pool[w].parent == -1 <==> w == t.n
    ensures pool[w].parent == -1 ==> Off(t, w) == 0 && Sub(t, w) == t
    ensures pool[w].parent != -1 ==>
      var q: nat := pool[w].parent;
      && q in Ids(t) && Sub(t, q).Node? && Depth(t, q) < Depth(t, w)
      && pool[q].b == Sub(t, q).r.n && Sub(t, q).r.n in Ids(t) && Rep(pool, Sub(t, Sub(t, q).r.n), q)
      && |Leaves(Sub(t, q))| == |Leaves(Sub(t, q).l)| + |Leaves(Sub(t, q).r)|
      && (pool[q].b == w ==> Sub(t, w) == Sub(t, q).r && Off(t, w) == Off(t, q) + |Leaves(Sub(t, q).l)|)
      && (pool[q].b != w ==> Sub(t, w) == Sub(t, q).l && Off(t, w) == Off(t, q))
      && Off(t, Sub(t, q).r.n) == Off(t, q) + |Leaves(Sub(t, q).l)|
  {
    RepSub(pool, t, -1, w);
    if w != t.n {
      Child(t, w, -1);
      var q: nat := Above(t, w, -1);
      RepSub(pool, t, -1, q);
      SubIn(t, q);
      OffInner(t, q, Sub(t, q).r.n);
      Halves(Sub(t, q));
    }
  }

  lemma Halves(q: Tree)
    requires q.Node? && Distinct(q)
    ensures q.r.n in Ids(q) && q.r.n != q.l.n && Sub(q, q.r.n) == q.r && Off(q, q.r.n) == |Leaves(q.l)|
  {
  }

  /** The ids of a tree in the pool are pool indices. */
  lemma IdsBelow(pool: seq<Win>, t: Tree)
    requires Rep(pool, t, -1) && |pool| == POOL
    ensures forall i :: i in Ids(t) ==> i < POOL
  {
    RepIds(pool, t, -1);
  }

  function Range(n: nat): set<nat> {
    if n == 0 then {} else Range(n - 1) + {n - 1}
  }

  lemma {:induction false} RangeIs(n: nat)
    ensures |Range(n)| == n && forall i :: i in Range(n) <==> 0 <= i < n
  {
    if n > 0 { RangeIs(n - 1); }
  }

  lemma Subset(s: set<nat>, t: set<nat>)
    requires s <= t
    ensures |s| <= |t|
  {
    assert t == s + (t - s);
  }

  lemma PoolFull(ids: set<nat>, extra: set<nat>)
    requires (forall i :: i in Range(POOL) ==> i in ids || i in extra) && |extra| <= 1
    ensures |ids| > POOL - 2
  {
    RangeIs(POOL);
    assert Range(POOL) <= ids + extra;
    Subset(Range(POOL), ids + extra);
  }

  lemma PoolRoom(ids: set<nat>, a: nat, b: nat)
    requires (forall i :: i in ids ==> 0 <= i < POOL) && a < POOL && b < POOL && a !in ids && b !in ids && a != b
    ensures |ids| <= POOL - 2
  {
    RangeIs(POOL);
    Subset(ids + {a} + {b}, Range(POOL));
  }

  /** Fresh nodes a and b show what leaf s showed, and s is their split. */
  ghost predicate Forked(pool: seq<Win>, s: int, vertical: bool, a: int, b: int, pool': seq<Win>)
    requires 0 <= s < |pool| && 0 <= a < |pool| && 0 <= b < |pool|
  {
    var half := Blank.(show := pool[s].show, parent := s);
    pool' == pool[a := half][b := half][s := pool[s].(leaf := false, vertical := vertical, ratio := 50, a := a, b := b)]
  }

  /** The pool after a split spells the split tree. */
  lemma SplitRep(pool: seq<Win>, t: Tree, s: nat, vertical: bool, a: nat, b: nat, pool': seq<Win>)
    requires Rep(pool, t, -1) && Distinct(t) && s in Ids(t) && Sub(t, s).Leaf? && |pool'| == |pool|
    requires a < |pool| && b < |pool| && s < |pool| && a != b && a !in Ids(t) && b !in Ids(t)
    requires a != s && b != s && Forked(pool, s, vertical, a, b, pool')
    ensures Rep(pool', Put(t, s, SplitOf(s, Sub(t, s).show, vertical, a, b)), -1)
    ensures forall i :: 0 <= i < |pool| ==> (pool'[i].used <==> pool[i].used || i == a || i == b)
  {
    RepSub(pool, t, -1, s);
    var u := SplitOf(s, Sub(t, s).show, vertical, a, b);
    assert Rep(pool', u.l, s) && Rep(pool', u.r, s);
    assert Rep(pool', u, Above(t, s, -1));
    LeafShow(t, s);
    RepPut(pool, t, -1, s, u, pool');
  }
}
