/** The window tree as a value: subtrees, leaf order, replacement, layout. */
module WinTree {
  /** What a leaf shows. */
  datatype Show = Show(buf: nat, top: int)

  datatype Tree =
    | Leaf(n: nat, show: Show)
    | Node(n: nat, vertical: bool, ratio: int, l: Tree, r: Tree)

  function Ids(t: Tree): (s: set<nat>)
    ensures t.n in s
  {
    match t
    case Leaf(n, _) => {n}
    case Node(n, _, _, l, r) => {n} + Ids(l) + Ids(r)
  }

  /** No node occurs twice. */
  ghost predicate Distinct(t: Tree) {
    t.Node? ==> t.n !in Ids(t.l) && t.n !in Ids(t.r) && Ids(t.l) !! Ids(t.r) && Distinct(t.l) && Distinct(t.r)
  }

  /** The leaves from left to right (top to bottom). */
  function Leaves(t: Tree): (s: seq<nat>)
    ensures |s| > 0
  {
    match t
    case Leaf(n, _) => [n]
    case Node(_, _, _, l, r) => Leaves(l) + Leaves(r)
  }

  /** What they show. */
  function Shows(t: Tree): (s: seq<Show>)
    ensures |s| == |Leaves(t)|
  {
    match t
    case Leaf(_, show) => [show]
    case Node(_, _, _, l, r) => Shows(l) + Shows(r)
  }

  /** A tree of n leaves has 2n - 1 nodes. */
  lemma {:induction false} NodeCount(t: Tree)
    requires Distinct(t)
    ensures |Ids(t)| == 2 * |Leaves(t)| - 1
  {
    if t.Node? {
      NodeCount(t.l);
      NodeCount(t.r);
      assert Ids(t) == ({t.n} + Ids(t.l)) + Ids(t.r);
      assert |{t.n} + Ids(t.l)| == 1 + |Ids(t.l)|;
    }
  }

  /** The subtree at node n. */
  function Sub(t: Tree, n: nat): (u: Tree)
    requires n in Ids(t)
    ensures u.n == n
  {
    if t.n == n then t else if n in Ids(t.l) then Sub(t.l, n) else Sub(t.r, n)
  }

  /** Leaves to the left of node n. */
  function Off(t: Tree, n: nat): nat
    requires n in Ids(t)
  {
    if t.n == n then 0 else if n in Ids(t.l) then Off(t.l, n) else |Leaves(t.l)| + Off(t.r, n)
  }

  /** The node above n; p is what is above the whole tree. */
  function Above(t: Tree, n: nat, p: int): int
    requires n in Ids(t)
  {
    if t.n == n then p else if n in Ids(t.l) then Above(t.l, n, t.n) else Above(t.r, n, t.n)
  }

  function Depth(t: Tree, n: nat): nat
    requires n in Ids(t)
  {
    if t.n == n then 0 else 1 + if n in Ids(t.l) then Depth(t.l, n) else Depth(t.r, n)
  }

  lemma {:induction false} SubIn(t: Tree, n: nat)
    requires n in Ids(t) && Distinct(t)
    ensures Ids(Sub(t, n)) <= Ids(t) && Distinct(Sub(t, n))
    ensures Off(t, n) + |Leaves(Sub(t, n))| <= |Leaves(t)|
    ensures Leaves(t)[Off(t, n)..Off(t, n) + |Leaves(Sub(t, n))|] == Leaves(Sub(t, n))
  {
    if t.n == n {
    } else if n in Ids(t.l) {
      SubIn(t.l, n);
    } else {
      SubIn(t.r, n);
    }
  }

  /** A node other than the root is the left or the right child of the node above it. */
  lemma {:induction false} Child(t: Tree, n: nat, p: int)
    requires n in Ids(t) && Distinct(t) && n != t.n && p !in Ids(t)
    ensures var q := Above(t, n, p);
      && q in Ids(t) && q != n && Sub(t, q).Node? && Depth(t, q) < Depth(t, n)
      && (if Sub(t, q).l.n == n then Sub(t, n) == Sub(t, q).l && Off(t, n) == Off(t, q)
          else Sub(t, n) == Sub(t, q).r && Off(t, n) == Off(t, q) + |Leaves(Sub(t, q).l)|)
  {
    if n in Ids(t.l) {
      if n != t.l.n { Child(t.l, n, t.n); }
    } else {
      if n != t.r.n { Child(t.r, n, t.n); }
    }
  }

  // ----- replacement -----

  /** The tree with the subtree at s replaced. */
  function Put(t: Tree, s: nat, u: Tree): (r: Tree)
    requires s in Ids(t) && u.n == s
    ensures r.n == t.n
  {
    if t.n == s then u
    else if s in Ids(t.l) then t.(l := Put(t.l, s, u))
    else t.(r := Put(t.r, s, u))
  }

  lemma {:induction false} PutIds(t: Tree, s: nat, u: Tree)
    requires s in Ids(t) && u.n == s && Distinct(t) && Distinct(u)
    requires forall i :: i in Ids(u) && i in Ids(t) ==> i in Ids(Sub(t, s))
    ensures Ids(Put(t, s, u)) == Ids(t) - Ids(Sub(t, s)) + Ids(u) && Distinct(Put(t, s, u))
  {
    SubIn(t, s);
    if t.n == s {
    } else if s in Ids(t.l) {
      SubIn(t.l, s);
      PutIds(t.l, s, u);
      Swap({t.n} + Ids(t.r), Ids(t.l), Ids(Sub(t, s)), Ids(u));
      assert Ids(t) == {t.n} + Ids(t.r) + Ids(t.l);
    } else {
      SubIn(t.r, s);
      PutIds(t.r, s, u);
      Swap({t.n} + Ids(t.l), Ids(t.r), Ids(Sub(t, s)), Ids(u));
    }
  }

  lemma Swap(rest: set<nat>, a: set<nat>, s: set<nat>, u: set<nat>)
    requires s <= a && rest !! a
    ensures rest + (a - s + u) == rest + a - s + u
  {
  }

  /** What the leaves to the left and to the right of node s show. */
  function LeftOf(t: Tree, s: nat): (r: seq<Show>)
    requires s in Ids(t)
    ensures |r| == Off(t, s)
  {
    if t.n == s then [] else if s in Ids(t.l) then LeftOf(t.l, s) else Shows(t.l) + LeftOf(t.r, s)
  }

  function RightOf(t: Tree, s: nat): seq<Show>
    requires s in Ids(t)
  {
    if t.n == s then [] else if s in Ids(t.l) then RightOf(t.l, s) + Shows(t.r) else RightOf(t.r, s)
  }

  lemma {:induction false} PutShows(t: Tree, s: nat, u: Tree)
    requires s in Ids(t) && u.n == s
    ensures Shows(t) == LeftOf(t, s) + Shows(Sub(t, s)) + RightOf(t, s)
    ensures Shows(Put(t, s, u)) == LeftOf(t, s) + Shows(u) + RightOf(t, s)
  {
    if t.n == s {
    } else if s in Ids(t.l) {
      PutShows(t.l, s, u);
      Assoc(LeftOf(t.l, s), Shows(Sub(t, s)), RightOf(t.l, s), Shows(t.r));
      Assoc(LeftOf(t.l, s), Shows(u), RightOf(t.l, s), Shows(t.r));
    } else {
      PutShows(t.r, s, u);
      Assoc2(Shows(t.l), LeftOf(t.r, s), Shows(Sub(t, s)), RightOf(t.r, s));
      Assoc2(Shows(t.l), LeftOf(t.r, s), Shows(u), RightOf(t.r, s));
    }
  }

  lemma Assoc(a: seq<Show>, b: seq<Show>, c: seq<Show>, d: seq<Show>)
    ensures a + b + c + d == a + b + (c + d)
  {
  }

  lemma Assoc2(a: seq<Show>, b: seq<Show>, c: seq<Show>, d: seq<Show>)
    ensures a + (b + c + d) == a + b + c + d
  {
  }

  /** What lies inside the new subtree lies where the subtree was. */
  lemma {:induction false} PutInner(t: Tree, s: nat, u: Tree, k: nat)
    requires s in Ids(t) && u.n == s && Distinct(t) && Distinct(u) && k in Ids(u)
    requires forall i :: i in Ids(u) && i in Ids(t) ==> i in Ids(Sub(t, s))
    ensures k in Ids(Put(t, s, u)) && Off(Put(t, s, u), k) == Off(t, s) + Off(u, k) && Sub(Put(t, s, u), k) == Sub(u, k)
  {
    SubIn(t, s);
    if t.n == s {
    } else if s in Ids(t.l) {
      SubIn(t.l, s);
      PutInner(t.l, s, u, k);
    } else {
      SubIn(t.r, s);
      PutIds(t.r, s, u);
      PutInner(t.r, s, u, k);
    }
  }

  /** The new subtree hangs where the old one did, and every node outside of it is what it was. */
  lemma {:induction false} PutKeeps(t: Tree, s: nat, u: Tree, n: nat)
    requires s in Ids(t) && u.n == s && Distinct(t) && Distinct(u) && n in Ids(t) && n !in Ids(Sub(t, s))
    requires forall i :: i in Ids(u) && i in Ids(t) ==> i in Ids(Sub(t, s))
    ensures s in Ids(Put(t, s, u)) && Sub(Put(t, s, u), s) == u && n in Ids(Put(t, s, u))
    ensures var x, y := Sub(t, n), Sub(Put(t, s, u), n);
      if x.Leaf? then y == x else y.Node? && y.vertical == x.vertical && y.ratio == x.ratio && y.l.n == x.l.n && y.r.n == x.r.n
  {
    PutIds(t, s, u);
    if t.n == n {
      PutInner(t, s, u, s);
    } else if s in Ids(t.l) {
      SubIn(t.l, s);
      PutIds(t.l, s, u);
      if n in Ids(t.l) { PutKeeps(t.l, s, u, n); } else { PutInner(t, s, u, s); }
    } else {
      SubIn(t.r, s);
      PutIds(t.r, s, u);
      if n in Ids(t.r) { PutKeeps(t.r, s, u, n); } else { PutInner(t, s, u, s); }
    }
  }

  /** The root of a subtree renamed. */
  function Renamed(t: Tree, n: nat): Tree { t.(n := n) }

  lemma RenamedShows(t: Tree, n: nat)
    ensures Shows(Renamed(t, n)) == Shows(t) && |Leaves(Renamed(t, n))| == |Leaves(t)|
  {
  }

  ghost predicate Ratios(t: Tree) {
    t.Node? ==> 0 <= t.ratio <= 100 && Ratios(t.l) && Ratios(t.r)
  }

  lemma {:induction false} PutRatios(t: Tree, s: nat, u: Tree)
    requires s in Ids(t) && u.n == s && Ratios(t) && Ratios(u)
    ensures Ratios(Put(t, s, u))
  {
    if t.n != s {
      if s in Ids(t.l) { PutRatios(t.l, s, u); } else { PutRatios(t.r, s, u); }
    }
  }

  lemma {:induction false} SubRatios(t: Tree, s: nat)
    requires s in Ids(t) && Ratios(t)
    ensures Ratios(Sub(t, s))
  {
    if t.n != s {
      if s in Ids(t.l) { SubRatios(t.l, s); } else { SubRatios(t.r, s); }
    }
  }

  /** Leaf s turned into a split. */
  function SplitOf(s: nat, show: Show, vertical: bool, a: nat, b: nat): Tree {
    Node(s, vertical, 50, Leaf(a, show), Leaf(b, show))
  }

  lemma SplitTree(t: Tree, s: nat, vertical: bool, a: nat, b: nat)
    requires Distinct(t) && s in Ids(t) && Sub(t, s).Leaf? && a !in Ids(t) && b !in Ids(t) && a != b && Ratios(t)
    ensures var t', k := Put(t, s, SplitOf(s, Sub(t, s).show, vertical, a, b)), Off(t, s);
      && Distinct(t') && Ids(t') == Ids(t) + {a, b} && Ratios(t')
      && k < |Shows(t)| && Shows(t') == Shows(t)[..k] + [Shows(t)[k], Shows(t)[k]] + Shows(t)[k + 1..]
      && Sub(t', a) == Leaf(a, Shows(t)[k]) && Off(t', a) == k
      && Sub(t', b) == Leaf(b, Shows(t)[k]) && Off(t', b) == k + 1
  {
    var show := Sub(t, s).show;
    var u := SplitOf(s, show, vertical, a, b);
    hide Distinct, Ids, Sub, Put, Off, Shows, Leaves, LeftOf, RightOf, Ratios, SplitOf;
    assert s != a && s != b;
    SplitFacts(s, show, vertical, a, b);
    SubIn(t, s);
    PutIds(t, s, u);
    PutRatios(t, s, u);
    PutShows(t, s, u);
    PutInner(t, s, u, a);
    PutInner(t, s, u, b);
    LeafShow(t, s);
    Doubled(LeftOf(t, s), show, RightOf(t, s));
  }

  lemma Doubled(a: seq<Show>, x: Show, c: seq<Show>)
    ensures var s, k := a + [x] + c, |a|;
      k < |s| && s[k] == x && a + [x, x] + c == s[..k] + [s[k], s[k]] + s[k + 1..]
  {
  }

  lemma SplitFacts(s: nat, show: Show, vertical: bool, a: nat, b: nat)
    requires a != b && a != s && b != s
    ensures var u := SplitOf(s, show, vertical, a, b);
      && Distinct(u) && Ids(u) == {s, a, b} && Ratios(u) && Shows(u) == [show, show]
      && Off(u, a) == 0 && Off(u, b) == 1 && Sub(u, a) == Leaf(a, show) && Sub(u, b) == Leaf(b, show)
  {
  }

  lemma LeafShow(t: Tree, s: nat)
    requires s in Ids(t) && Sub(t, s).Leaf?
    ensures Ids(Sub(t, s)) == {s} && Shows(Sub(t, s)) == [Sub(t, s).show] && |LeftOf(t, s)| == Off(t, s)
  {
  }

  // ----- deletion -----

  /** s is a leaf and a half of the split q. */
  ghost predicate Half(q: Tree, s: nat, x: Show) {
    q.Node? && if q.l.n == s then q.l == Leaf(s, x) else q.r == Leaf(s, x)
  }

  function Other(q: Tree, s: nat): Tree
    requires q.Node?
  {
    if q.l.n == s then q.r else q.l
  }

  lemma OtherIs(q: Tree, s: nat, x: Show, p: nat)
    requires Half(q, s, x)
    ensures q.Node? && Renamed(Other(q, s), p) == if q.l.n == s then q.r.(n := p) else q.l.(n := p)
  {
  }

  lemma DeleteAbove(t: Tree, s: nat)
    requires Distinct(t) && s in Ids(t) && s != t.n && Sub(t, s).Leaf?
    ensures var p := Above(t, s, -1);
      && p >= 0 && p in Ids(t) && Half(Sub(t, p), s, Sub(t, s).show) && Distinct(Sub(t, p)) && p != s
      && Off(t, s) == Off(t, p) + if Sub(t, p).l.n == s then 0 else |Leaves(Sub(t, p).l)|
  {
    Child(t, s, -1);
    SubIn(t, Above(t, s, -1));
  }

  /** Taking leaf s out of the tree: the other half of its split moves up into the split's node. */
  lemma DeleteTree(t: Tree, s: nat, p: nat, x: Show)
    requires Distinct(t) && s in Ids(t) && p in Ids(t) && Half(Sub(t, p), s, x) && Ratios(t)
    ensures var sib := Other(Sub(t, p), s);
      var u := Renamed(sib, p);
      var t' := Put(t, p, u);
      && Distinct(t') && Ids(t') == Ids(t) - {s, sib.n} && Ratios(t') && sib.n in Ids(t) && sib.n != s && sib.n != p
      && First(u) in Ids(t') && Sub(t', First(u)).Leaf? && Off(t', First(u)) == Off(t, p)
  {
    var q := Sub(t, p);
    var u := Renamed(Other(q, s), p);
    SubIn(t, p);
    SubRatios(t, p);
    PairFacts(q, s, x);
    hide Distinct, Ids, Sub, Put, Off, Leaves, Ratios, First, Other;
    PutIds(t, p, u);
    PutRatios(t, p, u);
    PutInner(t, p, u, First(u));
    FirstIs(u);
  }

  lemma DeleteShows(t: Tree, s: nat, p: nat, x: Show)
    requires Distinct(t) && p in Ids(t) && Half(Sub(t, p), s, x)
    ensures var k := Off(t, p) + if Sub(t, p).l.n == s then 0 else |Leaves(Sub(t, p).l)|;
      && k < |Shows(t)| && Shows(Put(t, p, Renamed(Other(Sub(t, p), s), p))) == Shows(t)[..k] + Shows(t)[k + 1..]
  {
    hide Put, Leaves, LeftOf, RightOf, Distinct, Ids, Sub, Off, Shows, Other;
    var q := Sub(t, p);
    var sib := Other(q, s);
    HalfShows(q, s, x);
    RenamedShows(sib, p);
    hide Half;
    PutShows(t, p, Renamed(sib, p));
    if q.l.n == s { Dropped(LeftOf(t, p), x, Shows(sib), RightOf(t, p)); }
    else { DroppedRight(LeftOf(t, p), Shows(sib), x, RightOf(t, p)); }
  }

  lemma HalfShows(q: Tree, s: nat, x: Show)
    requires Half(q, s, x)
    ensures Shows(q) == if q.l.n == s then [x] + Shows(Other(q, s)) else Shows(Other(q, s)) + [x]
    ensures q.l.n != s ==> |Shows(Other(q, s))| == |Leaves(q.l)|
  {
  }

  lemma PairFacts(q: Tree, s: nat, x: Show)
    requires Half(q, s, x) && Distinct(q) && Ratios(q)
    ensures var sib := Other(q, s);
      var u := Renamed(sib, q.n);
      && Distinct(u) && Ids(u) == Ids(q) - {s, sib.n} && Ratios(u)
      && sib.n != s && sib.n != q.n && sib.n in Ids(q) && s in Ids(q)
  {
  }

  lemma Dropped(a: seq<Show>, x: Show, b: seq<Show>, c: seq<Show>)
    ensures var s, k := a + ([x] + b) + c, |a|; a + b + c == s[..k] + s[k + 1..]
  {
  }

  lemma DroppedRight(a: seq<Show>, b: seq<Show>, x: Show, c: seq<Show>)
    ensures var s, k := a + (b + [x]) + c, |a| + |b|; a + b + c == s[..k] + s[k + 1..]
  {
  }

  // ----- leaf order -----

  /** The leftmost leaf. */
  function First(t: Tree): (n: nat)
    ensures n in Ids(t)
  {
    if t.Leaf? then t.n else First(t.l)
  }

  lemma {:induction false} FirstIs(t: Tree)
    requires Distinct(t)
    ensures Leaves(t)[0] == First(t) && Off(t, First(t)) == 0 && Sub(t, First(t)).Leaf?
  {
    if t.Node? { FirstIs(t.l); }
  }

  lemma {:induction false} LeafAt(t: Tree, n: nat)
    requires n in Ids(t) && Distinct(t) && Sub(t, n).Leaf?
    ensures Off(t, n) < |Leaves(t)| && Leaves(t)[Off(t, n)] == n
  {
    if t.n != n {
      if n in Ids(t.l) { LeafAt(t.l, n); } else { LeafAt(t.r, n); }
    }
  }

  lemma {:induction false} LeafIn(t: Tree, i: nat)
    requires Distinct(t) && i < |Leaves(t)|
    ensures Leaves(t)[i] in Ids(t) && Sub(t, Leaves(t)[i]).Leaf? && Off(t, Leaves(t)[i]) == i
  {
    if t.Node? {
      if i < |Leaves(t.l)| { LeafIn(t.l, i); } else { LeafIn(t.r, i - |Leaves(t.l)|); }
    }
  }

  /** A place inside a subtree, seen from the whole tree. */
  lemma {:induction false} OffInner(t: Tree, s: nat, k: nat)
    requires s in Ids(t) && Distinct(t) && k in Ids(Sub(t, s))
    ensures k in Ids(t) && Off(t, k) == Off(t, s) + Off(Sub(t, s), k) && Sub(t, k) == Sub(Sub(t, s), k)
  {
    if t.n != s {
      if s in Ids(t.l) { SubIn(t.l, s); OffInner(t.l, s, k); } else { SubIn(t.r, s); OffInner(t.r, s, k); }
    }
  }

  /** Where m steps of other_window lead from the leaf at position k. */
  function After(t: Tree, k: nat, m: nat): nat {
    Leaves(t)[(k + m) % |Leaves(t)|]
  }

  /** x occurs at exactly one place. */
  ghost predicate Once(visited: seq<nat>, x: nat) {
    exists j :: OnlyAt(visited, x, j)
  }

  ghost predicate OnlyAt(visited: seq<nat>, x: nat, j: int) {
    0 <= j < |visited| && visited[j] == x && forall j' :: 0 <= j' < |visited| && visited[j'] == x ==> j' == j
  }

  /** n steps on n leaves meet every leaf exactly once, the one they started from last. */
  lemma FullCycle(t: Tree, k: nat, visited: seq<nat>, i: nat)
    requires Distinct(t) && k < |Leaves(t)| == |visited| && i < |Leaves(t)|
    requires forall j: nat :: j < |visited| ==> visited[j] == After(t, k, j + 1)
    ensures Once(visited, Leaves(t)[i]) && visited[|visited| - 1] == Leaves(t)[k]
  {
    var n := |Leaves(t)|;
    Turn(k, n, n);
    var m: nat := if i > k then i - k else i + n - k;
    Turn(k, m, n);
    forall j' | 0 <= j' < n && visited[j'] == Leaves(t)[i] ensures j' == m - 1 {
      Turn(k, j' + 1, n);
      LeafIn(t, (k + (j' + 1)) % n);
      LeafIn(t, i);
    }
    assert OnlyAt(visited, Leaves(t)[i], m - 1);
  }

  lemma Turn(k: nat, m: nat, n: nat)
    requires k < n && m <= n
    ensures (k + m) % n == if k + m < n then k + m else k + m - n
  {
  }

  // ----- layout -----

  datatype Rect = Rect(x: int, y: int, w: int, h: int)

  /** The share of a split's first half, truncated. */
  function Share(total: int, ratio: int): int {
    total * ratio / 100
  }

  lemma ShareBounds(total: int, ratio: int)
    requires 0 <= total && 0 <= ratio <= 100
    ensures 0 <= Share(total, ratio) <= total
  {
    assert 0 <= total * ratio;
    assert total * ratio <= total * 100;
  }

  function LeftRect(t: Tree, r: Rect): Rect
    requires t.Node?
  {
    if t.vertical then r.(w := Share(r.w, t.ratio)) else r.(h := Share(r.h, t.ratio))
  }

  function RightRect(t: Tree, r: Rect): Rect
    requires t.Node?
  {
    if t.vertical then r.(x := r.x + Share(r.w, t.ratio), w := r.w - Share(r.w, t.ratio))
    else r.(y := r.y + Share(r.h, t.ratio), h := r.h - Share(r.h, t.ratio))
  }

  predicate Inside(r: Rect, cx: int, cy: int) {
    r.x <= cx < r.x + r.w && r.y <= cy < r.y + r.h
  }

  /** The rectangle layout_tree gives to node n when the tree gets r. */
  function RectOf(t: Tree, r: Rect, n: nat): Rect
    requires n in Ids(t)
  {
    if t.n == n then r
    else if n in Ids(t.l) then RectOf(t.l, LeftRect(t, r), n)
    else RectOf(t.r, RightRect(t, r), n)
  }

  /** The leaf a cell falls to, walking down the splits. */
  function LeafUnder(t: Tree, r: Rect, cx: int, cy: int): nat {
    if t.Leaf? then t.n
    else if Inside(LeftRect(t, r), cx, cy) then LeafUnder(t.l, LeftRect(t, r), cx, cy)
    else LeafUnder(t.r, RightRect(t, r), cx, cy)
  }

  ghost predicate Has(t: Tree, r: Rect, n: nat, cx: int, cy: int) {
    n in Leaves(t) && n in Ids(t) && Inside(RectOf(t, r, n), cx, cy)
  }

  /** The leaves partition the area: a cell of it lies in exactly one leaf's rectangle, a cell outside
      in none. */
  lemma {:induction false} Partition(t: Tree, r: Rect, cx: int, cy: int, n: nat)
    requires Distinct(t) && Ratios(t) && r.w >= 0 && r.h >= 0
    ensures Has(t, r, n, cx, cy) <==> Inside(r, cx, cy) && n == LeafUnder(t, r, cx, cy)
  {
    if t.Node? {
      ShareBounds(r.w, t.ratio);
      ShareBounds(r.h, t.ratio);
      Partition(t.l, LeftRect(t, r), cx, cy, n);
      Partition(t.r, RightRect(t, r), cx, cy, n);
      LeavesIn(t);
      Halved(t, r, cx, cy);
      hide Leaves, LeftRect, RightRect, Inside, Share;
      UnderIn(t.l, LeftRect(t, r), cx, cy);
      UnderIn(t.r, RightRect(t, r), cx, cy);
    }
  }

  lemma Halved(t: Tree, r: Rect, cx: int, cy: int)
    requires t.Node? && 0 <= Share(r.w, t.ratio) <= r.w && 0 <= Share(r.h, t.ratio) <= r.h
    ensures Inside(r, cx, cy) <==> Inside(LeftRect(t, r), cx, cy) || Inside(RightRect(t, r), cx, cy)
    ensures !(Inside(LeftRect(t, r), cx, cy) && Inside(RightRect(t, r), cx, cy))
    ensures LeftRect(t, r).w >= 0 && LeftRect(t, r).h >= 0 && RightRect(t, r).w >= 0 && RightRect(t, r).h >= 0
  {
    hide Share;
  }

  lemma {:induction false} UnderIn(t: Tree, r: Rect, cx: int, cy: int)
    requires Distinct(t)
    ensures LeafUnder(t, r, cx, cy) in Leaves(t) && LeafUnder(t, r, cx, cy) in Ids(t)
  {
    if t.Node? {
      UnderIn(t.l, LeftRect(t, r), cx, cy);
      UnderIn(t.r, RightRect(t, r), cx, cy);
    }
  }

  lemma LeavesIn(t: Tree)
    requires t.Node? && Distinct(t)
    ensures forall n :: n in Leaves(t) <==> n in Leaves(t.l) || n in Leaves(t.r)
    ensures forall n :: n in Leaves(t.l) ==> n in Ids(t.l) && n in Ids(t) && n != t.n
    ensures forall n :: n in Leaves(t.r) ==> n in Ids(t.r) && n in Ids(t) && n !in Ids(t.l) && n != t.n
  {
    forall n | n in Leaves(t.l) ensures n in Ids(t.l) {
      var i :| 0 <= i < |Leaves(t.l)| && Leaves(t.l)[i] == n;
      LeafIn(t.l, i);
    }
    forall n | n in Leaves(t.r) ensures n in Ids(t.r) {
      var i :| 0 <= i < |Leaves(t.r)| && Leaves(t.r)[i] == n;
      LeafIn(t.r, i);
    }
  }

  // ----- the rectangles, number by number -----

  /** A split cuts its rectangle at its ratio in percent, rounded down: side by side if it is vertical, else
      one above the other, the first half left or on top. What lies below a half lies in that half. */
  lemma Cuts(t: Tree, r: Rect, n: nat)
    requires t.Node? && Distinct(t)
    ensures var w, h := r.w * t.ratio / 100, r.h * t.ratio / 100;
      && RectOf(t, r, t.n) == r
      && RectOf(t, r, t.l.n) == (if t.vertical then Rect(r.x, r.y, w, r.h) else Rect(r.x, r.y, r.w, h))
      && RectOf(t, r, t.r.n) == (if t.vertical then Rect(r.x + w, r.y, r.w - w, r.h) else Rect(r.x, r.y + h, r.w, r.h - h))
    ensures n in Ids(t.l) ==> RectOf(t, r, n) == RectOf(t.l, RectOf(t, r, t.l.n), n)
    ensures n in Ids(t.r) ==> RectOf(t, r, n) == RectOf(t.r, RectOf(t, r, t.r.n), n)
  {
    CutsDown(t, r, n);
    hide RectOf, Ids, Distinct;
  }

  lemma CutsDown(t: Tree, r: Rect, n: nat)
    requires t.Node? && Distinct(t)
    ensures RectOf(t, r, t.n) == r && RectOf(t, r, t.l.n) == LeftRect(t, r) && RectOf(t, r, t.r.n) == RightRect(t, r)
    ensures n in Ids(t.l) ==> RectOf(t, r, n) == RectOf(t.l, LeftRect(t, r), n)
    ensures n in Ids(t.r) ==> RectOf(t, r, n) == RectOf(t.r, RightRect(t, r), n)
  {
    hide LeftRect, RightRect;
  }

  /** A new subtree moves no rectangle outside of it, and shares out the one it hangs in. */
  lemma {:induction false} PutRects(t: Tree, s: nat, u: Tree, r: Rect, n: nat)
    requires s in Ids(t) && u.n == s && Distinct(t) && Distinct(u)
    requires forall i :: i in Ids(u) && i in Ids(t) ==> i in Ids(Sub(t, s))
    ensures n in Ids(t) && n !in Ids(Sub(t, s)) ==> n in Ids(Put(t, s, u)) && RectOf(Put(t, s, u), r, n) == RectOf(t, r, n)
    ensures n in Ids(u) ==> n in Ids(Put(t, s, u)) && RectOf(Put(t, s, u), r, n) == RectOf(u, RectOf(t, r, s), n)
  {
    hide LeftRect, RightRect, Leaves, Off;
    PutIds(t, s, u);
    SubIn(t, s);
    if t.n == s {
    } else if s in Ids(t.l) {
      SubIn(t.l, s);
      PutIds(t.l, s, u);
      PutRects(t.l, s, u, LeftRect(t, r), n);
      SameCut(t, Put(t, s, u), r);
    } else {
      SubIn(t.r, s);
      PutIds(t.r, s, u);
      PutRects(t.r, s, u, RightRect(t, r), n);
      SameCut(t, Put(t, s, u), r);
    }
  }

  lemma SameCut(t: Tree, t': Tree, r: Rect)
    requires t.Node? && t'.Node? && t'.vertical == t.vertical && t'.ratio == t.ratio
    ensures LeftRect(t', r) == LeftRect(t, r) && RightRect(t', r) == RightRect(t, r)
  {
  }

  /** After a split of leaf s the selected window a and the new one b share the rectangle s had: two halves
      of its height side by side, or two halves of its width one above the other. Every other window keeps
      its rectangle. */
  lemma SplitRects(t: Tree, s: nat, vertical: bool, a: nat, b: nat, r: Rect, n: nat)
    requires Distinct(t) && s in Ids(t) && Sub(t, s).Leaf? && a !in Ids(t) && b !in Ids(t) && a != b && n in Ids(t)
    ensures var x, q := Sub(t, s).show, RectOf(t, r, s);
      var t' := Put(t, s, Node(s, vertical, 50, Leaf(a, x), Leaf(b, x)));
      && a in Ids(t') && b in Ids(t') && n in Ids(t') && RectOf(t', r, n) == RectOf(t, r, n)
      && RectOf(t', r, a) == (if vertical then Rect(q.x, q.y, q.w / 2, q.h) else Rect(q.x, q.y, q.w, q.h / 2))
      && RectOf(t', r, b) == (if vertical then Rect(q.x + q.w / 2, q.y, q.w - q.w / 2, q.h)
                              else Rect(q.x, q.y + q.h / 2, q.w, q.h - q.h / 2))
  {
    var x, q := Sub(t, s).show, RectOf(t, r, s);
    var u := Node(s, vertical, 50, Leaf(a, x), Leaf(b, x));
    assert a != s && b != s;
    LeafShow(t, s);
    SplitFacts(s, x, vertical, a, b);
    PutRects(t, s, u, r, a);
    PutRects(t, s, u, r, b);
    PutRects(t, s, u, r, n);
    Cuts(u, q, s);
  }
}
