/** kmalloc and kfree: a first-fit list of blocks in address order, split, merged and grown. */
module Kheap {
  import opened Pmm

  /** sizeof(struct block). */
  const HDR: nat := 32

  datatype Header = Header(size: nat, free: bool, next: nat, prev: nat)

  /** A block as the list shows it. */
  datatype Blk = Blk(addr: nat, size: nat, free: bool)

  function End(x: Blk): nat { x.addr + HDR + x.size }

  function Align8(n: nat): nat { (n + 7) / 8 * 8 }

  // ----- the blocks in order -----

  /** a lies before b without overlap. */
  predicate Before(a: Blk, b: Blk) {
    End(a) <= b.addr
  }

  predicate Fine(x: Blk) {
    x.addr > 0 && x.addr % 8 == 0 && x.size % 8 == 0 && x.size > 0
  }

  /** In address order, without overlap, aligned. */
  ghost predicate Ordered(s: seq<Blk>) {
    && (forall i :: 0 <= i < |s| ==> Fine(s[i]))
    && forall i, j :: 0 <= i < j < |s| ==> Before(s[i], s[j])
  }

  /** Two free blocks that could have been one. */
  predicate Mergeable(a: Blk, b: Blk) {
    a.free && b.free && End(a) == b.addr
  }

  predicate Apart(s: seq<Blk>, i: int) {
    0 < i < |s| ==> !Mergeable(s[i - 1], s[i])
  }

  /** No two neighbours are mergeable. */
  ghost predicate Coalesced(s: seq<Blk>) {
    forall i :: Apart(s, i)
  }

  /** Headers and payloads together. */
  function Total(s: seq<Blk>): nat {
    if s == [] then 0 else HDR + s[0].size + Total(s[1..])
  }

  lemma {:induction false} TotalConcat(a: seq<Blk>, b: seq<Blk>)
    ensures Total(a + b) == Total(a) + Total(b)
  {
    if a == [] {
      assert a + b == b;
    } else {
      TotalConcat(a[1..], b);
      assert (a + b)[1..] == a[1..] + b;
    }
  }

  /** The blocks in use. */
  function Live(s: seq<Blk>): set<Blk> {
    set x | x in s && !x.free
  }

  // ----- what the operations do to the blocks -----

  /** split_block leaves too small a rest alone. */
  function Carved(x: Blk, size: nat): seq<Blk>
    requires size <= x.size
  {
    if x.size < size + HDR + 8 then [x.(free := false)]
    else [Blk(x.addr, size, false), Blk(x.addr + HDR + size, x.size - size - HDR, true)]
  }

  /** What is left is a block of its own if it holds a header of 32 bytes and 8 more. */
  lemma CarvedIs(x: Blk, n: nat)
    requires n <= x.size
    ensures Carved(x, n) == if x.size - n < 40 then [Blk(x.addr, x.size, false)]
                            else [Blk(x.addr, n, false), Blk(x.addr + 32 + n, x.size - n - 32, true)]
  {
  }

  /** Index of the first free block of at least that size. */
  function FirstFit(s: seq<Blk>, size: nat): (i: nat)
    ensures i <= |s|
    ensures i < |s| ==> s[i].free && s[i].size >= size
    ensures forall k :: 0 <= k < i ==> !(s[k].free && s[k].size >= size)
  {
    if s == [] then 0 else if s[0].free && s[0].size >= size then 0 else
      var i := FirstFit(s[1..], size);
      assert forall k :: 0 < k < 1 + i ==> s[k] == s[1..][k - 1];
      1 + i
  }

  // ----- replacing a stretch of blocks -----

  lemma OrderedReplace(a: seq<Blk>, x: seq<Blk>, y: seq<Blk>, c: seq<Blk>)
    requires Ordered(a + x + c) && x != [] && Ordered(y)
    requires forall k :: 0 <= k < |y| ==> x[0].addr <= y[k].addr && End(y[k]) <= End(x[|x| - 1])
    ensures Ordered(a + y + c)
  {
    var s, s' := a + x + c, a + y + c;
    OrderedParts(a, x, c);
    assert s[|a|] == x[0] && s[|a| + |x| - 1] == x[|x| - 1];
    forall i, j | 0 <= i < j < |s'| ensures Before(s'[i], s'[j]) {
      if i < |a| {
        assert s'[i] == a[i] && Before(a[i], x[0]);
        if |a| <= j < |a| + |y| { assert s'[j] == y[j - |a|]; }
      } else if i < |a| + |y| {
        assert s'[i] == y[i - |a|];
        if j < |a| + |y| { assert s'[j] == y[j - |a|]; } else { assert Before(x[|x| - 1], c[j - |a| - |y|]); }
      }
    }
  }

  lemma OrderedParts(a: seq<Blk>, x: seq<Blk>, c: seq<Blk>)
    requires Ordered(a + x + c)
    ensures Ordered(a) && Ordered(x) && Ordered(c)
    ensures forall i, j :: 0 <= i < |a| && 0 <= j < |x| ==> Before(a[i], x[j])
    ensures forall i, j :: 0 <= i < |a| && 0 <= j < |c| ==> Before(a[i], c[j])
    ensures forall i, j :: 0 <= i < |x| && 0 <= j < |c| ==> Before(x[i], c[j])
  {
    OrderedTwo(a + x, c);
    OrderedTwo(a, x);
    hide Before, Ordered;
    forall i, j | 0 <= i < |a| && 0 <= j < |c| ensures Before(a[i], c[j]) { assert (a + x)[i] == a[i]; }
    forall i, j | 0 <= i < |x| && 0 <= j < |c| ensures Before(x[i], c[j]) { assert (a + x)[|a| + i] == x[i]; }
  }

  lemma OrderedTwo(a: seq<Blk>, c: seq<Blk>)
    requires Ordered(a + c)
    ensures Ordered(a) && Ordered(c)
    ensures forall i, j :: 0 <= i < |a| && 0 <= j < |c| ==> Before(a[i], c[j])
  {
    var s := a + c;
    forall i, j | 0 <= i < |a| && 0 <= j < |c| ensures Before(a[i], c[j]) { assert Before(s[i], s[|a| + j]); }
    forall i | 0 <= i < |a| ensures Fine(a[i]) { assert s[i] == a[i]; }
    forall i | 0 <= i < |c| ensures Fine(c[i]) { assert s[|a| + i] == c[i]; }
    forall i, j | 0 <= i < j < |a| ensures Before(a[i], a[j]) { assert Before(s[i], s[j]); }
    forall i, j | 0 <= i < j < |c| ensures Before(c[i], c[j]) { assert Before(s[|a| + i], s[|a| + j]); }
  }

  predicate Joins(a: seq<Blk>, b: seq<Blk>) {
    a != [] && b != [] ==> !Mergeable(a[|a| - 1], b[0])
  }

  lemma CoalescedConcat(a: seq<Blk>, b: seq<Blk>)
    ensures Coalesced(a + b) <==> Coalesced(a) && Coalesced(b) && Joins(a, b)
  {
    var s := a + b;
    if Coalesced(s) {
      forall i ensures Apart(a, i) { assert Apart(s, i); }
      forall i ensures Apart(b, i) { assert Apart(s, |a| + i); }
      assert Apart(s, |a|);
    }
    if Coalesced(a) && Coalesced(b) && Joins(a, b) {
      forall i ensures Apart(s, i) { assert Apart(a, i) && Apart(b, i - |a|); }
    }
  }

  lemma LiveConcat(a: seq<Blk>, b: seq<Blk>)
    ensures Live(a + b) == Live(a) + Live(b)
  {
  }

  /** Blocks of an ordered list are all different. */
  lemma LiveOf(a: seq<Blk>, y: Blk, c: seq<Blk>, x: Blk)
    requires Ordered(a + [x] + c) && y.addr == x.addr
    ensures y !in a && y !in c
  {
    OrderedParts(a, [x], c);
    forall i | 0 <= i < |a| ensures a[i] != y { assert Before(a[i], [x][0]); }
    forall i | 0 <= i < |c| ensures c[i] != y { assert Before([x][0], c[i]); }
  }

  // ----- kmalloc's step -----

  /** Carving a free block: still ordered and coalesced, not a byte lost, one more block in use. */
  lemma CarveKeeps(a: seq<Blk>, x: Blk, c: seq<Blk>, size: nat)
    requires Ordered(a + [x] + c) && x.free && 0 < size <= x.size && size % 8 == 0
    ensures var s, s' := a + [x] + c, a + Carved(x, size) + c;
      Ordered(s') && Total(s') == Total(s) && Live(s') == Live(s) + {Carved(x, size)[0]} && Carved(x, size)[0] !in Live(s)
  {
    var y := Carved(x, size);
    OrderedParts(a, [x], c);
    assert Fine([x][0]);
    OrderedReplace(a, [x], y, c);
    LiveOf(a, x.(free := false, size := y[0].size), c, x);
    TotalConcat(a + [x], c);
    TotalConcat(a, [x]);
    TotalConcat(a + y, c);
    TotalConcat(a, y);
    CarveTotal(x, size);
    LiveConcat(a + [x], c);
    LiveConcat(a, [x]);
    LiveConcat(a + y, c);
    LiveConcat(a, y);
  }

  lemma CarveTotal(x: Blk, size: nat)
    requires size <= x.size && x.free
    ensures Total(Carved(x, size)) == Total([x]) && Live(Carved(x, size)) == {Carved(x, size)[0]} && Live([x]) == {}
  {
    var y := Carved(x, size);
    if |y| == 2 { assert y == [y[0]] + [y[1]]; TotalConcat([y[0]], [y[1]]); }
  }

  lemma CarveCoalesced(a: seq<Blk>, x: Blk, c: seq<Blk>, size: nat)
    requires Coalesced(a + [x] + c) && x.free && 0 < size <= x.size
    ensures Coalesced(a + Carved(x, size) + c)
  {
    var y := Carved(x, size);
    CoalescedConcat(a + [x], c);
    CoalescedConcat(a, [x]);
    forall i ensures Apart(y, i) {}
    assert |y| == 2 ==> End(y[1]) == End(x);
    assert (a + [x])[|a + [x]| - 1] == x && (a + y)[|a + y| - 1] == y[|y| - 1];
    CoalescedConcat(a, y);
    CoalescedConcat(a + y, c);
  }

  /** A block used behind the last one merges with nothing. */
  lemma CarveFresh(s: seq<Blk>, x: Blk, size: nat)
    requires Coalesced(s) && 0 < size <= x.size
    ensures Coalesced(s + Carved(x, size))
  {
    var y := Carved(x, size);
    forall i ensures Apart(y, i) {}
    CoalescedConcat(s, y);
  }

  /** Index of the first fit, found by a scan. */
  lemma {:induction false} FirstFitIs(s: seq<Blk>, size: nat, i: nat)
    requires i <= |s| && (forall k :: 0 <= k < i ==> !(s[k].free && s[k].size >= size))
    requires i < |s| ==> s[i].free && s[i].size >= size
    ensures FirstFit(s, size) == i
  {
    var f := FirstFit(s, size);
  }

  // ----- kfree's steps -----

  /** Merging two neighbours that touch. */
  lemma JoinKeeps(a: seq<Blk>, x: Blk, y: Blk, c: seq<Blk>)
    requires Ordered(a + [x, y] + c) && Mergeable(x, y)
    ensures var z := x.(size := x.size + HDR + y.size);
      && Ordered(a + [z] + c) && Total(a + [z] + c) == Total(a + [x, y] + c) && Live(a + [z] + c) == Live(a + [x, y] + c)
  {
    var z := x.(size := x.size + HDR + y.size);
    OrderedParts(a, [x, y], c);
    assert Fine([x, y][0]) && Fine([x, y][1]);
    OrderedReplace(a, [x, y], [z], c);
    TotalConcat(a + [x, y], c);
    TotalConcat(a, [x, y]);
    TotalConcat(a + [z], c);
    TotalConcat(a, [z]);
    assert [x, y] == [x] + [y];
    TotalConcat([x], [y]);
    LiveConcat(a + [x, y], c);
    LiveConcat(a, [x, y]);
    LiveConcat(a + [z], c);
    LiveConcat(a, [z]);
  }

  /** A block made free: only its own neighbours can be mergeable now. */
  lemma FreedKeeps(a: seq<Blk>, x: Blk, c: seq<Blk>)
    requires Ordered(a + [x] + c) && Coalesced(a + [x] + c) && !x.free
    ensures var y := x.(free := true);
      && Ordered(a + [y] + c) && Total(a + [y] + c) == Total(a + [x] + c) && Live(a + [y] + c) == Live(a + [x] + c) - {x}
      && Coalesced(a) && Coalesced(c)
  {
    var y := x.(free := true);
    OrderedParts(a, [x], c);
    assert Fine([x][0]);
    OrderedReplace(a, [x], [y], c);
    CoalescedConcat(a + [x], c);
    CoalescedConcat(a, [x]);
    TotalConcat(a + [x], c);
    TotalConcat(a, [x]);
    TotalConcat(a + [y], c);
    TotalConcat(a, [y]);
    LiveConcat(a + [x], c);
    LiveConcat(a, [x]);
    LiveConcat(a + [y], c);
    LiveConcat(a, [y]);
    LiveOf(a, x, c, x);
  }

  /** kfree's first merge, with the block behind. */
  lemma NextKeeps(a: seq<Blk>, x: Blk, c: seq<Blk>)
    requires Ordered(a + [x] + c) && Coalesced(c) && x.free
    ensures var m := c != [] && Mergeable(x, c[0]);
      var w, c' := if m then x.(size := x.size + HDR + c[0].size) else x, if m then c[1..] else c;
      && Ordered(a + [w] + c') && Total(a + [w] + c') == Total(a + [x] + c) && Live(a + [w] + c') == Live(a + [x] + c)
      && Coalesced([w] + c')
  {
    if c != [] && Mergeable(x, c[0]) {
      var w, c' := x.(size := x.size + HDR + c[0].size), c[1..];
      assert c == [c[0]] + c' && a + [x] + c == a + [x, c[0]] + c';
      JoinKeeps(a, x, c[0], c');
      CoalescedConcat([c[0]], c');
      OneCoalesced(w);
      CoalescedConcat([w], c');
    } else {
      OneCoalesced(x);
      CoalescedConcat([x], c);
    }
  }

  lemma OneCoalesced(x: Blk)
    ensures Coalesced([x])
  {
    forall i ensures Apart([x], i) {}
  }

  /** kfree's second merge, with the block in front: the list is coalesced again. */
  lemma PrevKeeps(a: seq<Blk>, w: Blk, c: seq<Blk>)
    requires Ordered(a + [w] + c) && Coalesced(a) && Coalesced([w] + c) && w.free
    ensures var m := a != [] && Mergeable(a[|a| - 1], w);
      var s' := if m then a[..|a| - 1] + [a[|a| - 1].(size := a[|a| - 1].size + HDR + w.size)] + c else a + [w] + c;
      Ordered(s') && Total(s') == Total(a + [w] + c) && Live(s') == Live(a + [w] + c) && Coalesced(s')
  {
    if a != [] && Mergeable(a[|a| - 1], w) {
      var p, a' := a[|a| - 1], a[..|a| - 1];
      var z := p.(size := p.size + HDR + w.size);
      assert a == a' + [p] && a + [w] + c == a' + [p, w] + c;
      JoinKeeps(a', p, w, c);
      CoalescedConcat(a', [p]);
      CoalescedConcat([w], c);
      OneCoalesced(z);
      CoalescedConcat(a', [z]);
      assert (a' + [z])[|a' + [z]| - 1] == z;
      CoalescedConcat(a' + [z], c);
    } else {
      assert a + [w] + c == a + ([w] + c);
      CoalescedConcat(a, [w] + c);
    }
  }

  /** A block of fresh pages behind all others, about to be used. */
  lemma AppendKeeps(s: seq<Blk>, x: Blk)
    requires Ordered(s) && Fine(x) && forall i :: 0 <= i < |s| ==> Before(s[i], x)
    ensures Ordered(s + [x]) && Total(s + [x]) == Total(s) + HDR + x.size && (x.free ==> Live(s + [x]) == Live(s))
  {
    TotalConcat(s, [x]);
  }

  // ----- the doubly linked list -----

  function AddrAt(s: seq<Blk>, i: int): nat {
    if 0 <= i < |s| then s[i].addr else 0
  }

  /** The header of block i says what the list says. */
  ghost predicate NodeOk(h: map<nat, Header>, s: seq<Blk>, i: int) {
    0 <= i < |s| ==>
      s[i].addr in h && h[s[i].addr] == Header(s[i].size, s[i].free, AddrAt(s, i + 1), AddrAt(s, i - 1))
  }

  function Addrs(s: seq<Blk>): set<nat> {
    set i | 0 <= i < |s| :: s[i].addr
  }

  ghost predicate Linked(h: map<nat, Header>, head: nat, s: seq<Blk>) {
    head == AddrAt(s, 0) && h.Keys == Addrs(s) && forall i :: NodeOk(h, s, i)
  }

  lemma AddrsConcat(a: seq<Blk>, b: seq<Blk>)
    ensures Addrs(a + b) == Addrs(a) + Addrs(b)
  {
    var s := a + b;
    forall i | 0 <= i < |a| ensures a[i].addr in Addrs(s) { assert s[i] == a[i]; }
    forall i | 0 <= i < |b| ensures b[i].addr in Addrs(s) { assert s[|a| + i] == b[i]; }
  }

  /** Ordered blocks have ascending addresses. */
  ghost predicate Ascending(s: seq<Blk>) {
    (forall i, j :: 0 <= i < j < |s| ==> s[i].addr < s[j].addr) && forall i :: 0 <= i < |s| ==> s[i].addr != 0
  }

  lemma AddrsAscend(s: seq<Blk>)
    requires Ordered(s)
    ensures Ascending(s)
  {
    forall i, j | 0 <= i < j < |s| ensures s[i].addr < s[j].addr { assert Before(s[i], s[j]); }
    forall i | 0 <= i < |s| ensures s[i].addr != 0 { assert Fine(s[i]); }
  }

  /** What a block's header says. */
  lemma HeaderOf(h: map<nat, Header>, head: nat, s: seq<Blk>, i: nat)
    requires Linked(h, head, s) && Ordered(s) && i < |s|
    ensures s[i].addr in h && h[s[i].addr] == Header(s[i].size, s[i].free, AddrAt(s, i + 1), AddrAt(s, i - 1))
    ensures AddrAt(s, i + 1) != 0 <==> i + 1 < |s|
    ensures i + 1 < |s| ==> AddrAt(s, i + 1) == s[i + 1].addr && s[i].addr < s[i + 1].addr && s[i + 1].addr in h
    ensures s[i].addr != 0 && (AddrAt(s, i - 1) != 0 <==> i > 0) && (i > 0 ==> AddrAt(s, i - 1) == s[i - 1].addr)
  {
    AddrsAscend(s);
    assert NodeOk(h, s, i) && NodeOk(h, s, i + 1);
  }

  /** split_block's assignments, given that it splits. */
  function SplitHeaders(h: map<nat, Header>, b: nat, size: nat): map<nat, Header>
    requires b in h && h[b].size >= size + HDR && (h[b].next != 0 ==> h[b].next in h)
  {
    var rest := b + HDR + size;
    var h1 := h[rest := Header(h[b].size - size - HDR, true, h[b].next, b)];
    var h2 := if h[b].next != 0 then h1[h[b].next := h1[h[b].next].(prev := rest)] else h1;
    h2[b := h2[b].(next := rest, size := size)]
  }

  lemma SplitNode(h: map<nat, Header>, s: seq<Blk>, i: nat, r: nat, size: nat, rsize: nat, h': map<nat, Header>, k: int)
    requires i < |s| && Ascending(s) && (forall j :: 0 <= j < |s| ==> s[j].addr != r)
    requires NodeOk(h, s, k) && NodeOk(h, s, k - 1)
    requires h' == (var h1 := h[r := Header(rsize, true, AddrAt(s, i + 1), s[i].addr)];
      var h2 := if i + 1 < |s| && s[i + 1].addr in h1 then h1[s[i + 1].addr := h1[s[i + 1].addr].(prev := r)] else h1;
      h2[s[i].addr := Header(size, false, r, AddrAt(s, i - 1))])
    ensures NodeOk(h', s[..i] + [Blk(s[i].addr, size, false), Blk(r, rsize, true)] + s[i + 1..], k)
  {
    var s' := s[..i] + [Blk(s[i].addr, size, false), Blk(r, rsize, true)] + s[i + 1..];
    if k <= i {
      assert 0 <= k < i ==> s'[k] == s[k];
    } else if k < |s'| {
      assert k > i + 1 ==> s'[k] == s[k - 1];
    }
  }

  lemma SplitLinked(h: map<nat, Header>, head: nat, s: seq<Blk>, i: nat, size: nat)
    requires Linked(h, head, s) && Ordered(s) && i < |s| && s[i].size >= size + HDR + 8 && s[i].free
    ensures s[i].addr in h && h[s[i].addr].size == s[i].size
    ensures h[s[i].addr].next == AddrAt(s, i + 1) && (h[s[i].addr].next != 0 ==> h[s[i].addr].next in h)
    ensures var h' := SplitHeaders(h, s[i].addr, size);
      s[i].addr in h' && Linked(h'[s[i].addr := h'[s[i].addr].(free := false)], head, s[..i] + Carved(s[i], size) + s[i + 1..])
  {
    hide Ordered, Ascending, NodeOk, Addrs, AddrAt;
    var x := s[i];
    var b, rest, rsize := x.addr, x.addr + HDR + size, x.size - size - HDR;
    var y := [Blk(b, size, false), Blk(rest, rsize, true)];
    var s' := s[..i] + y + s[i + 1..];
    HeaderOf(h, head, s, i);
    NotThere(s, i, rest);
    AddrsAscend(s);
    SplitAddrs(s, i, y);
    HeadStays(s, s', i);
    var h0 := SplitHeaders(h, b, size);
    var h' := h0[b := h0[b].(free := false)];
    forall k ensures NodeOk(h', s', k) {
      assert NodeOk(h, s, k) && NodeOk(h, s, k - 1);
      SplitNode(h, s, i, rest, size, rsize, h', k);
    }
    assert h'.Keys == h.Keys + {rest};
  }

  lemma HeadStays(s: seq<Blk>, s': seq<Blk>, i: nat)
    requires i < |s| && i < |s'| && s'[..i] == s[..i] && s'[i].addr == s[i].addr
    ensures AddrAt(s', 0) == AddrAt(s, 0)
  {
    assert i > 0 ==> s'[..i][0] == s[..i][0];
  }

  /** No block starts inside another. */
  lemma NotThere(s: seq<Blk>, i: nat, r: nat)
    requires Ordered(s) && i < |s| && s[i].addr < r < End(s[i])
    ensures forall k :: 0 <= k < |s| ==> s[k].addr != r
  {
    forall k | 0 <= k < |s| ensures s[k].addr != r {
      if k < i { assert Before(s[k], s[i]); } else if k > i { assert Before(s[i], s[k]); }
    }
  }

  lemma SplitAddrs(s: seq<Blk>, i: nat, y: seq<Blk>)
    requires i < |s| && |y| == 2 && y[0].addr == s[i].addr
    ensures Addrs(s[..i] + y + s[i + 1..]) == Addrs(s) + {y[1].addr}
  {
    AddrsConcat(s[..i] + y, s[i + 1..]);
    AddrsConcat(s[..i], y);
    AddrsConcat(s[..i] + [s[i]], s[i + 1..]);
    AddrsConcat(s[..i], [s[i]]);
    assert s == s[..i] + [s[i]] + s[i + 1..];
    assert Addrs(y) == {y[0].addr, y[1].addr} && Addrs([s[i]]) == {s[i].addr};
  }

  /** One block changed in size or freeness only. */
  lemma ChangeLinked(h: map<nat, Header>, head: nat, s: seq<Blk>, i: nat, free: bool)
    requires Linked(h, head, s) && Ordered(s) && i < |s|
    ensures s[i].addr in h && Linked(h[s[i].addr := h[s[i].addr].(free := free)], head, s[i := s[i].(free := free)])
  {
    hide Ordered, Addrs;
    var s', b := s[i := s[i].(free := free)], s[i].addr;
    HeaderOf(h, head, s, i);
    AddrsAscend(s);
    var h' := h[b := h[b].(free := free)];
    forall k ensures NodeOk(h', s', k) { assert NodeOk(h, s, k); }
    SameAddrs(s, s');
    assert h'.Keys == h.Keys;
  }

  lemma OneAddr(x: Blk)
    ensures Addrs([x]) == {x.addr}
  {
    assert [x][0] == x;
  }

  lemma SameAddrs(s: seq<Blk>, s': seq<Blk>)
    requires |s| == |s'| && forall k :: 0 <= k < |s| ==> s'[k].addr == s[k].addr
    ensures Addrs(s') == Addrs(s)
  {
  }

  /** The assignments of one merge in kfree: block b takes in the one behind it. */
  function MergeHeaders(h: map<nat, Header>, b: nat): map<nat, Header>
    requires b in h && h[b].next in h && h[b].next != b && (h[h[b].next].next != 0 ==> h[h[b].next].next in h)
  {
    var n := h[b].next;
    var h1 := h[b := h[b].(size := h[b].size + HDR + h[n].size, next := h[n].next)];
    (if h[n].next != 0 then h1[h[n].next := h1[h[n].next].(prev := b)] else h1) - {n}
  }

  lemma MergeNode(h: map<nat, Header>, s: seq<Blk>, i: nat, z: Blk, h': map<nat, Header>, k: int)
    requires i + 1 < |s| && Ascending(s) && z.addr == s[i].addr
    requires NodeOk(h, s, k) && NodeOk(h, s, k + 1)
    requires h' == (var h1 := h[z.addr := Header(z.size, z.free, AddrAt(s, i + 2), AddrAt(s, i - 1))];
      (if i + 2 < |s| && s[i + 2].addr in h1 then h1[s[i + 2].addr := h1[s[i + 2].addr].(prev := z.addr)] else h1) - {s[i + 1].addr})
    ensures NodeOk(h', s[..i] + [z] + s[i + 2..], k)
  {
    var s' := s[..i] + [z] + s[i + 2..];
    if k <= i {
      assert 0 <= k < i ==> s'[k] == s[k];
    } else if k < |s'| {
      assert s'[k] == s[k + 1];
    }
  }

  lemma MergeLinked(h: map<nat, Header>, head: nat, s: seq<Blk>, i: nat)
    requires Linked(h, head, s) && Ordered(s) && i + 1 < |s|
    ensures var b, n := s[i].addr, s[i + 1].addr;
      && b in h && h[b].next == n && n in h && n != b && h[n].size == s[i + 1].size && h[n].prev == b
      && (h[n].next != 0 ==> h[n].next in h)
    ensures Linked(MergeHeaders(h, s[i].addr), head, s[..i] + [s[i].(size := s[i].size + HDR + s[i + 1].size)] + s[i + 2..])
  {
    hide Ordered, Ascending, NodeOk, Addrs, AddrAt;
    var z := s[i].(size := s[i].size + HDR + s[i + 1].size);
    var s' := s[..i] + [z] + s[i + 2..];
    HeaderOf(h, head, s, i);
    HeaderOf(h, head, s, i + 1);
    AddrsAscend(s);
    MergeAddrs(s, i, z);
    HeadStays(s, s', i);
    var h' := MergeHeaders(h, s[i].addr);
    forall k ensures NodeOk(h', s', k) {
      assert NodeOk(h, s, k) && NodeOk(h, s, k + 1);
      MergeNode(h, s, i, z, h', k);
    }
    assert h'.Keys == h.Keys - {s[i + 1].addr};
  }

  lemma MergeAddrs(s: seq<Blk>, i: nat, z: Blk)
    requires i + 1 < |s| && z.addr == s[i].addr && Ordered(s)
    ensures Addrs(s[..i] + [z] + s[i + 2..]) == Addrs(s) - {s[i + 1].addr}
  {
    AddrsAscend(s);
    hide Ordered;
    var a, c := s[..i], s[i + 2..];
    assert s == a + [s[i]] + [s[i + 1]] + c;
    AddrsConcat(a + [z], c);
    AddrsConcat(a, [z]);
    AddrsConcat(a + [s[i]] + [s[i + 1]], c);
    AddrsConcat(a + [s[i]], [s[i + 1]]);
    AddrsConcat(a, [s[i]]);
    OneAddr(z);
    OneAddr(s[i]);
    OneAddr(s[i + 1]);
    assert s[i + 1].addr !in Addrs(a) && s[i + 1].addr !in Addrs(c) && s[i + 1].addr != z.addr;
  }

  /** grow_heap's assignments: a fresh block behind the last one. */
  function AppendHeaders(h: map<nat, Header>, last: nat, b: nat, size: nat): map<nat, Header>
    requires last != 0 ==> last in h
  {
    var h1 := h[b := Header(size, true, 0, last)];
    if last != 0 && last in h then h1[last := h1[last].(next := b)] else h1
  }

  lemma AppendLinked(h: map<nat, Header>, head: nat, s: seq<Blk>, x: Blk)
    requires Linked(h, head, s) && Ordered(s + [x]) && x.free
    ensures var last := AddrAt(s, |s| - 1);
      && (last != 0 ==> last in h)
      && Linked(AppendHeaders(h, last, x.addr, x.size), if head == 0 then x.addr else head, s + [x])
  {
    var s' := s + [x];
    var last := AddrAt(s, |s| - 1);
    assert NodeOk(h, s, |s| - 1) && Fine(s'[|s|]);
    forall i | 0 <= i < |s| ensures s[i].addr != x.addr && s[i].addr != 0 { assert Before(s'[i], s'[|s|]) && Fine(s'[i]); }
    AddrsAscend(s');
    var h' := AppendHeaders(h, last, x.addr, x.size);
    forall k ensures NodeOk(h', s', k) { assert NodeOk(h, s, k); }
    AddrsConcat(s, [x]);
    assert Addrs([x]) == {x.addr};
  }

  // ----- the heap -----

  ghost predicate Within(s: seq<Blk>, lo: nat, hi: nat) {
    forall i :: 0 <= i < |s| ==> lo <= s[i].addr && End(s[i]) <= hi
  }

  /** Pages for a payload of need bytes and its header. */
  function PagesFor(need: nat): nat { (HDR + need + PAGE - 1) / PAGE }

  /** ... as grow_heap computes it, in 64 bits. */
  function PagesFor64(need: nat): nat { ((HDR + need) % U64 + PAGE - 1) % U64 / PAGE }

  /** The frontier plus these pages stays below 2^64. */
  predicate FitsWord(bump: nat, need: nat) {
    bump + PagesFor(need) * PAGE < U64
  }

  /** Then no sum on the way wraps. */
  lemma NoWrap(bump: nat, need: nat)
    requires PAGE <= bump && bump % PAGE == 0 && FitsWord(bump, need)
    ensures PagesFor64(need) == PagesFor(need) < U64 && (bump + PagesFor(need) * PAGE) % U64 == bump + PagesFor(need) * PAGE
  {
    var n := PagesFor(need);
    assert HDR + need <= n * PAGE && (bump + n * PAGE) % PAGE == 0;
    TopIs(bump, n * PAGE);
  }

  /** An input that wraps: for 2^64 - 4120 bytes grow_heap asks for no page at all. */
  lemma HugeRequest()
    ensures Align8(U64 - 4120) == U64 - 4120 && PagesFor64(U64 - 4120) == 0
  {
  }

  /** The block grow_heap makes of them. */
  function FreshBlk(addr: nat, need: nat): Blk { Blk(addr, PagesFor(need) * PAGE - HDR, true) }

  lemma FreshIs(addr: nat, need: nat)
    ensures FreshBlk(addr, need).addr == addr && FreshBlk(addr, need).free
    ensures FreshBlk(addr, need).size == (need + 4127) / 4096 * 4096 - 32
  {
  }

  lemma FreshFits(addr: nat, need: nat)
    requires addr > 0 && addr % 8 == 0 && need > 0
    ensures Fine(FreshBlk(addr, need)) && FreshBlk(addr, need).size >= need && End(FreshBlk(addr, need)) == addr + PagesFor(need) * PAGE
  {
  }

  /** Block i with the one behind it, if both are free and touch. */
  function JoinedBehind(s: seq<Blk>, i: nat): (r: seq<Blk>)
    requires i < |s|
    ensures i < |r|
  {
    if i + 1 < |s| && Mergeable(s[i], s[i + 1]) then s[..i] + [s[i].(size := s[i].size + HDR + s[i + 1].size)] + s[i + 2..] else s
  }

  /** ... with the one in front of it. */
  function JoinedInFront(s: seq<Blk>, i: nat): seq<Blk>
    requires i < |s|
  {
    if i > 0 && Mergeable(s[i - 1], s[i]) then s[..i - 1] + [s[i - 1].(size := s[i - 1].size + HDR + s[i].size)] + s[i + 1..] else s
  }

  /** kfree of block i. */
  function Freed(s: seq<Blk>, i: nat): seq<Blk>
    requires i < |s|
  {
    JoinedInFront(JoinedBehind(s[i := s[i].(free := true)], i), i)
  }

  class Heap {
    const pages: Pages
    var head: nat
    var hdr: map<nat, Header>
    /** The blocks in list order, and the pages obtained so far. */
    ghost var blks: seq<Blk>
    ghost var got: nat

    /** What holds even inside a call: a linked, ordered list on pages below the frontier, with every
        byte obtained accounted for. */
    ghost predicate Sound()
      reads this, pages
    {
      && pages.Valid() && pages.start % PAGE == 0 && Linked(hdr, head, blks) && Ordered(blks) && Total(blks) == got * PAGE
      && Within(blks, pages.start, pages.bump)
    }

    /** At every call boundary no two free blocks touch, too. */
    ghost predicate Valid()
      reads this, pages
    {
      Sound() && Coalesced(blks)
    }

    /** kheap_init. */
    constructor (pages: Pages)
      requires pages.Valid() && pages.start % PAGE == 0
      ensures Valid() && blks == [] && this.pages == pages
    {
      this.pages := pages;
      head, hdr, blks, got := 0, map[], [], 0;
    }

    /** The second half of grow_heap: the fresh block's header, behind the last block. */
    method LinkLast(b: nat, size: nat)
      requires Linked(hdr, head, blks) && Ordered(blks) && b !in Addrs(blks) && b != 0
      modifies this`hdr, this`head
      ensures var last := AddrAt(blks, |blks| - 1); last != 0 ==> last in old(hdr)
      ensures hdr == AppendHeaders(old(hdr), AddrAt(blks, |blks| - 1), b, size) && head == if old(head) == 0 then b else old(head)
    {
      hide Linked, Ordered, NodeOk, Addrs;
      ghost var h0 := hdr;
      Inside(h0, head, blks);
      hdr := hdr[b := Header(size, true, 0, 0)];
      assert hdr - {b} == h0;
      if head == 0 {
        head := b;
      } else {
        var t := Last(b);
        hdr := hdr[t := hdr[t].(next := b)];
        hdr := hdr[b := hdr[b].(prev := t)];
      }
    }

    /** grow_heap: enough whole pages as one free block behind the last one. */
    method Grow(need: nat) returns (b: nat)
      requires Sound() && need > 0 && FitsWord(pages.bump, need)
      modifies this, pages
      ensures Sound()
      ensures b == 0 <==> old(pages.bump) + PagesFor(need) * PAGE > RAM_END
      ensures b == 0 ==> blks == old(blks) && got == old(got)
      ensures b != 0 ==> b == old(pages.bump) && blks == old(blks) + [FreshBlk(b, need)] && got == old(got) + PagesFor(need)
    {
      hide Linked, Ordered, NodeOk, PagesFor, Fine, Total, Addrs, AppendHeaders, PagesFor64, FitsWord;
      var n := PagesFor64(need);
      FrontierAligned(pages);
      FreshFits(pages.bump, need);
      NoWrap(pages.bump, need);
      b := pages.AllocPages(n);
      if b == 0 { return; }
      ghost var x, s := FreshBlk(b, need), blks;
      AppendKeeps(s, x);
      AppendLinked(hdr, head, s, x);
      NotYet(s, x);
      LinkLast(b, n * PAGE - HDR);
      blks := s + [x];
      got := got + n;
    }

    /** split_block on a free block that is about to be used, and the mark that it is. */
    method Take(b: nat, size: nat, ghost i: nat)
      requires Sound() && i < |blks| && b == blks[i].addr && blks[i].free && 0 < size <= blks[i].size && size % 8 == 0
      modifies this
      ensures blks == old(blks)[..i] + Carved(old(blks)[i], size) + old(blks)[i + 1..] && got == old(got)
      ensures Linked(hdr, head, blks)
    {
      hide Ordered, NodeOk, Linked;
      ghost var s := blks;
      HeaderOf(hdr, head, s, i);
      if !(hdr[b].size < size + HDR + 8) {
        SplitLinked(hdr, head, s, i, size);
        hdr := SplitHeaders(hdr, b, size);
      } else {
        ChangeLinked(hdr, head, s, i, false);
        assert s[i := s[i].(free := false)] == s[..i] + Carved(s[i], size) + s[i + 1..];
      }
      hdr := hdr[b := hdr[b].(free := false)];
      blks := s[..i] + Carved(s[i], size) + s[i + 1..];
    }

    /** What kmalloc does to the blocks: the first fit is carved, or else fresh pages are. */
    ghost predicate Allocated(s: seq<Blk>, s': seq<Blk>, frontier: nat, size: nat, p: nat) {
      var i := FirstFit(s, size);
      if i < |s| then p == s[i].addr + HDR && s' == s[..i] + Carved(s[i], size) + s[i + 1..]
      else FreshBlk(frontier, size).size >= size && p == frontier + HDR && s' == s + Carved(FreshBlk(frontier, size), size)
    }

    /** The first free block of n bytes gives them up at its front; without such a block so many pages do. A
        header has 32 bytes. */
    lemma AllocatedIs(s: seq<Blk>, s': seq<Blk>, frontier: nat, n: nat, p: nat)
      requires Allocated(s, s', frontier, n, p)
      ensures var i := FirstFit(s, n);
        && (i < |s| ==> p == s[i].addr + 32 && s' == s[..i] + Carved(s[i], n) + s[i + 1..])
        && (i == |s| ==>
              var x := FreshBlk(frontier, n);
              p == frontier + 32 && x.addr == frontier && x.size == (n + 4127) / 4096 * 4096 - 32 && x.size >= n && s' == s + Carved(x, n))
    {
      FreshIs(frontier, n);
      hide FirstFit, Carved, FreshBlk;
    }

    /** The end of kmalloc, when no free block is large enough: a fresh block is carved. */
    method TakeFresh(size: nat) returns (p: nat)
      requires Valid() && FirstFit(blks, size) == |blks| && FitsWord(pages.bump, size) && size > 0 && size % 8 == 0
      modifies this, pages
      ensures Valid()
      ensures p == 0 <==> old(pages.bump) + PagesFor(size) * PAGE > RAM_END
      ensures p == 0 ==> blks == old(blks) && got == old(got)
      ensures p != 0 ==> Allocated(old(blks), blks, old(pages.bump), size, p)
      ensures p != 0 ==> p % 8 == 0 && p > HDR && p - HDR in hdr && hdr[p - HDR].size >= size
      ensures p != 0 ==>
        var x := Blk(p - HDR, hdr[p - HDR].size, false); x !in Live(old(blks)) && Live(blks) == Live(old(blks)) + {x}
    {
      hide Linked, Ordered, Coalesced, NodeOk, Total, Carved, PagesFor, Live, FirstFit, Within, Pages.Valid, FitsWord;
      ghost var s, i := blks, |blks|;
      FrontierAligned(pages);
      FreshFits(pages.bump, size);
      var b := Grow(size);
      if b == 0 { return 0; }
      ghost var x := FreshBlk(b, size);
      Take(b, size, i);
      Taken(s + [x], i, size, blks);
      TakenWithin(s + [x], i, size, pages.start, pages.bump);
      Appended(s, x, size);
      CarveFresh(s, x, size);
      HeaderOf(hdr, head, blks, i);
      return b + HDR;
    }

    /** kmalloc. 0 for size 0, or when neither a free block nor the frontier has the room; then nothing
        changes. Otherwise one more block is in use, aligned and large enough, and all others stay. */
    method Kmalloc(size0: nat) returns (p: nat)
      requires Valid() && FitsWord(pages.bump, Align8(size0))
      modifies this, pages
      ensures Valid()
      ensures p == 0 <==> size0 == 0 || (FirstFit(old(blks), Align8(size0)) == |old(blks)| && old(pages.bump) + PagesFor(Align8(size0)) * PAGE > RAM_END)
      ensures p == 0 ==> blks == old(blks) && got == old(got)
      ensures p != 0 ==> Allocated(old(blks), blks, old(pages.bump), Align8(size0), p)
      ensures p != 0 ==> p % 8 == 0 && p > HDR && p - HDR in hdr && hdr[p - HDR].size >= size0
      ensures p != 0 ==>
        var x := Blk(p - HDR, hdr[p - HDR].size, false); x !in Live(old(blks)) && Live(blks) == Live(old(blks)) + {x}
    {
      hide Linked, Ordered, Coalesced, NodeOk, Total, Carved, PagesFor, Live, FirstFit, Within, Pages.Valid, FitsWord;
      if size0 == 0 { return 0; }
      var size := Align8(size0);
      var b := head;
      ghost var i: nat := 0;
      ghost var s := blks;
      Inside(hdr, head, s);
      while b != 0
        invariant Valid() && blks == s && got == old(got) && pages.bump == old(pages.bump) && i <= |s| && b == AddrAt(s, i)
        invariant b == 0 <==> i == |s|
        invariant forall k :: 0 <= k < i ==> !(s[k].free && s[k].size >= size)
        decreases |s| - i
      {
        HeaderOf(hdr, head, s, i);
        if hdr[b].free && hdr[b].size >= size {
          Take(b, size, i);
          FirstFitIs(s, size, i);
          Taken(s, i, size, blks);
          TakenCoalesced(s, i, size);
          TakenWithin(s, i, size, pages.start, pages.bump);
          HeaderOf(hdr, head, blks, i);
          return b + HDR;
        }
        b := hdr[b].next;
        i := i + 1;
      }
      FirstFitIs(s, size, i);
      p := TakeFresh(size);
    }

    /** adjacent: a sits right before b in memory. */
    predicate Adjacent(a: nat, b: nat)
      requires a in hdr
      reads this
    {
      a + HDR + hdr[a].size == b
    }

    /** One merge of kfree, given that it happens: block i takes in the one behind it. */
    method Merge(b: nat, ghost i: nat)
      requires Linked(hdr, head, blks) && Ordered(blks) && i + 1 < |blks| && b == blks[i].addr
      modifies this`hdr, this`blks
      ensures blks == old(blks)[..i] + [old(blks)[i].(size := old(blks)[i].size + HDR + old(blks)[i + 1].size)] + old(blks)[i + 2..]
      ensures Linked(hdr, head, blks)
    {
      hide Linked, Ordered, NodeOk;
      ghost var h, s := hdr, blks;
      MergeLinked(h, head, s, i);
      var n := hdr[b].next;
      hdr := hdr[b := hdr[b].(size := hdr[b].size + HDR + hdr[n].size, next := hdr[n].next)];
      if hdr[n].next != 0 { hdr := hdr[hdr[n].next := hdr[hdr[n].next].(prev := b)]; }
      hdr := hdr - {n};
      blks := s[..i] + [s[i].(size := s[i].size + HDR + s[i + 1].size)] + s[i + 2..];
      assert hdr == MergeHeaders(h, b);
    }

    /** kfree's merge with the block behind b. */
    method MergeBehind(b: nat, ghost i: nat)
      requires Sound() && i < |blks| && b == blks[i].addr && blks[i].free && Coalesced(blks[i + 1..])
      modifies this`hdr, this`blks
      ensures Sound() && i < |blks| && b == blks[i].addr && blks[i].free && blks[..i] == old(blks)[..i]
      ensures Coalesced([blks[i]] + blks[i + 1..]) && Live(blks) == Live(old(blks)) && Total(blks) == Total(old(blks))
      ensures blks == JoinedBehind(old(blks), i)
    {
      hide Linked, Ordered, Coalesced, NodeOk, Total, Within, Pages.Valid, Live, AddrAt;
      ghost var s := blks;
      ghost var a, x, c := s[..i], s[i], s[i + 1..];
      Cut3(s, i);
      NextKeeps(a, x, c);
      HeaderOf(hdr, head, s, i);
      if i + 1 < |s| { HeaderOf(hdr, head, s, i + 1); assert s[i + 1] == c[0]; }
      if hdr[b].next != 0 && hdr[hdr[b].next].free && Adjacent(b, hdr[b].next) {
        Merge(b, i);
        assert blks == a + [x.(size := x.size + HDR + c[0].size)] + c[1..];
        MergedWithin(s, i, pages.start, pages.bump);
        assert blks[i + 1..] == c[1..] && blks[..i] == a;
      }
    }

    /** kfree's merge with the block in front of b. */
    method MergeInFront(b: nat, ghost i: nat)
      requires Sound() && i < |blks| && b == blks[i].addr && blks[i].free && Coalesced(blks[..i]) && Coalesced([blks[i]] + blks[i + 1..])
      modifies this`hdr, this`blks
      ensures Valid() && Live(blks) == Live(old(blks)) && Total(blks) == Total(old(blks))
      ensures blks == JoinedInFront(old(blks), i)
    {
      hide Linked, Ordered, Coalesced, NodeOk, Total, Within, Pages.Valid, Live, AddrAt;
      ghost var s := blks;
      ghost var a, w, c := s[..i], s[i], s[i + 1..];
      Cut3(s, i);
      PrevKeeps(a, w, c);
      HeaderOf(hdr, head, s, i);
      if i > 0 { HeaderOf(hdr, head, s, i - 1); FrontOf(s, i); }
      if hdr[b].prev != 0 && hdr[hdr[b].prev].free && Adjacent(hdr[b].prev, b) {
        Merge(hdr[b].prev, i - 1);
        MergedWithin(s, i - 1, pages.start, pages.bump);
      }
    }

    /** kfree of a block in use: it is free again, every other block in use stays as it is, and no two
        free blocks touch. */
    method Kfree(ptr: nat)
      requires Valid() && (ptr == 0 || (ptr >= HDR && ptr - HDR in hdr && !hdr[ptr - HDR].free))
      modifies this`hdr, this`blks
      ensures Valid()
      ensures ptr == 0 ==> blks == old(blks)
      ensures ptr != 0 ==>
        var x := Blk(ptr - HDR, old(hdr)[ptr - HDR].size, false); x in Live(old(blks)) && Live(blks) == Live(old(blks)) - {x}
      ensures Total(blks) == Total(old(blks))
      ensures ptr != 0 ==> exists i: nat :: i < |old(blks)| && old(blks)[i].addr == ptr - HDR && blks == Freed(old(blks), i)
    {
      hide Linked, Ordered, Coalesced, NodeOk, Total, Within, Pages.Valid, Live, AddrAt, JoinedBehind, JoinedInFront;
      if ptr == 0 { return; }
      var b := ptr - HDR;
      ghost var s := blks;
      ghost var i := IndexOf(hdr, head, s, b);
      Cut3(s, i);
      ChangeLinked(hdr, head, s, i, true);
      FreedKeeps(s[..i], s[i], s[i + 1..]);
      FreedWithin(s, i, pages.start, pages.bump);
      hdr := hdr[b := hdr[b].(free := true)];
      blks := s[i := s[i].(free := true)];
      assert blks[..i] == s[..i] && blks[i + 1..] == s[i + 1..];
      ghost var s1 := blks;
      MergeBehind(b, i);
      MergeInFront(b, i);
      assert blks == Freed(s, i);
    }

    /** The walk to the last block. */
    method Last(b: nat) returns (t: nat)
      requires b in hdr && Linked(hdr - {b}, head, blks) && Ordered(blks) && head != 0 && b !in Addrs(blks)
      ensures t == AddrAt(blks, |blks| - 1) && t != 0 && t in hdr && t != b
    {
      hide Linked, Ordered, NodeOk, Addrs;
      ghost var j: nat := 0;
      Inside(hdr - {b}, head, blks);
      t := head;
      HeaderOf(hdr - {b}, head, blks, j);
      while hdr[t].next != 0
        invariant j < |blks| && t == blks[j].addr && t in hdr && t != b && t != 0
        invariant hdr[t].next == AddrAt(blks, j + 1)
        decreases |blks| - j
      {
        HeaderOf(hdr - {b}, head, blks, j);
        t := hdr[t].next;
        j := j + 1;
        HeaderOf(hdr - {b}, head, blks, j);
      }
      HeaderOf(hdr - {b}, head, blks, j);
    }
  }

  lemma NotYet(s: seq<Blk>, x: Blk)
    requires Ordered(s + [x])
    ensures x.addr !in Addrs(s)
  {
    AddrsAscend(s + [x]);
    forall i | 0 <= i < |s| ensures s[i].addr != x.addr { assert (s + [x])[i].addr < (s + [x])[|s|].addr; }
  }

  lemma Cut3(s: seq<Blk>, i: nat)
    requires i < |s|
    ensures s == s[..i] + [s[i]] + s[i + 1..]
    ensures forall y :: s[i := y] == s[..i] + [y] + s[i + 1..]
  {
  }

  lemma FrontOf(s: seq<Blk>, i: nat)
    requires 0 < i < |s|
    ensures s[..i][..|s[..i]| - 1] == s[..i - 1] && s[..i][|s[..i]| - 1] == s[i - 1] && s[i - 1 + 2..] == s[i + 1..]
  {
  }

  lemma MergedWithin(s: seq<Blk>, i: nat, lo: nat, hi: nat)
    requires Within(s, lo, hi) && i + 1 < |s| && End(s[i]) == s[i + 1].addr
    ensures Within(s[..i] + [s[i].(size := s[i].size + HDR + s[i + 1].size)] + s[i + 2..], lo, hi)
  {
    var s' := s[..i] + [s[i].(size := s[i].size + HDR + s[i + 1].size)] + s[i + 2..];
    forall k | 0 <= k < |s'| ensures lo <= s'[k].addr && End(s'[k]) <= hi {
      assert k < i ==> s'[k] == s[k];
      assert k > i ==> s'[k] == s[k + 1];
    }
  }

  lemma FreedWithin(s: seq<Blk>, i: nat, lo: nat, hi: nat)
    requires Within(s, lo, hi) && i < |s|
    ensures Within(s[i := s[i].(free := true)], lo, hi)
  {
  }

  /** The place of a listed block. */
  lemma IndexOf(h: map<nat, Header>, head: nat, s: seq<Blk>, b: nat) returns (i: nat)
    requires Linked(h, head, s) && Ordered(s) && b in h
    ensures i < |s| && s[i].addr == b && s[i] == Blk(b, h[b].size, h[b].free) && (!h[b].free ==> s[i] in Live(s))
  {
    i :| 0 <= i < |s| && s[i].addr == b;
    HeaderOf(h, head, s, i);
  }

  /** A free block carved in place. */
  lemma Taken(s: seq<Blk>, i: nat, size: nat, s': seq<Blk>)
    requires Ordered(s) && i < |s| && s[i].free && 0 < size <= s[i].size && size % 8 == 0
    requires s' == s[..i] + Carved(s[i], size) + s[i + 1..]
    ensures Ordered(s') && Total(s') == Total(s) && i < |s'| && s'[i] == Blk(s[i].addr, s'[i].size, false) && s'[i].size >= size
    ensures s'[i] !in Live(s) && Live(s') == Live(s) + {s'[i]} && s'[i].addr % 8 == 0 && s'[i].addr > 0
  {
    assert s == s[..i] + [s[i]] + s[i + 1..];
    assert Fine(s[i]);
    CarveKeeps(s[..i], s[i], s[i + 1..], size);
    assert s'[i] == Carved(s[i], size)[0];
    hide Ordered, Total, Live;
  }

  lemma TakenWithin(s: seq<Blk>, i: nat, size: nat, lo: nat, hi: nat)
    requires Within(s, lo, hi) && i < |s| && size <= s[i].size
    ensures Within(s[..i] + Carved(s[i], size) + s[i + 1..], lo, hi)
  {
    var y := Carved(s[i], size);
    var s' := s[..i] + y + s[i + 1..];
    forall k | 0 <= k < |s'| ensures lo <= s'[k].addr && End(s'[k]) <= hi {
      if k < i { assert s'[k] == s[k]; }
      else if k < i + |y| { assert s'[k] == y[k - i]; }
      else { assert s'[k] == s[k - |y| + 1]; }
    }
  }

  lemma TakenCoalesced(s: seq<Blk>, i: nat, size: nat)
    requires Coalesced(s) && i < |s| && s[i].free && 0 < size <= s[i].size
    ensures Coalesced(s[..i] + Carved(s[i], size) + s[i + 1..])
  {
    assert s == s[..i] + [s[i]] + s[i + 1..];
    CarveCoalesced(s[..i], s[i], s[i + 1..], size);
  }

  lemma Appended(s: seq<Blk>, x: Blk, size: nat)
    requires size <= x.size && x.free
    ensures (s + [x])[..|s|] + Carved(x, size) + (s + [x])[|s| + 1..] == s + Carved(x, size)
    ensures Live(s + [x]) == Live(s)
  {
  }

  lemma FrontierAligned(p: Pages)
    requires p.Valid() && p.start % PAGE == 0
    ensures p.bump % PAGE == 0 && p.bump % 8 == 0 && p.bump >= PAGE
  {
    WholePages(p.start, p.bump);
  }

  lemma WholePages(start: nat, bump: nat)
    requires 0 < start <= bump && start % PAGE == 0 && (bump - start) % PAGE == 0
    ensures bump % PAGE == 0 && bump % 8 == 0 && bump >= PAGE
  {
    Multiple(start / PAGE + (bump - start) / PAGE, bump);
  }

  lemma Multiple(k: int, x: int)
    requires x == k * PAGE && x > 0
    ensures x % PAGE == 0 && x % 8 == 0 && x >= PAGE
  {
    assert x == k * 512 * 8;
  }

  lemma Inside(h: map<nat, Header>, head: nat, s: seq<Blk>)
    requires Linked(h, head, s) && Ordered(s)
    ensures h.Keys == Addrs(s) && (head == 0 <==> s == []) && (s != [] ==> head == s[0].addr) && 0 !in h
  {
    AddrsAscend(s);
  }

  // ----- what a caller relies on -----

  /** Address m lies in the header or the payload of a block. */
  ghost predicate Holds(s: seq<Blk>, m: int) {
    exists k :: 0 <= k < |s| && s[k].addr <= m < s[k].addr + 32 + s[k].size
  }

  lemma HoldsConcat(a: seq<Blk>, b: seq<Blk>, m: int)
    ensures Holds(a + b, m) <==> Holds(a, m) || Holds(b, m)
  {
    var s := a + b;
    if Holds(a, m) {
      var k :| 0 <= k < |a| && a[k].addr <= m < a[k].addr + 32 + a[k].size;
      assert s[k] == a[k];
    }
    if Holds(b, m) {
      var k :| 0 <= k < |b| && b[k].addr <= m < b[k].addr + 32 + b[k].size;
      assert s[|a| + k] == b[k];
    }
    if Holds(s, m) {
      var k :| 0 <= k < |s| && s[k].addr <= m < s[k].addr + 32 + s[k].size;
      assert k < |a| ==> a[k] == s[k];
      assert k >= |a| ==> b[k - |a|] == s[k];
    }
  }

  lemma HoldsOne(x: Blk, m: int)
    ensures Holds([x], m) <==> x.addr <= m < x.addr + 32 + x.size
  {
    assert [x][0] == x;
  }

  /** Splitting a block gives no memory away and takes none. */
  lemma CarvedHolds(a: seq<Blk>, x: Blk, c: seq<Blk>, size: nat, m: int)
    requires size <= x.size
    ensures Holds(a + Carved(x, size) + c, m) <==> Holds(a + [x] + c, m)
  {
    var y := Carved(x, size);
    HoldsConcat(a + y, c, m);
    HoldsConcat(a, y, m);
    HoldsConcat(a + [x], c, m);
    HoldsConcat(a, [x], m);
    HoldsOne(x, m);
    HoldsOne(y[0], m);
    if |y| == 2 {
      HoldsOne(y[1], m);
      HoldsConcat([y[0]], [y[1]], m);
      assert y == [y[0]] + [y[1]];
    } else {
      assert y == [y[0]];
    }
    hide Holds;
  }

  lemma JoinedHolds(a: seq<Blk>, x: Blk, y: Blk, c: seq<Blk>, m: int)
    requires Mergeable(x, y)
    ensures Holds(a + [x.(size := x.size + HDR + y.size)] + c, m) <==> Holds(a + [x] + [y] + c, m)
  {
    var z := x.(size := x.size + HDR + y.size);
    HoldsConcat(a + [x] + [y], c, m);
    HoldsConcat(a + [x], [y], m);
    HoldsConcat(a, [x], m);
    HoldsConcat(a + [z], c, m);
    HoldsConcat(a, [z], m);
    HoldsOne(x, m);
    HoldsOne(y, m);
    HoldsOne(z, m);
    hide Holds;
  }

  /** Neither do a release and its merges. */
  lemma FreedHolds(s: seq<Blk>, i: nat, m: int)
    requires i < |s|
    ensures Holds(Freed(s, i), m) <==> Holds(s, m)
  {
    hide Holds, Mergeable;
    var s0 := s[i := s[i].(free := true)];
    Cut3(s, i);
    MarkHolds(s[..i], s[i], s[i + 1..], m);
    var s1 := JoinedBehind(s0, i);
    if i + 1 < |s0| && Mergeable(s0[i], s0[i + 1]) {
      JoinedHolds(s0[..i], s0[i], s0[i + 1], s0[i + 2..], m);
      assert s0 == s0[..i] + [s0[i]] + [s0[i + 1]] + s0[i + 2..];
    }
    if i > 0 && Mergeable(s1[i - 1], s1[i]) {
      JoinedHolds(s1[..i - 1], s1[i - 1], s1[i], s1[i + 1..], m);
      assert s1 == s1[..i - 1] + [s1[i - 1]] + [s1[i]] + s1[i + 1..];
    }
  }

  lemma MarkHolds(a: seq<Blk>, x: Blk, c: seq<Blk>, m: int)
    ensures Holds(a + [x.(free := true)] + c, m) <==> Holds(a + [x] + c, m)
  {
    var y := x.(free := true);
    HoldsConcat(a + [y], c, m);
    HoldsConcat(a, [y], m);
    HoldsConcat(a + [x], c, m);
    HoldsConcat(a, [x], m);
    HoldsOne(x, m);
    HoldsOne(y, m);
    hide Holds;
  }

  /** The block freed is free afterwards, in one piece with each free neighbour that touches it. */
  lemma FreedIs(s: seq<Blk>, i: nat)
    requires i < |s| && !s[i].free
    ensures var behind, front := i + 1 < |s| && s[i + 1].free && s[i].addr + 32 + s[i].size == s[i + 1].addr,
                                 i > 0 && s[i - 1].free && s[i - 1].addr + 32 + s[i - 1].size == s[i].addr;
      var x := Blk(s[i].addr, s[i].size + (if behind then 32 + s[i + 1].size else 0), true);
      var c := if behind then s[i + 2..] else s[i + 1..];
      Freed(s, i) == if front then s[..i - 1] + [Blk(s[i - 1].addr, s[i - 1].size + 32 + x.size, true)] + c else s[..i] + [x] + c
  {
    var s0 := s[i := s[i].(free := true)];
    var s1 := JoinedBehind(s0, i);
    assert s0 == s[..i] + [s0[i]] + s[i + 1..];
    if i + 1 < |s0| && Mergeable(s0[i], s0[i + 1]) { assert s0[..i] == s[..i] && s0[i + 2..] == s[i + 2..]; }
    assert s1[..i] == s[..i];
    if i > 0 { assert s1[..i - 1] == s[..i - 1] && s1[i - 1] == s[i - 1]; }
  }

  /** Requests are rounded up to eight bytes, and whole pages taken for them and a header. */
  lemma Roundings(n: nat)
    ensures Align8(n) % 8 == 0 && n <= Align8(n) < n + 8
    ensures (PagesFor(n) - 1) * 4096 < n + 32 <= PagesFor(n) * 4096
  {
  }

  /** Bytes of a header, and of a payload. */
  predicate InHeader(x: Blk, m: int) { x.addr <= m < x.addr + HDR }
  predicate InPayload(x: Blk, m: int) { x.addr + HDR <= m < End(x) }

  /** A byte of a live payload lies in no header and in no other block's payload. */
  lemma PayloadsApart(s: seq<Blk>, x: Blk, y: Blk, m: int)
    requires Ordered(s) && x in Live(s) && y in s && InPayload(x, m)
    ensures !InHeader(y, m) && (y != x ==> !InPayload(y, m))
  {
    var i :| 0 <= i < |s| && s[i] == x;
    var j :| 0 <= j < |s| && s[j] == y;
    if i < j { assert Before(s[i], s[j]); } else if j < i { assert Before(s[j], s[i]); }
  }

  /** Once everything is freed, memory that is contiguous is one block: no two blocks touch. */
  lemma FullyCoalesced(s: seq<Blk>, i: nat)
    requires Ordered(s) && Coalesced(s) && Live(s) == {} && 0 < i < |s|
    ensures End(s[i - 1]) < s[i].addr
  {
    assert Apart(s, i) && Before(s[i - 1], s[i]);
    assert s[i - 1] !in Live(s) && s[i] !in Live(s);
  }
}
