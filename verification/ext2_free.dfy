/** free_inode_blocks: every block the inode reached is given back, exactly once. */
module Ext2Free {
  import opened Bytes
  import opened Ext2Tree
  import opened Ext2Alloc
  import opened Ext2Map

  // ----- the superblock count counts free blocks -----

  ghost function FreeSet(g: Geo, d: Disk): set<nat>
    requires GeoOk(g) && |d| == g.blocks
  {
    set x | g.first <= x < g.blocks && !Marked(g, d, x)
  }

  /** Unmarked positions below bit n of group k. */
  ghost function FreeBelow(g: Geo, d: Disk, limit: nat): set<nat>
    requires GeoOk(g) && |d| == g.blocks && limit <= g.first + Base(g.ngroups, g.bpg)
  {
    set x | g.first <= x < limit && !Marked(g, d, x)
  }

  lemma {:induction false} ClearCounts(g: Geo, d: Disk, k: nat, n: nat)
    requires GeoOk(g) && |d| == g.blocks && k < g.ngroups && n <= g.bpg
    requires g.first + Base(k, g.bpg) + n <= g.first + Base(g.ngroups, g.bpg)
    ensures |FreeBelow(g, d, g.first + Base(k, g.bpg) + n)|
         == |FreeBelow(g, d, g.first + Base(k, g.bpg))| + Clear(d[g.bitmap[k]], n)
  {
    if n > 0 {
      ClearCounts(g, d, k, n - 1);
      var x := Number(g, k, n - 1);
      NumberInGroups(g, k, n - 1);
      assert Marked(g, d, x) == BitAt(d[g.bitmap[k]], n - 1);
      FreeBelowStep(g, d, x);
    }
  }

  lemma FreeBelowStep(g: Geo, d: Disk, x: nat)
    requires GeoOk(g) && |d| == g.blocks && InGroups(g, x)
    ensures |FreeBelow(g, d, x + 1)| == |FreeBelow(g, d, x)| + if Marked(g, d, x) then 0 else 1
  {
    var a, b := FreeBelow(g, d, x), FreeBelow(g, d, x + 1);
    assert b == if Marked(g, d, x) then a else a + {x};
  }

  lemma {:induction false} SumCounts(g: Geo, d: Disk, gfree: seq<nat>, k: nat)
    requires GeoOk(g) && |d| == g.blocks && GroupCounts(g, d, gfree) && k <= g.ngroups
    ensures Base(k, g.bpg) <= Base(g.ngroups, g.bpg)
    ensures |FreeBelow(g, d, g.first + Base(k, g.bpg))| == Sum(gfree[..k])
  {
    BaseStep(k, g.ngroups, g.bpg);
    if k == 0 {
      assert FreeBelow(g, d, g.first) == {};
    } else {
      BaseStep(k - 1, g.ngroups, g.bpg);
      SumCounts(g, d, gfree, k - 1);
      ClearCounts(g, d, k - 1, g.bpg);
      SumSnoc(gfree, k);
    }
  }

  lemma {:induction false} SumSnoc(s: seq<nat>, k: nat)
    requires 0 < k <= |s|
    ensures Sum(s[..k]) == Sum(s[..k - 1]) + s[k - 1]
  {
    if k > 1 {
      SumSnoc(s[1..], k - 1);
      assert s[..k][1..] == s[1..][..k - 1] && s[..k - 1][1..] == s[1..][..k - 2];
    } else {
      assert s[..1] == [s[0]];
    }
  }

  /** The cached superblock count is the number of blocks no bitmap marks. */
  lemma FreeCount(g: Geo, d: Disk, gfree: seq<nat>, sfree: nat)
    requires CountsOk(g, d, gfree, sfree)
    ensures sfree == |FreeSet(g, d)|
  {
    SumCounts(g, d, gfree, g.ngroups);
    assert gfree[..g.ngroups] == gfree;
    var all := FreeBelow(g, d, g.first + Base(g.ngroups, g.bpg));
    forall x | x in all
      ensures x in FreeSet(g, d)
    {
      assert InGroups(g, x);
    }
    assert all == FreeSet(g, d);
  }

  // ----- the blocks below a pointer -----

  /** The blocks reached from block x with lev levels of pointers below it. */
  ghost function Under(d: Disk, x: nat, lev: nat): set<nat>
    decreases lev, PTRS + 1, |d|
  {
    if x == 0 then {} else if lev == 0 || x >= |d| then {x} else {x} + Part(d, x, lev, PTRS)
  }

  /** ... through the first n entries of pointer block x. */
  ghost function Part(d: Disk, x: nat, lev: nat, n: nat): set<nat>
    requires 0 < x < |d| && lev > 0 && n <= PTRS
    decreases lev, n, |d|
  {
    if n == 0 then {} else Part(d, x, lev, n - 1) + Under(d, Entry(d[x], n - 1), lev - 1)
  }

  /** ... through the first n slots of an inode. */
  ghost function Slots(d: Disk, ptr: Ptrs, n: nat): set<nat>
    requires n <= NSLOTS
    decreases n, |d|
  {
    if n == 0 then {} else Slots(d, ptr, n - 1) + Under(d, ptr[n - 1], Levels(n - 1))
  }

  lemma {:induction false} PartHas(d: Disk, x: nat, lev: nat, n: nat, k: nat)
    requires 0 < x < |d| && lev > 0 && k < n <= PTRS
    ensures Under(d, Entry(d[x], k), lev - 1) <= Part(d, x, lev, n)
  {
    if k < n - 1 { PartHas(d, x, lev, n - 1, k); }
  }

  lemma {:induction false} SlotsHas(d: Disk, ptr: Ptrs, n: nat, k: nat)
    requires k < n <= NSLOTS
    ensures Under(d, ptr[k], Levels(k)) <= Slots(d, ptr, n)
  {
    if k < n - 1 { SlotsHas(d, ptr, n - 1, k); }
  }

  /** What lies under a slot lies under its root. */
  lemma {:induction false} UnderRoot(d: Disk, ptr: Ptrs, p: Path)
    requires Valid(p)
    ensures Under(d, At(d, ptr, p), Levels(Slot(p)) - Depth(p)) <= Slots(d, ptr, NSLOTS)
  {
    match p
    case Root(s) => SlotsHas(d, ptr, NSLOTS, s);
    case Child(q, i) =>
      UnderRoot(d, ptr, q);
      var x := At(d, ptr, q);
      if 0 < x < |d| {
        PartHas(d, x, Levels(Slot(q)) - Depth(q), PTRS, i);
      }
  }

  ghost predicate InRange(d: Disk, ptr: Ptrs) {
    forall p :: Valid(p) ==> At(d, ptr, p) == 0 || 0 < At(d, ptr, p) < |d|
  }

  /** q is p or lies below it. */
  predicate Below(p: Path, q: Path) {
    q == p || (q.Child? && Below(p, q.parent))
  }

  lemma {:induction false} BelowDeeper(p: Path, q: Path)
    requires Below(p, q)
    ensures Depth(q) >= Depth(p)
  {
    if q != p { BelowDeeper(p, q.parent); }
  }

  lemma {:induction false} BelowUnique(a: Path, b: Path, q: Path)
    requires Below(a, q) && Below(b, q) && Depth(a) == Depth(b)
    ensures a == b
  {
    if q == a { if q != b { BelowDeeper(b, q.parent); } }
    else if q == b { BelowDeeper(a, q.parent); }
    else { BelowUnique(a, b, q.parent); }
  }

  lemma {:induction false} BelowChild(p: Path, i: nat, q: Path)
    requires Below(Child(p, i), q)
    ensures Below(p, q)
  {
    if q != Child(p, i) { BelowChild(p, i, q.parent); }
  }

  /** Every block under a slot hangs from a slot at or below it. */
  lemma {:induction false} UnderPath(d: Disk, ptr: Ptrs, p: Path, y: nat) returns (q: Path)
    requires InRange(d, ptr)
    requires Valid(p) && y in Under(d, At(d, ptr, p), Levels(Slot(p)) - Depth(p))
    ensures Valid(q) && Below(p, q) && At(d, ptr, q) == y != 0
    decreases Levels(Slot(p)) - Depth(p), PTRS + 1
  {
    q := p;
    if y != At(d, ptr, p) {
      var i;
      q, i := PartPath(d, ptr, p, PTRS, y);
      BelowChild(p, i, q);
    }
  }

  lemma {:induction false} PartPath(d: Disk, ptr: Ptrs, p: Path, n: nat, y: nat) returns (q: Path, i: nat)
    requires InRange(d, ptr)
    requires Valid(p) && Depth(p) < Levels(Slot(p)) && 0 < At(d, ptr, p) < |d| && n <= PTRS
    requires y in Part(d, At(d, ptr, p), Levels(Slot(p)) - Depth(p), n)
    ensures i < n && Valid(Child(p, i)) && Valid(q) && Below(Child(p, i), q) && At(d, ptr, q) == y != 0
    decreases Levels(Slot(p)) - Depth(p), n
  {
    if y in Part(d, At(d, ptr, p), Levels(Slot(p)) - Depth(p), n - 1) {
      q, i := PartPath(d, ptr, p, n - 1, y);
    } else {
      i := n - 1;
      q := UnderPath(d, ptr, Child(p, n - 1), y);
    }
  }

  lemma {:induction false} SlotsPath(d: Disk, ptr: Ptrs, n: nat, y: nat) returns (q: Path, i: nat)
    requires InRange(d, ptr) && n <= NSLOTS && y in Slots(d, ptr, n)
    ensures i < n && Valid(q) && Below(Root(i), q) && At(d, ptr, q) == y != 0
  {
    if y in Slots(d, ptr, n - 1) {
      q, i := SlotsPath(d, ptr, n - 1, y);
    } else {
      i := n - 1;
      q := UnderPath(d, ptr, Root(n - 1), y);
    }
  }

  lemma SlotsOwned(d: Disk, ptr: Ptrs, n: nat, y: nat)
    requires InRange(d, ptr) && n <= NSLOTS && y in Slots(d, ptr, n)
    ensures y in Owned(d, ptr)
  {
    var q, i := SlotsPath(d, ptr, n, y);
    assert Owns(d, ptr, y);
  }

  /** The recursive walk of free_inode_blocks covers exactly the blocks the inode reaches. */
  lemma OwnedIsSlots(d: Disk, ptr: Ptrs)
    requires InRange(d, ptr)
    ensures Owned(d, ptr) == Slots(d, ptr, NSLOTS)
  {
    forall y | y in Slots(d, ptr, NSLOTS)
      ensures y in Owned(d, ptr)
    {
      SlotsOwned(d, ptr, NSLOTS, y);
    }
    forall y | y in Owned(d, ptr)
      ensures y in Slots(d, ptr, NSLOTS)
    {
      var p :| Valid(p) && At(d, ptr, p) == y;
      UnderRoot(d, ptr, p);
    }
  }

  // ----- the walk of free_inode_blocks, on whatever the pointers say -----

  /** The block numbers handed to free_block for the tree at x, in order: below each entry, then x. */
  ghost function Calls(d: Disk, x: nat, lev: nat): seq<nat>
    decreases lev, PTRS + 1, |d|
  {
    if x == 0 then [] else if lev == 0 then [x] else PartCalls(d, x, lev, PTRS) + [x]
  }

  /** ... below the first n entries of x; a block past the end of the disk has none. */
  ghost function PartCalls(d: Disk, x: nat, lev: nat, n: nat): seq<nat>
    requires lev > 0 && n <= PTRS
    decreases lev, n, |d|
  {
    if n == 0 then [] else PartCalls(d, x, lev, n - 1) + Calls(d, EntryOf(d, x, n - 1), lev - 1)
  }

  ghost function SlotCalls(d: Disk, ptr: Ptrs, n: nat): seq<nat>
    requires n <= NSLOTS
    decreases n, |d|
  {
    if n == 0 then [] else SlotCalls(d, ptr, n - 1) + Calls(d, ptr[n - 1], Levels(n - 1))
  }

  function EntryOf(d: Disk, x: nat, i: nat): nat
    requires i < PTRS
  {
    if x < |d| then Entry(d[x], i) else 0
  }

  /** The disk and the cached counts. */
  datatype State = State(d: Disk, gfree: seq<nat>, sfree: nat)

  ghost function Now(fs: Ext2): State
    reads fs
  {
    State(fs.disk, fs.gfree, fs.sfree)
  }

  ghost predicate Tallied(fs: Ext2)
    reads fs
  {
    Tally(fs.geo, fs.disk, fs.gfree, fs.sfree)
  }

  /** d' is d with the marks of the handed numbers taken away, where they had one. */
  ghost predicate Handed(g: Geo, d: Disk, d': Disk, calls: seq<nat>)
    requires GeoOk(g) && |d| == g.blocks
  {
    && |d'| == |d|
    && (forall y :: 0 <= y < |d| && y !in g.bitmap ==> d'[y] == d[y])
    && forall y: nat :: IsMarked(g, d', y) <==> IsMarked(g, d, y) && y !in calls
  }

  /** None of the numbers has a mark to lose. */
  ghost predicate Idle(g: Geo, d: Disk, calls: seq<nat>)
    requires GeoOk(g) && |d| == g.blocks
  {
    forall y :: y in calls ==> !IsMarked(g, d, y)
  }

  /** None of the numbers is a bitmap block. */
  ghost predicate Quiet(g: Geo, list: seq<nat>) {
    forall y :: y in list ==> y !in g.bitmap
  }

  /** A walk from s to s' handed over calls. They are those of list, read off the disk beforehand, if
      no handed number had a mark, for then nothing was written at all, or if the walk is known not to
      read what it writes. */
  ghost predicate Walked(g: Geo, s: State, s': State, calls: seq<nat>, list: seq<nat>, quiet: bool) {
    && Tally(g, s.d, s.gfree, s.sfree) && Tally(g, s'.d, s'.gfree, s'.sfree) && Handed(g, s.d, s'.d, calls)
    && (Idle(g, s.d, calls) ==> s' == s && calls == list)
    && (quiet ==> calls == list)
  }

  lemma OneCall(g: Geo, s: State, s': State, b: nat)
    requires Tally(g, s.d, s.gfree, s.sfree) && Tally(g, s'.d, s'.gfree, s'.sfree) && Dropped(g, s.d, s'.d, b)
    requires !IsMarked(g, s.d, b) ==> s' == s
    ensures Walked(g, s, s', [b], [b], true) && (b != 0 ==> Calls(s.d, b, 0) == [b])
  {
    hide IsMarked, Tally;
    assert b in [b];
  }

  /** Two walks are one. */
  lemma WalkTwice(g: Geo, s: State, s1: State, s2: State, c1: seq<nat>, l1: seq<nat>, c2: seq<nat>, l2': seq<nat>, l2: seq<nat>,
                  quiet: bool, quiet2: bool)
    requires Walked(g, s, s1, c1, l1, quiet) && Walked(g, s1, s2, c2, l2', quiet2)
    requires Idle(g, s.d, c1) ==> l2' == l2
    requires quiet ==> quiet2 && l2' == l2
    ensures Walked(g, s, s2, c1 + c2, l1 + l2, quiet)
  {
    hide IsMarked, GroupCounts;
    assert Idle(g, s.d, c1 + c2) ==> Idle(g, s.d, c1) by {
      assert forall y :: y in c1 ==> y in c1 + c2;
    }
    assert Idle(g, s.d, c1 + c2) ==> Idle(g, s.d, c2) by {
      assert forall y :: y in c2 ==> y in c1 + c2;
    }
  }

  /** What a walk reads is what the disk held, if it reads no bitmap block. */
  lemma {:induction false} CallsFrame(g: Geo, d: Disk, d': Disk, x: nat, lev: nat)
    requires |d'| == |d| && (forall y :: 0 <= y < |d| && y !in g.bitmap ==> d'[y] == d[y]) && Quiet(g, Calls(d, x, lev))
    ensures Calls(d', x, lev) == Calls(d, x, lev)
    decreases lev, PTRS + 1
  {
    if x != 0 && lev > 0 {
      assert x in Calls(d, x, lev);
      assert forall y :: y in PartCalls(d, x, lev, PTRS) ==> y in Calls(d, x, lev);
      PartFrame(g, d, d', x, lev, PTRS);
    }
  }

  lemma {:induction false} PartFrame(g: Geo, d: Disk, d': Disk, x: nat, lev: nat, n: nat)
    requires |d'| == |d| && (forall y :: 0 <= y < |d| && y !in g.bitmap ==> d'[y] == d[y])
    requires lev > 0 && n <= PTRS && x !in g.bitmap && Quiet(g, PartCalls(d, x, lev, n))
    ensures PartCalls(d', x, lev, n) == PartCalls(d, x, lev, n)
    decreases lev, n
  {
    if n > 0 {
      var c := EntryOf(d, x, n - 1);
      assert EntryOf(d', x, n - 1) == c;
      var a, b := PartCalls(d, x, lev, n - 1), Calls(d, c, lev - 1);
      assert PartCalls(d, x, lev, n) == a + b;
      QuietParts(g, a, b);
      PartFrame(g, d, d', x, lev, n - 1);
      CallsFrame(g, d, d', c, lev - 1);
    }
  }

  lemma QuietParts(g: Geo, a: seq<nat>, b: seq<nat>)
    ensures Quiet(g, a + b) <==> Quiet(g, a) && Quiet(g, b)
  {
    forall y | y in a || y in b ensures y in a + b {}
  }

  lemma {:induction false} PartIn(d: Disk, x: nat, lev: nat, n: nat, k: nat)
    requires lev > 0 && k < n <= PTRS
    ensures forall y :: y in Calls(d, EntryOf(d, x, k), lev - 1) ==> y in PartCalls(d, x, lev, n)
  {
    if k < n - 1 { PartIn(d, x, lev, n - 1, k); }
  }

  lemma WalkStart(g: Geo, s: State, x: nat, lev: nat, quiet: bool)
    requires Tally(g, s.d, s.gfree, s.sfree) && lev > 0
    ensures Walked(g, s, s, [], PartCalls(s.d, x, lev, 0), quiet)
  {
  }

  /** What entry i holds at this point of the walk, against what it held before. */
  lemma EntryNow(g: Geo, s: State, s1: State, calls: seq<nat>, x: nat, lev: nat, i: nat, quiet: bool)
    requires lev > 0 && i < PTRS && Walked(g, s, s1, calls, PartCalls(s.d, x, lev, i), quiet) && x != 0
    requires quiet ==> Quiet(g, Calls(s.d, x, lev))
    ensures var c, c' := EntryOf(s.d, x, i), EntryOf(s1.d, x, i);
      && (Idle(g, s.d, calls) ==> s1 == s)
      && (quiet ==> c' == c && Quiet(g, Calls(s.d, c, lev - 1)) && Calls(s1.d, c', lev - 1) == Calls(s.d, c, lev - 1))
    ensures EntryOf(s1.d, x, i) == 0 ==> Walked(g, s, s1, calls, PartCalls(s.d, x, lev, i + 1), quiet)
  {
    hide IsMarked, Tally, Quiet, Calls;
    if quiet { QuietEntry(g, s.d, s1.d, x, lev, i); }
    assert Calls(s1.d, 0, lev - 1) == Calls(s.d, 0, lev - 1) == [] by { NoCalls(s.d, s1.d, lev - 1); }
    assert PartCalls(s.d, x, lev, i) + [] == PartCalls(s.d, x, lev, i);
  }

  lemma NoCalls(d: Disk, d': Disk, lev: nat)
    ensures Calls(d, 0, lev) == [] == Calls(d', 0, lev)
  {
  }

  lemma QuietEntry(g: Geo, d: Disk, d': Disk, x: nat, lev: nat, i: nat)
    requires |d'| == |d| && (forall y :: 0 <= y < |d| && y !in g.bitmap ==> d'[y] == d[y])
    requires lev > 0 && i < PTRS && x != 0 && Quiet(g, Calls(d, x, lev))
    ensures var c := EntryOf(d, x, i);
      EntryOf(d', x, i) == c && Quiet(g, Calls(d, c, lev - 1)) && Calls(d', c, lev - 1) == Calls(d, c, lev - 1)
  {
    var c, root := EntryOf(d, x, i), PartCalls(d, x, lev, PTRS);
    PartIn(d, x, lev, PTRS, i);
    QuietParts(g, root, [x]);
    assert x in [x];
    CallsFrame(g, d, d', c, lev - 1);
  }

  lemma WalkMore(g: Geo, s: State, s1: State, s2: State, calls: seq<nat>, x: nat, lev: nat, i: nat, x0: seq<nat>, quiet: bool)
    requires lev > 0 && i < PTRS && Walked(g, s, s1, calls, PartCalls(s.d, x, lev, i), quiet) && x != 0
    requires quiet ==> Quiet(g, Calls(s.d, x, lev))
    requires var list := Calls(s1.d, EntryOf(s1.d, x, i), lev - 1); Walked(g, s1, s2, x0, list, Quiet(g, list)) || Walked(g, s1, s2, x0, list, true)
    ensures Walked(g, s, s2, calls + x0, PartCalls(s.d, x, lev, i + 1), quiet)
  {
    hide IsMarked, Tally, Walked, Calls, Quiet;
    EntryNow(g, s, s1, calls, x, lev, i, quiet);
    var l2', l2 := Calls(s1.d, EntryOf(s1.d, x, i), lev - 1), Calls(s.d, EntryOf(s.d, x, i), lev - 1);
    var q2 := if Walked(g, s1, s2, x0, l2', true) then true else Quiet(g, l2');
    WalkTwice(g, s, s1, s2, calls, PartCalls(s.d, x, lev, i), x0, l2', l2, quiet, q2);
  }

  lemma WalkRoot(g: Geo, s: State, s1: State, s2: State, calls: seq<nat>, x: nat, lev: nat, quiet: bool)
    requires lev > 0 && x != 0 && Walked(g, s, s1, calls, PartCalls(s.d, x, lev, PTRS), quiet) && Walked(g, s1, s2, [x], [x], true)
    ensures Walked(g, s, s2, calls + [x], Calls(s.d, x, lev), quiet)
  {
    hide Walked;
    WalkTwice(g, s, s1, s2, calls, PartCalls(s.d, x, lev, PTRS), [x], [x], [x], quiet, true);
  }

  /** ptr_get: an entry of a pointer block; a block past the end of the disk cannot be read. */
  method PtrGet(fs: Ext2, blk: nat, i: nat) returns (r: nat)
    requires i < PTRS
    ensures r == EntryOf(fs.disk, blk, i)
  {
    if blk >= |fs.disk| { return 0; }
    return Entry(fs.disk[blk], i);
  }

  /** Data blocks of one pointer block, then the pointer block. */
  method FreeIndirect(fs: Ext2, ind: nat) returns (ghost calls: seq<nat>)
    requires Tallied(fs) && ind != 0
    modifies fs`disk, fs`gfree, fs`sfree, fs`log
    ensures Tallied(fs) && fs.log == old(fs.log) + calls
    ensures var list := Calls(old(fs.disk), ind, 1); Walked(fs.geo, old(Now(fs)), Now(fs), calls, list, Quiet(fs.geo, list))
  {
    hide Walked, Calls, PartCalls, Quiet;
    ghost var s0 := Now(fs);
    ghost var quiet := Quiet(fs.geo, Calls(s0.d, ind, 1));
    WalkStart(fs.geo, s0, ind, 1, quiet);
    calls := [];
    for i := 0 to PTRS
      invariant Tallied(fs) && fs.log == old(fs.log) + calls
      invariant Walked(fs.geo, s0, Now(fs), calls, PartCalls(s0.d, ind, 1, i), quiet)
    {
      var x := PtrGet(fs, ind, i);
      EntryNow(fs.geo, s0, Now(fs), calls, ind, 1, i, quiet);
      if x == 0 { continue; }
      ghost var mid, x0 := Now(fs), [];
      x0 := [x];
      fs.FreeBlock(x);
      OneCall(fs.geo, mid, Now(fs), x);
      WalkMore(fs.geo, s0, mid, Now(fs), calls, ind, 1, i, x0, quiet);
      calls := calls + x0;
    }
    ghost var mid := Now(fs);
    fs.FreeBlock(ind);
    OneCall(fs.geo, mid, Now(fs), ind);
    WalkRoot(fs.geo, s0, mid, Now(fs), calls, ind, 1, quiet);
    calls := calls + [ind];
  }

  /** Each single indirect tree of a double one, then its root. */
  method FreeDouble(fs: Ext2, dind: nat) returns (ghost calls: seq<nat>)
    requires Tallied(fs) && dind != 0
    modifies fs`disk, fs`gfree, fs`sfree, fs`log
    ensures Tallied(fs) && fs.log == old(fs.log) + calls
    ensures var list := Calls(old(fs.disk), dind, 2); Walked(fs.geo, old(Now(fs)), Now(fs), calls, list, Quiet(fs.geo, list))
  {
    hide Walked, Calls, PartCalls, Quiet;
    ghost var s0 := Now(fs);
    ghost var quiet := Quiet(fs.geo, Calls(s0.d, dind, 2));
    WalkStart(fs.geo, s0, dind, 2, quiet);
    calls := [];
    for i := 0 to PTRS
      invariant Tallied(fs) && fs.log == old(fs.log) + calls
      invariant Walked(fs.geo, s0, Now(fs), calls, PartCalls(s0.d, dind, 2, i), quiet)
    {
      var x := PtrGet(fs, dind, i);
      EntryNow(fs.geo, s0, Now(fs), calls, dind, 2, i, quiet);
      if x == 0 { continue; }
      ghost var mid, x0 := Now(fs), [];
      x0 := FreeIndirect(fs, x);
      WalkMore(fs.geo, s0, mid, Now(fs), calls, dind, 2, i, x0, quiet);
      calls := calls + x0;
    }
    ghost var mid := Now(fs);
    fs.FreeBlock(dind);
    OneCall(fs.geo, mid, Now(fs), dind);
    WalkRoot(fs.geo, s0, mid, Now(fs), calls, dind, 2, quiet);
    calls := calls + [dind];
  }

  /** Each double indirect tree of a triple one, then its root. */
  method FreeTriple(fs: Ext2, tind: nat) returns (ghost calls: seq<nat>)
    requires Tallied(fs) && tind != 0
    modifies fs`disk, fs`gfree, fs`sfree, fs`log
    ensures Tallied(fs) && fs.log == old(fs.log) + calls
    ensures var list := Calls(old(fs.disk), tind, 3); Walked(fs.geo, old(Now(fs)), Now(fs), calls, list, Quiet(fs.geo, list))
  {
    hide Walked, Calls, PartCalls, Quiet;
    ghost var s0 := Now(fs);
    ghost var quiet := Quiet(fs.geo, Calls(s0.d, tind, 3));
    WalkStart(fs.geo, s0, tind, 3, quiet);
    calls := [];
    for i := 0 to PTRS
      invariant Tallied(fs) && fs.log == old(fs.log) + calls
      invariant Walked(fs.geo, s0, Now(fs), calls, PartCalls(s0.d, tind, 3, i), quiet)
    {
      var x := PtrGet(fs, tind, i);
      EntryNow(fs.geo, s0, Now(fs), calls, tind, 3, i, quiet);
      if x == 0 { continue; }
      ghost var mid, x0 := Now(fs), [];
      x0 := FreeDouble(fs, x);
      WalkMore(fs.geo, s0, mid, Now(fs), calls, tind, 3, i, x0, quiet);
      calls := calls + x0;
    }
    ghost var mid := Now(fs);
    fs.FreeBlock(tind);
    OneCall(fs.geo, mid, Now(fs), tind);
    WalkRoot(fs.geo, s0, mid, Now(fs), calls, tind, 3, quiet);
    calls := calls + [tind];
  }

  predicate Empty(ptr: Ptrs) {
    forall k :: 0 <= k < NSLOTS ==> ptr[k] == 0
  }

  /** The direct slots of free_inode_blocks. */
  method FreeDirect(fs: Ext2, ptr0: Ptrs) returns (ptr: Ptrs, ghost calls: seq<nat>)
    requires Tallied(fs)
    modifies fs`disk, fs`gfree, fs`sfree, fs`log
    ensures Tallied(fs) && fs.log == old(fs.log) + calls
    ensures Walked(fs.geo, old(Now(fs)), Now(fs), calls, SlotCalls(old(fs.disk), ptr0, NDIR), Quiet(fs.geo, SlotCalls(old(fs.disk), ptr0, NSLOTS)))
    ensures forall k :: 0 <= k < NSLOTS ==> ptr[k] == if k < NDIR then 0 else ptr0[k]
  {
    hide Walked, SlotCalls, Calls, Quiet, Tally;
    ghost var s0 := Now(fs);
    ghost var quiet := Quiet(fs.geo, SlotCalls(s0.d, ptr0, NSLOTS));
    SlotsStart(fs.geo, s0, ptr0, quiet);
    calls := [];
    ptr := ptr0;
    for i := 0 to NDIR
      invariant Tallied(fs) && fs.log == old(fs.log) + calls
      invariant Walked(fs.geo, s0, Now(fs), calls, SlotCalls(s0.d, ptr0, i), quiet)
      invariant forall k :: 0 <= k < NSLOTS ==> ptr[k] == if k < i then 0 else ptr0[k]
    {
      SlotNow(fs.geo, s0, Now(fs), calls, ptr0, i, quiet);
      if ptr[i] != 0 {
        ghost var mid := Now(fs);
        fs.FreeBlock(ptr[i]);
        OneCall(fs.geo, mid, Now(fs), ptr[i]);
        SlotMore(fs.geo, s0, mid, Now(fs), calls, ptr0, i, [ptr[i]], quiet);
        calls := calls + [ptr[i]];
        ptr := ptr[i := 0];
      }
    }
  }

  /** All slots: the direct ones, then the three trees. */
  method FreeSlots(fs: Ext2, ptr0: Ptrs) returns (ptr: Ptrs, ghost calls: seq<nat>)
    requires Tallied(fs)
    modifies fs`disk, fs`gfree, fs`sfree, fs`log
    ensures Tallied(fs) && fs.log == old(fs.log) + calls && Empty(ptr)
    ensures var list := SlotCalls(old(fs.disk), ptr0, NSLOTS); Walked(fs.geo, old(Now(fs)), Now(fs), calls, list, Quiet(fs.geo, list))
  {
    hide Walked, SlotCalls, Calls, Quiet, Tally;
    ghost var s0, log0 := Now(fs), fs.log;
    ghost var quiet := Quiet(fs.geo, SlotCalls(s0.d, ptr0, NSLOTS));
    ptr, calls := FreeDirect(fs, ptr0);
    SlotNow(fs.geo, s0, Now(fs), calls, ptr0, IND, quiet);
    if ptr[IND] != 0 {
      ghost var mid := Now(fs);
      ghost var c := FreeIndirect(fs, ptr[IND]);
      SlotMore(fs.geo, s0, mid, Now(fs), calls, ptr0, IND, c, quiet);
      assert log0 + calls + c == log0 + (calls + c);
      calls := calls + c;
      ptr := ptr[IND := 0];
    }
    SlotNow(fs.geo, s0, Now(fs), calls, ptr0, DIND, quiet);
    if ptr[DIND] != 0 {
      ghost var mid := Now(fs);
      ghost var c := FreeDouble(fs, ptr[DIND]);
      SlotMore(fs.geo, s0, mid, Now(fs), calls, ptr0, DIND, c, quiet);
      assert log0 + calls + c == log0 + (calls + c);
      calls := calls + c;
      ptr := ptr[DIND := 0];
    }
    SlotNow(fs.geo, s0, Now(fs), calls, ptr0, TIND, quiet);
    if ptr[TIND] != 0 {
      ghost var mid := Now(fs);
      ghost var c := FreeTriple(fs, ptr[TIND]);
      SlotMore(fs.geo, s0, mid, Now(fs), calls, ptr0, TIND, c, quiet);
      assert log0 + calls + c == log0 + (calls + c);
      calls := calls + c;
      ptr := ptr[TIND := 0];
    }
  }

  /** free_inode_blocks on any i_block[], from an inode or from a symlink's text: it hands over the
      numbers found there and below there, and zeroes i_block[]. On an inode of a consistent table
      these are exactly the blocks the inode owns, each once, and the used set loses exactly them. */
  method FreeInodeBlocks(fs: Ext2, ghost inum: nat, ino0: Inode) returns (ino: Inode, ghost calls: seq<nat>)
    requires Tallied(fs)
    modifies fs`disk, fs`gfree, fs`sfree, fs`log
    ensures Tallied(fs) && fs.log == old(fs.log) + calls && ino == ino0.(ptr := ino.ptr) && Empty(ino.ptr)
    ensures var list := SlotCalls(old(fs.disk), ino0.ptr, NSLOTS); Walked(fs.geo, old(Now(fs)), Now(fs), calls, list, Quiet(fs.geo, list))
    ensures old(Ready(fs, inum, ino0)) ==>
      && Once(calls) && (forall y :: y in calls <==> y in Owned(old(fs.disk), ino0.ptr))
      && Freed(fs, old(fs.disk), old(fs.InUse()), Owned(old(fs.disk), ino0.ptr))
  {
    hide Walked, SlotCalls, Calls, Quiet, Tally, Freed, Once, Owned, Ready, Consistent, CountsOk;
    ghost var s0 := Now(fs);
    ghost var ready := Ready(fs, inum, ino0);
    ReadyMeans(fs, inum, ino0);
    var ptr;
    ptr, calls := FreeSlots(fs, ino0.ptr);
    ino := ino0.(ptr := ptr);
    if ready { TreeFreed(fs, s0, fs.table, inum, ino0, calls); }
  }

  lemma ReadyMeans(fs: Ext2, inum: nat, ino: Inode)
    ensures Ready(fs, inum, ino) <==> fs.Counts() && Consistent(fs.disk, fs.table[inum := ino], fs.InUse())
  {
  }

  lemma SlotsStart(g: Geo, s: State, ptr: Ptrs, quiet: bool)
    requires Tally(g, s.d, s.gfree, s.sfree)
    ensures Walked(g, s, s, [], SlotCalls(s.d, ptr, 0), quiet)
  {
  }

  lemma {:induction false} SlotIn(d: Disk, ptr: Ptrs, n: nat, k: nat)
    requires k < n <= NSLOTS
    ensures forall y :: y in Calls(d, ptr[k], Levels(k)) ==> y in SlotCalls(d, ptr, n)
  {
    if k < n - 1 { SlotIn(d, ptr, n - 1, k); }
  }

  /** An empty slot adds nothing to the walk; a full one is read as it would have been beforehand. */
  lemma SlotNow(g: Geo, s: State, s1: State, calls: seq<nat>, ptr: Ptrs, i: nat, quiet: bool)
    requires i < NSLOTS && Walked(g, s, s1, calls, SlotCalls(s.d, ptr, i), quiet)
    requires quiet ==> Quiet(g, SlotCalls(s.d, ptr, NSLOTS))
    ensures Idle(g, s.d, calls) ==> s1 == s
    ensures quiet ==> Quiet(g, Calls(s.d, ptr[i], Levels(i))) && Calls(s1.d, ptr[i], Levels(i)) == Calls(s.d, ptr[i], Levels(i))
    ensures ptr[i] == 0 ==> Walked(g, s, s1, calls, SlotCalls(s.d, ptr, i + 1), quiet)
  {
    hide IsMarked, Tally;
    if quiet {
      SlotIn(s.d, ptr, NSLOTS, i);
      CallsFrame(g, s.d, s1.d, ptr[i], Levels(i));
    }
    assert SlotCalls(s.d, ptr, i) + [] == SlotCalls(s.d, ptr, i);
  }

  lemma SlotMore(g: Geo, s: State, s1: State, s2: State, calls: seq<nat>, ptr: Ptrs, i: nat, x0: seq<nat>, quiet: bool)
    requires i < NSLOTS && Walked(g, s, s1, calls, SlotCalls(s.d, ptr, i), quiet)
    requires quiet ==> Quiet(g, SlotCalls(s.d, ptr, NSLOTS))
    requires var list := Calls(s1.d, ptr[i], Levels(i)); Walked(g, s1, s2, x0, list, Quiet(g, list)) || Walked(g, s1, s2, x0, list, true)
    ensures Walked(g, s, s2, calls + x0, SlotCalls(s.d, ptr, i + 1), quiet)
  {
    hide IsMarked, Tally, Walked, Calls, Quiet;
    SlotNow(g, s, s1, calls, ptr, i, quiet);
    var l2', l2 := Calls(s1.d, ptr[i], Levels(i)), Calls(s.d, ptr[i], Levels(i));
    var q2 := if Walked(g, s1, s2, x0, l2', true) then true else Quiet(g, l2');
    WalkTwice(g, s, s1, s2, calls, SlotCalls(s.d, ptr, i), x0, l2', l2, quiet, q2);
  }

  // ----- on a consistent table: every owned block, each once -----

  ghost predicate Once(l: seq<nat>) {
    forall i, j :: 0 <= i < j < |l| ==> l[i] != l[j]
  }

  lemma OnceConcat(a: seq<nat>, b: seq<nat>)
    requires Once(a) && Once(b) && forall y :: y in a ==> y !in b
    ensures Once(a + b)
  {
    var l := a + b;
    forall i, j | 0 <= i < j < |l| ensures l[i] != l[j] {
      assert i < |a| ==> l[i] in a;
      assert j >= |a| ==> l[j] in b;
    }
  }

  /** The walk's numbers are the tree's. */
  lemma {:induction false} CallsAreUnder(d: Disk, x: nat, lev: nat, y: nat)
    ensures y in Calls(d, x, lev) <==> y in Under(d, x, lev)
    decreases lev, PTRS + 1
  {
    if x != 0 && lev > 0 {
      if x < |d| { PartsArePart(d, x, lev, PTRS, y); } else { NoParts(d, x, lev, PTRS); }
    }
  }

  lemma {:induction false} PartsArePart(d: Disk, x: nat, lev: nat, n: nat, y: nat)
    requires 0 < x < |d| && lev > 0 && n <= PTRS
    ensures y in PartCalls(d, x, lev, n) <==> y in Part(d, x, lev, n)
    decreases lev, n
  {
    if n > 0 {
      PartsArePart(d, x, lev, n - 1, y);
      CallsAreUnder(d, Entry(d[x], n - 1), lev - 1, y);
    }
  }

  lemma {:induction false} NoParts(d: Disk, x: nat, lev: nat, n: nat)
    requires x >= |d| && lev > 0 && n <= PTRS
    ensures PartCalls(d, x, lev, n) == []
  {
    if n > 0 { NoParts(d, x, lev, n - 1); }
  }

  lemma {:induction false} SlotCallsAreSlots(d: Disk, ptr: Ptrs, n: nat, y: nat)
    requires n <= NSLOTS
    ensures y in SlotCalls(d, ptr, n) <==> y in Slots(d, ptr, n)
  {
    if n > 0 {
      SlotCallsAreSlots(d, ptr, n - 1, y);
      CallsAreUnder(d, ptr[n - 1], Levels(n - 1), y);
    }
  }

  /** No block hangs from two slots, so no number comes twice. */
  lemma {:induction false} CallsOnce(d: Disk, t: Table, u: set<nat>, inum: nat, p: Path)
    requires Consistent(d, t, u) && inum in t && Valid(p)
    ensures Once(Calls(d, At(d, t[inum].ptr, p), Levels(Slot(p)) - Depth(p)))
    decreases Levels(Slot(p)) - Depth(p), PTRS + 1
  {
    var ptr := t[inum].ptr;
    var x, lev := At(d, ptr, p), Levels(Slot(p)) - Depth(p);
    if x != 0 && lev > 0 {
      Grounds(d, t, u, inum);
      PartOnce(d, t, u, inum, p, PTRS);
      forall y | y in PartCalls(d, x, lev, PTRS) ensures y !in [x] {
        PartsArePart(d, x, lev, PTRS, y);
        var q, i := PartPath(d, ptr, p, PTRS, y);
        BelowDeeper(Child(p, i), q);
        assert y == x ==> Shares(d, t, inum, q, inum, p);
      }
      OnceConcat(PartCalls(d, x, lev, PTRS), [x]);
    }
  }

  lemma {:induction false} PartOnce(d: Disk, t: Table, u: set<nat>, inum: nat, p: Path, n: nat)
    requires Consistent(d, t, u) && inum in t && Valid(p) && Depth(p) < Levels(Slot(p)) && n <= PTRS
    requires 0 < At(d, t[inum].ptr, p) < |d|
    ensures Once(PartCalls(d, At(d, t[inum].ptr, p), Levels(Slot(p)) - Depth(p), n))
    decreases Levels(Slot(p)) - Depth(p), n
  {
    var ptr := t[inum].ptr;
    var x, lev := At(d, ptr, p), Levels(Slot(p)) - Depth(p);
    if n > 0 {
      PartOnce(d, t, u, inum, p, n - 1);
      CallsOnce(d, t, u, inum, Child(p, n - 1));
      Grounds(d, t, u, inum);
      var a, b := PartCalls(d, x, lev, n - 1), Calls(d, Entry(d[x], n - 1), lev - 1);
      forall y | y in a ensures y !in b {
        PartsArePart(d, x, lev, n - 1, y);
        CallsAreUnder(d, Entry(d[x], n - 1), lev - 1, y);
        var q, i := PartPath(d, ptr, p, n - 1, y);
        if y in b {
          var r := UnderPath(d, ptr, Child(p, n - 1), y);
          NotBoth(d, t, u, inum, y, Child(p, i), q, Child(p, n - 1), r);
        }
      }
      OnceConcat(a, b);
    }
  }

  /** A block reached below two places of the same depth: the places are one. */
  lemma NotBoth(d: Disk, t: Table, u: set<nat>, inum: nat, y: nat, a: Path, q: Path, b: Path, r: Path)
    requires Consistent(d, t, u) && inum in t && Valid(q) && Valid(r) && y != 0
    requires At(d, t[inum].ptr, q) == y == At(d, t[inum].ptr, r)
    requires Below(a, q) && Below(b, r) && Depth(a) == Depth(b)
    ensures a == b
  {
    assert Shares(d, t, inum, q, inum, r);
    BelowUnique(a, b, q);
  }

  lemma {:induction false} SlotsOnce(d: Disk, t: Table, u: set<nat>, inum: nat, n: nat)
    requires Consistent(d, t, u) && inum in t && n <= NSLOTS
    ensures Once(SlotCalls(d, t[inum].ptr, n))
  {
    var ptr := t[inum].ptr;
    if n > 0 {
      SlotsOnce(d, t, u, inum, n - 1);
      CallsOnce(d, t, u, inum, Root(n - 1));
      Grounds(d, t, u, inum);
      var a, b := SlotCalls(d, ptr, n - 1), Calls(d, ptr[n - 1], Levels(n - 1));
      forall y | y in a ensures y !in b {
        SlotCallsAreSlots(d, ptr, n - 1, y);
        CallsAreUnder(d, ptr[n - 1], Levels(n - 1), y);
        var q, i := SlotsPath(d, ptr, n - 1, y);
        if y in b {
          var r := UnderPath(d, ptr, Root(n - 1), y);
          NotBoth(d, t, u, inum, y, Root(i), q, Root(n - 1), r);
        }
      }
      OnceConcat(a, b);
    }
  }

  /** Only bitmap blocks changed, and freed is what the bitmaps lost. */
  ghost predicate Freed(fs: Ext2, d: Disk, u: set<nat>, freed: set<nat>)
    reads fs
  {
    && fs.Counts() && |d| == |fs.disk|
    && (forall y :: 0 <= y < |d| && y !in fs.geo.bitmap ==> fs.disk[y] == d[y])
    && fs.InUse() == u - freed
    && forall x :: x in u ==> 0 < x < |d| && x !in fs.geo.meta
  }

  /** The numbers a consistent inode hands over: exactly its blocks, each once, no bitmap block. */
  lemma TreeCalls(g: Geo, d: Disk, t: Table, inum: nat)
    requires GeoOk(g) && |d| == g.blocks && Consistent(d, t, Used(g, d)) && inum in t
    ensures var list := SlotCalls(d, t[inum].ptr, NSLOTS);
      Once(list) && Quiet(g, list) && (forall y :: y in list <==> y in Owned(d, t[inum].ptr)) && Owned(d, t[inum].ptr) <= Used(g, d)
  {
    hide Once, Under, Slots;
    Grounds(d, t, Used(g, d), inum);
    OwnedIsSlots(d, t[inum].ptr);
    SlotsOnce(d, t, Used(g, d), inum, NSLOTS);
    forall y ensures y in SlotCalls(d, t[inum].ptr, NSLOTS) <==> y in Owned(d, t[inum].ptr) {
      SlotCallsAreSlots(d, t[inum].ptr, NSLOTS, y);
    }
  }

  lemma TreeFreed(fs: Ext2, s0: State, t: Table, inum: nat, ino: Inode, calls: seq<nat>)
    requires CountsOk(fs.geo, s0.d, s0.gfree, s0.sfree) && Consistent(s0.d, t[inum := ino], Used(fs.geo, s0.d))
    requires var list := SlotCalls(s0.d, ino.ptr, NSLOTS); Walked(fs.geo, s0, Now(fs), calls, list, Quiet(fs.geo, list))
    ensures Once(calls) && (forall y :: y in calls <==> y in Owned(s0.d, ino.ptr))
    ensures Freed(fs, s0.d, Used(fs.geo, s0.d), Owned(s0.d, ino.ptr))
  {
    hide Consistent, Owned, Once, SlotCalls, GroupCounts;
    TreeCalls(fs.geo, s0.d, t[inum := ino], inum);
    HandedUsed(fs.geo, s0, Now(fs), calls);
  }

  /** Taking marks from used blocks keeps the metadata's. */
  lemma HandedUsed(g: Geo, s: State, s': State, calls: seq<nat>)
    requires CountsOk(g, s.d, s.gfree, s.sfree) && Tally(g, s'.d, s'.gfree, s'.sfree) && Handed(g, s.d, s'.d, calls)
    requires forall y :: y in calls ==> y in Used(g, s.d)
    ensures CountsOk(g, s'.d, s'.gfree, s'.sfree) && forall y :: y in Used(g, s'.d) <==> y in Used(g, s.d) && y !in calls
  {
    hide Marked, GroupCounts;
    forall y: nat | InGroups(g, y) ensures Marked(g, s'.d, y) <==> Marked(g, s.d, y) && y !in calls {
      assert IsMarked(g, s'.d, y) <==> IsMarked(g, s.d, y) && y !in calls;
    }
    forall y | g.first <= y < g.blocks ensures InGroups(g, y) {}
  }

  /** The slots of a consistent inode name allocated blocks. */
  lemma Grounds(d: Disk, t: Table, u: set<nat>, inum: nat)
    requires Consistent(d, t, u) && inum in t
    ensures Owned(d, t[inum].ptr) <= u
    ensures InRange(d, t[inum].ptr)
  {
    forall y | y in Owned(d, t[inum].ptr)
      ensures y in u
    {
      var p :| Valid(p) && At(d, t[inum].ptr, p) == y;
      assert Held(d, t, u, inum, p);
    }
    forall p | Valid(p)
      ensures At(d, t[inum].ptr, p) == 0 || 0 < At(d, t[inum].ptr, p) < |d|
    {
      assert Held(d, t, u, inum, p);
    }
  }

  /** After the release no slot of any other inode moved, the emptied inode owns nothing, and the
      free count grew by exactly the number of blocks it owned. */
  lemma ReleaseKeeps(g: Geo, d: Disk, gfree: seq<nat>, sfree: nat, d': Disk, gfree': seq<nat>, sfree': nat,
                     t: Table, inum: nat, ino': Inode)
    requires CountsOk(g, d, gfree, sfree) && CountsOk(g, d', gfree', sfree') && inum in t
    requires Consistent(d, t, Used(g, d))
    requires forall y :: 0 <= y < |d| && y !in g.bitmap ==> d'[y] == d[y]
    requires Used(g, d') == Used(g, d) - Owned(d, t[inum].ptr)
    requires Empty(ino'.ptr) && ino'.sectors == 0
    ensures Consistent(d', t[inum := ino'], Used(g, d'))
    ensures forall i, p :: i in t && i != inum && Valid(p) ==> At(d', t[i].ptr, p) == At(d, t[i].ptr, p)
    ensures Owned(d', ino'.ptr) == {}
    ensures forall i :: i in t && i != inum ==> Owned(d', t[i].ptr) == Owned(d, t[i].ptr)
    ensures sfree' == sfree + |Owned(d, t[inum].ptr)|
  {
    hide Counted;
    var t', u, u' := t[inum := ino'], Used(g, d), Used(g, d');
    FrameAll(d, d', t, u);
    forall p | Valid(p)
      ensures At(d', ino'.ptr, p) == 0
    {
      NoSlots(d', ino'.ptr, p);
    }
    assert Owned(d', ino'.ptr) == {};
    forall i, p
      ensures Held(d', t', u', i, p)
    {
      assert Held(d, t, u, i, p);
      if i in t && i != inum && Valid(p) && At(d, t[i].ptr, p) != 0 {
        forall q | Valid(q)
          ensures At(d, t[inum].ptr, q) != At(d, t[i].ptr, p)
        {
          assert Shares(d, t, i, p, inum, q) ==> i == inum;
        }
      }
    }
    forall i, p, j, q | Shares(d', t', i, p, j, q)
      ensures i == j && p == q
    {
      assert Shares(d', t, i, p, j, q);
    }
    Grounds(d, t, u, inum);
    FreeCount(g, d, gfree, sfree);
    FreeCount(g, d', gfree', sfree');
    FreeSetGrows(g, d, d', Owned(d, t[inum].ptr));
  }

  lemma {:induction false} NoSlots(d: Disk, ptr: Ptrs, p: Path)
    requires Valid(p) && Empty(ptr)
    ensures At(d, ptr, p) == 0
  {
    if p.Child? { NoSlots(d, ptr, p.parent); }
  }

  /** Marks are kept outside the data blocks, so what the used set loses the free set gains. */
  lemma FreeSetGrows(g: Geo, d: Disk, d': Disk, freed: set<nat>)
    requires GeoOk(g) && |d| == |d'| == g.blocks && Pinned(g, d) && Pinned(g, d')
    requires Used(g, d') == Used(g, d) - freed && freed <= Used(g, d)
    ensures |FreeSet(g, d')| == |FreeSet(g, d)| + |freed|
  {
    forall x | g.first <= x < g.blocks
      ensures x in FreeSet(g, d') <==> x in FreeSet(g, d) || x in freed
    {
      assert InGroups(g, x);
      if x !in g.meta { assert x in Used(g, d) <==> Marked(g, d, x); assert x in Used(g, d') <==> Marked(g, d', x); }
    }
    assert FreeSet(g, d') == FreeSet(g, d) + freed;
  }
}
