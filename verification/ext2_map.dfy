/** bmap and bmap_alloc over the allocator. */
module Ext2Map {
  import opened Bytes
  import opened Ext2Tree
  import opened Ext2Alloc

  // ----- growing an inode's tree -----

  /** q is p or one of the slots above it. */
  predicate Above(q: Path, p: Path) {
    q == p || (p.Child? && Above(q, p.parent))
  }

  lemma Ancestors(p: Path)
    ensures Above(p, p)
    ensures p.Child? ==> Above(p.parent, p)
    ensures p.Child? && p.parent.Child? ==> Above(p.parent.parent, p)
    ensures p.Child? && p.parent.Child? && p.parent.parent.Child? ==> Above(p.parent.parent.parent, p)
  {
    if p.Child? && p.parent.Child? {
      assert Above(p.parent.parent, p.parent);
      if p.parent.parent.Child? {
        assert Above(p.parent.parent.parent, p.parent.parent);
        assert Above(p.parent.parent.parent, p.parent);
      }
    }
  }

  /** The data blocks of every inode keep their bytes. */
  ghost predicate DataKept(d: Disk, t: Table, d': Disk) {
    && |d'| == |d|
    && forall i, q :: i in t && IsLeaf(q) && 0 < At(d, t[i].ptr, q) < |d|
         ==> d'[At(d, t[i].ptr, q)] == d[At(d, t[i].ptr, q)]
  }

  /** Inode inum may have gained blocks, at p and the slots above it only; every block it gained
      was free, data it gained is zero, and nothing else about any file changed. */
  ghost predicate Extends(d: Disk, t: Table, u: set<nat>, d': Disk, ino': Inode, u': set<nat>, inum: nat, p: Path)
    requires inum in t
  {
    var ino := t[inum];
    && |d'| == |d|
    && ino' == ino.(ptr := ino'.ptr, sectors := ino'.sectors)
    && (forall q :: Valid(q) ==> At(d', ino'.ptr, q) == At(d, ino.ptr, q) || (At(d, ino.ptr, q) == 0 && Above(q, p)))
    && (forall i, q :: i in t && i != inum && Valid(q) ==> At(d', t[i].ptr, q) == At(d, t[i].ptr, q))
    && DataKept(d, t, d')
    && (forall q :: IsLeaf(q) && At(d, ino.ptr, q) == 0 && 0 < At(d', ino'.ptr, q) < |d|
          ==> d'[At(d', ino'.ptr, q)] == Zeros())
    && Owned(d, ino.ptr) <= Owned(d', ino'.ptr)
    && (Owned(d', ino'.ptr) - Owned(d, ino.ptr)) !! u
    && u' == u + (Owned(d', ino'.ptr) - Owned(d, ino.ptr))
    && ino'.sectors == ino.sectors + 2 * |Owned(d', ino'.ptr) - Owned(d, ino.ptr)|
  }

  lemma ExtendsRefl(d: Disk, t: Table, u: set<nat>, inum: nat, p: Path)
    requires inum in t
    ensures Extends(d, t, u, d, t[inum], u, inum, p)
  {
  }

  lemma ExtendsTrans(d: Disk, t: Table, u: set<nat>, d1: Disk, ino1: Inode, u1: set<nat>,
                     d2: Disk, ino2: Inode, u2: set<nat>, inum: nat, p: Path)
    requires inum in t
    requires Extends(d, t, u, d1, ino1, u1, inum, p)
    requires Extends(d1, t[inum := ino1], u1, d2, ino2, u2, inum, p)
    ensures Extends(d, t, u, d2, ino2, u2, inum, p)
  {
    var t1 := t[inum := ino1];
    var a, b, c := Owned(d, t[inum].ptr), Owned(d1, ino1.ptr), Owned(d2, ino2.ptr);
    GrowthAdds(a, b, c);
    forall i, q | i in t && IsLeaf(q) && 0 < At(d, t[i].ptr, q) < |d|
      ensures d2[At(d, t[i].ptr, q)] == d[At(d, t[i].ptr, q)]
    {
      assert At(d1, t1[i].ptr, q) == At(d, t[i].ptr, q);
    }
    forall i, q | i in t && i != inum && Valid(q)
      ensures At(d2, t[i].ptr, q) == At(d, t[i].ptr, q)
    {
      assert t1[i] == t[i];
      assert At(d1, t[i].ptr, q) == At(d, t[i].ptr, q);
    }
    forall q | IsLeaf(q) && At(d, t[inum].ptr, q) == 0 && 0 < At(d2, ino2.ptr, q) < |d|
      ensures d2[At(d2, ino2.ptr, q)] == Zeros()
    {
      if At(d1, ino1.ptr, q) != 0 {
        assert At(d2, ino2.ptr, q) == At(d1, t1[inum].ptr, q);
      }
    }
  }

  lemma {:induction false} AboveTrans(q: Path, p: Path, goal: Path)
    requires Above(q, p) && Above(p, goal)
    ensures Above(q, goal)
  {
    if p != goal { AboveTrans(q, p, goal.parent); }
  }

  /** What gained blocks at p and above gained them on the way to goal. */
  lemma Widen(d: Disk, t: Table, u: set<nat>, d': Disk, ino': Inode, u': set<nat>, inum: nat, p: Path, goal: Path)
    requires inum in t && Extends(d, t, u, d', ino', u', inum, p) && Above(p, goal)
    ensures Extends(d, t, u, d', ino', u', inum, goal)
  {
    forall q | Above(q, p) ensures Above(q, goal) { AboveTrans(q, p, goal); }
  }

  lemma GrowthAdds(a: set<nat>, b: set<nat>, c: set<nat>)
    requires a <= b <= c
    ensures |c - a| == |c - b| + |b - a|
  {
    assert c - a == (c - b) + (b - a);
  }

  /** Hanging a fresh block extends the inode. */
  lemma HangExtends(d: Disk, t: Table, u: set<nat>, inum: nat, p: Path, nb: nat, d': Disk, ino': Inode)
    requires Consistent(d, t, u) && inum in t && Valid(p)
    requires 0 < nb < |d| <= 0x1_0000_0000 && nb !in u
    requires At(d, t[inum].ptr, p) == 0 && d[nb] == Zeros()
    requires Hangs(d, t[inum].ptr, p, nb, d', ino'.ptr)
    requires ino' == t[inum].(ptr := ino'.ptr, sectors := t[inum].sectors + 2)
    ensures Consistent(d', t[inum := ino'], u + {nb})
    ensures At(d', ino'.ptr, p) == nb
    ensures Extends(d, t, u, d', ino', u + {nb}, inum, p)
  {
    var ptr := t[inum].ptr;
    Hang(d, t, u, inum, p, nb, d', ino');
    forall i, q | i in t && IsLeaf(q) && 0 < At(d, t[i].ptr, q) < |d|
      ensures d'[At(d, t[i].ptr, q)] == d[At(d, t[i].ptr, q)]
    {
      assert p.Child? ==> Valid(p.parent) && !IsLeaf(p.parent) && !Shares(d, t, i, q, inum, p.parent);
    }
    forall q | IsLeaf(q) && At(d, ptr, q) == 0 && 0 < At(d', ino'.ptr, q) < |d|
      ensures d'[At(d', ino'.ptr, q)] == Zeros()
    {
      assert q == p;
      if p.Child? { assert Held(d, t, u, inum, p.parent); }
    }
    assert Owned(d', ino'.ptr) - Owned(d, ptr) == {nb};
  }

  // ----- reading the map -----

  /** ind_entry: a pointer of a pointer block; block 0 has none, and a block past the end of
      the disk cannot be read. */
  method IndEntry(fs: Ext2, blk: nat, index: nat) returns (r: nat)
    requires index < PTRS
    ensures r == if 0 < blk < |fs.disk| then Entry(fs.disk[blk], index) else 0
  {
    if blk == 0 || blk >= |fs.disk| { return 0; }
    return Entry(fs.disk[blk], index);
  }

  /** bmap: the physical block of file block b, 0 for a hole. */
  method Bmap(fs: Ext2, ino: Inode, b: nat) returns (r: nat)
    requires b < MAXBLOCKS
    ensures r == Map(fs.disk, ino.ptr, b)
  {
    if b < NDIR { return ino.ptr[b]; }
    var c := b - NDIR;
    if c < PTRS {
      r := IndEntry(fs, ino.ptr[IND], c);
      assert At(fs.disk, ino.ptr, Root(IND)) == ino.ptr[IND];
      return r;
    }
    c := c - PTRS;
    if c < PTRS * PTRS {
      var mid := IndEntry(fs, ino.ptr[DIND], c / PTRS);
      r := IndEntry(fs, mid, c % PTRS);
      assert Valid(PathOf(b).parent) && At(fs.disk, ino.ptr, Root(DIND)) == ino.ptr[DIND];
      assert At(fs.disk, ino.ptr, PathOf(b).parent) == mid;
      return r;
    }
    c := c - PTRS * PTRS;
    var hi := IndEntry(fs, ino.ptr[TIND], c / (PTRS * PTRS));
    var mid := IndEntry(fs, hi, c / PTRS % PTRS);
    r := IndEntry(fs, mid, c % PTRS);
    ghost var p := PathOf(b);
    assert Valid(p.parent) && Valid(p.parent.parent);
    assert At(fs.disk, ino.ptr, p.parent.parent) == hi;
    assert At(fs.disk, ino.ptr, p.parent) == mid;
  }

  // ----- growing the map -----

  /** alloc_zeroed_block: claim a free block and clear it. */
  method AllocZeroedBlock(fs: Ext2) returns (r: nat)
    requires fs.Counts()
    modifies fs`disk, fs`gfree, fs`sfree
    ensures fs.Counts() && |fs.disk| == |old(fs.disk)| <= 0x8000_0000
    ensures r == 0 <==> old(fs.sfree) == 0
    ensures r == 0 ==> fs.disk == old(fs.disk) && fs.sfree == 0
    ensures r != 0 ==> 0 < r < |fs.disk| && r !in old(fs.InUse()) && fs.InUse() == old(fs.InUse()) + {r}
    ensures r != 0 ==> fs.disk[r] == Zeros() && fs.sfree == old(fs.sfree) - 1
    ensures forall x :: x in old(fs.InUse()) ==> fs.disk[x] == old(fs.disk)[x]
  {
    r := fs.AllocBlock();
    if r == 0 { return 0; }
    ghost var d1 := fs.disk;
    fs.disk := fs.disk[r := Zeros()];
    WriteKeepsCounts(fs.geo, d1, fs.gfree, fs.sfree, r, Zeros());
    assert fs.InUse() == old(fs.InUse()) + {r};
  }

  lemma UsedIsData(g: Geo, d: Disk, gfree: seq<nat>, sfree: nat, x: nat)
    requires CountsOk(g, d, gfree, sfree) && x in Used(g, d)
    ensures x !in g.meta
  {
  }

  /** Writing a block that is not metadata leaves every bitmap alone. */
  lemma WriteKeepsCounts(g: Geo, d: Disk, gfree: seq<nat>, sfree: nat, x: nat, b: Block)
    requires CountsOk(g, d, gfree, sfree) && x < |d| && x !in g.meta
    ensures CountsOk(g, d[x := b], gfree, sfree)
    ensures forall y: nat :: InGroups(g, y) ==> Marked(g, d[x := b], y) == Marked(g, d, y)
    ensures Used(g, d[x := b]) == Used(g, d)
  {
    var d' := d[x := b];
    forall y: nat | InGroups(g, y)
      ensures Marked(g, d', y) == Marked(g, d, y)
    {
      GroupBound(g, y);
    }
    forall y: nat | InGroups(g, y) && (y >= g.blocks || y in g.meta)
      ensures Marked(g, d', y)
    {
      assert Marked(g, d, y);
    }
  }

  /** The state bmap_alloc works in: exact counts, and a consistent tree for the inode table
      with the caller's in-memory inode in place of the stored one. */
  ghost predicate Ready(fs: Ext2, inum: nat, ino: Inode)
    reads fs
  {
    fs.Counts() && Consistent(fs.disk, fs.table[inum := ino], fs.InUse())
  }

  /** Ensure i_block[slot] names a block, allocating it if it is empty. */
  method EnsureRoot(fs: Ext2, ghost inum: nat, ino0: Inode, slot: nat) returns (ino: Inode, r: nat)
    requires Ready(fs, inum, ino0) && slot < NSLOTS
    modifies fs`disk, fs`gfree, fs`sfree
    ensures Ready(fs, inum, ino)
    ensures Extends(old(fs.disk), old(fs.table)[inum := ino0], old(fs.InUse()), fs.disk, ino, fs.InUse(), inum, Root(slot))
    ensures r == ino.ptr[slot] == At(fs.disk, ino.ptr, Root(slot))
    ensures r == 0 ==> fs.sfree == 0
  {
    hide Extends, CountsOk, Exclusive, Grounded;
    ghost var t, u := fs.table[inum := ino0], fs.InUse();
    ino := ino0;
    ExtendsRefl(fs.disk, t, u, inum, Root(slot));
    if ino.ptr[slot] == 0 {
      var nb := AllocZeroedBlock(fs);
      if nb == 0 { return ino, 0; }
      ino := ino.(ptr := ino.ptr[slot := nb], sectors := ino.sectors + 2);
      Grow(old(fs.disk), fs.disk, t, u, inum, Root(slot), nb, fs.disk, ino);
      assert t[inum := ino] == fs.table[inum := ino];
    }
    return ino, ino.ptr[slot];
  }

  /** Claiming and clearing a free block is invisible to every inode. */
  lemma Cleared(d: Disk, d1: Disk, t: Table, u: set<nat>, inum: nat, nb: nat, goal: Path)
    requires Consistent(d, t, u) && inum in t && |d1| == |d| && 0 < nb < |d| && nb !in u
    requires forall x :: x in u ==> d1[x] == d[x]
    ensures Consistent(d1, t, u)
    ensures forall i, p :: i in t && Valid(p) ==> At(d1, t[i].ptr, p) == At(d, t[i].ptr, p)
    ensures Extends(d, t, u, d1, t[inum], u, inum, goal)
  {
    FrameAll(d, d1, t, u);
    SameOwned(d, d1, t[inum].ptr, t[inum].ptr);
    forall i, q | i in t && IsLeaf(q) && 0 < At(d, t[i].ptr, q) < |d|
      ensures d1[At(d, t[i].ptr, q)] == d[At(d, t[i].ptr, q)]
    {
      assert Held(d, t, u, i, q);
    }
  }

  /** Claim a block (d to d1), then hang it from the empty slot p (d1 to d2). */
  lemma Grow(d: Disk, d1: Disk, t: Table, u: set<nat>, inum: nat, p: Path, nb: nat, d2: Disk, ino': Inode)
    requires Consistent(d, t, u) && inum in t && Valid(p)
    requires |d1| == |d| <= 0x1_0000_0000 && 0 < nb < |d| && nb !in u
    requires (forall x :: x in u ==> d1[x] == d[x]) && d1[nb] == Zeros()
    requires At(d, t[inum].ptr, p) == 0
    requires p.Child? ==> var x := At(d, t[inum].ptr, p.parent);
      0 < x < |d| && ino'.ptr == t[inum].ptr && d2 == d1[x := PutEntry(d1[x], p.idx, nb)]
    requires p.Root? ==> d2 == d1 && ino'.ptr == t[inum].ptr[p.slot := nb]
    requires ino' == t[inum].(ptr := ino'.ptr, sectors := t[inum].sectors + 2)
    ensures Consistent(d2, t[inum := ino'], u + {nb})
    ensures At(d2, ino'.ptr, p) == nb
    ensures Extends(d, t, u, d2, ino', u + {nb}, inum, p)
  {
    Cleared(d, d1, t, u, inum, nb, p);
    assert At(d1, t[inum].ptr, p) == 0;
    assert p.Child? ==> At(d1, t[inum].ptr, p.parent) == At(d, t[inum].ptr, p.parent);
    HangExtends(d1, t, u, inum, p, nb, d2, ino');
    assert t[inum := t[inum]] == t;
    ExtendsTrans(d, t, u, d1, t[inum], u, d2, ino', u + {nb}, inum, p);
  }

  lemma AtChild(d: Disk, ptr: Ptrs, q: Path, idx: nat)
    requires Valid(Child(q, idx)) && 0 < At(d, ptr, q) < |d|
    ensures At(d, ptr, Child(q, idx)) == Entry(d[At(d, ptr, q)], idx)
  {
  }

  /** Ensure entry idx of pointer block blk names a block, allocating it if it is empty. */
  method EnsureChild(fs: Ext2, ghost inum: nat, ino0: Inode, ghost q: Path, blk: nat, idx: nat)
    returns (ino: Inode, r: nat)
    requires Ready(fs, inum, ino0) && Valid(Child(q, idx))
    requires blk == At(fs.disk, ino0.ptr, q) != 0
    modifies fs`disk, fs`gfree, fs`sfree
    ensures Ready(fs, inum, ino)
    ensures Extends(old(fs.disk), old(fs.table)[inum := ino0], old(fs.InUse()), fs.disk, ino, fs.InUse(), inum, Child(q, idx))
    ensures r == 0 ==> fs.sfree == 0
    ensures r != 0 ==> r == At(fs.disk, ino.ptr, Child(q, idx))
  {
    hide Extends, CountsOk, Consistent, At, Above, Entry, Used, PutEntry;
    ghost var t := fs.table[inum := ino0];
    ghost var u := fs.InUse();
    ino := ino0;
    ExtendsRefl(fs.disk, t, u, inum, Child(q, idx));
    SlotHeld(fs.disk, t, u, inum, q);
    r := Entry(fs.disk[blk], idx);
    AtChild(fs.disk, ino.ptr, q, idx);
    if r == 0 {
      r := AllocZeroedBlock(fs);
      if r == 0 { return; }
      ghost var d1 := fs.disk;
      UsedIsData(fs.geo, old(fs.disk), old(fs.gfree), old(fs.sfree), blk);
      WriteKeepsCounts(fs.geo, d1, fs.gfree, fs.sfree, blk, PutEntry(d1[blk], idx, r));
      fs.disk := fs.disk[blk := PutEntry(fs.disk[blk], idx, r)];
      ino := ino.(sectors := ino.sectors + 2);
      Grow(old(fs.disk), d1, t, u, inum, Child(q, idx), r, fs.disk, ino);
      assert t[inum := ino] == fs.table[inum := ino];
    }
  }

  /** bmap_alloc: the physical block of file block b, growing the tree where it is missing. */
  method BmapAlloc(fs: Ext2, ghost inum: nat, ino0: Inode, b: nat) returns (ino: Inode, r: nat)
    requires Ready(fs, inum, ino0) && b < MAXBLOCKS
    modifies fs`disk, fs`gfree, fs`sfree
    ensures Ready(fs, inum, ino)
    ensures Extends(old(fs.disk), old(fs.table)[inum := ino0], old(fs.InUse()), fs.disk, ino, fs.InUse(), inum, PathOf(b))
    ensures r == 0 ==> fs.sfree == 0
    ensures r != 0 ==> r == Map(fs.disk, ino.ptr, b)
  {
    hide Extends, CountsOk, Consistent;
    ghost var goal := PathOf(b);
    Ancestors(goal);
    ghost var t := fs.table[inum := ino0];
    if b < NDIR {
      ino, r := EnsureRoot(fs, inum, ino0, b);
      Widen(old(fs.disk), t, old(fs.InUse()), fs.disk, ino, fs.InUse(), inum, Root(b), goal);
      return;
    }
    var c := b - NDIR;
    if c < PTRS {
      var ind;
      ino, ind := EnsureRoot(fs, inum, ino0, IND);
      Widen(old(fs.disk), t, old(fs.InUse()), fs.disk, ino, fs.InUse(), inum, Root(IND), goal);
      if ind == 0 { return ino, 0; }
      ino, r := Descend(fs, inum, ino0, ino, Root(IND), ind, c, goal, old(fs.disk), old(fs.InUse()));
      return;
    }
    c := c - PTRS;
    if c < PTRS * PTRS {
      var dind, mid;
      ghost var low := goal.parent;
      assert Valid(low);
      ino, dind := EnsureRoot(fs, inum, ino0, DIND);
      Widen(old(fs.disk), t, old(fs.InUse()), fs.disk, ino, fs.InUse(), inum, Root(DIND), goal);
      if dind == 0 { return ino, 0; }
      ino, mid := Descend(fs, inum, ino0, ino, Root(DIND), dind, c / PTRS, goal, old(fs.disk), old(fs.InUse()));
      if mid == 0 { return ino, 0; }
      ino, r := Descend(fs, inum, ino0, ino, low, mid, c % PTRS, goal, old(fs.disk), old(fs.InUse()));
      return;
    }
    c := c - PTRS * PTRS;
    var tind, hi, mid;
    ghost var low, high := goal.parent, goal.parent.parent;
    assert Valid(low) && Valid(high);
    ino, tind := EnsureRoot(fs, inum, ino0, TIND);
    Widen(old(fs.disk), t, old(fs.InUse()), fs.disk, ino, fs.InUse(), inum, Root(TIND), goal);
    if tind == 0 { return ino, 0; }
    ino, hi := Descend(fs, inum, ino0, ino, Root(TIND), tind, c / (PTRS * PTRS), goal, old(fs.disk), old(fs.InUse()));
    if hi == 0 { return ino, 0; }
    ino, mid := Descend(fs, inum, ino0, ino, goal.parent.parent, hi, c / PTRS % PTRS, goal, old(fs.disk), old(fs.InUse()));
    if mid == 0 { return ino, 0; }
    ino, r := Descend(fs, inum, ino0, ino, goal.parent, mid, c % PTRS, goal, old(fs.disk), old(fs.InUse()));
  }

  /** One more level of bmap_alloc: EnsureChild, read as an extension of the state (d0, ino0)
      that bmap_alloc started from. */
  method Descend(fs: Ext2, ghost inum: nat, ghost ino0: Inode, ino1: Inode, ghost q: Path, blk: nat, idx: nat,
                 ghost goal: Path, ghost d0: Disk, ghost u0: set<nat>)
    returns (ino: Inode, r: nat)
    requires Ready(fs, inum, ino1) && Valid(Child(q, idx)) && Above(Child(q, idx), goal)
    requires blk == At(fs.disk, ino1.ptr, q) != 0
    requires Extends(d0, fs.table[inum := ino0], u0, fs.disk, ino1, fs.InUse(), inum, goal)
    modifies fs`disk, fs`gfree, fs`sfree
    ensures Ready(fs, inum, ino)
    ensures Extends(d0, fs.table[inum := ino0], u0, fs.disk, ino, fs.InUse(), inum, goal)
    ensures r == 0 ==> fs.sfree == 0
    ensures r != 0 ==> r == At(fs.disk, ino.ptr, Child(q, idx))
  {
    hide Extends, CountsOk, Consistent;
    ghost var d1, u1 := fs.disk, fs.InUse();
    ino, r := EnsureChild(fs, inum, ino1, q, blk, idx);
    assert fs.table[inum := ino0][inum := ino1] == fs.table[inum := ino1];
    Widen(d1, fs.table[inum := ino1], u1, fs.disk, ino, fs.InUse(), inum, Child(q, idx), goal);
    ExtendsTrans(d0, fs.table[inum := ino0], u0, d1, ino1, u1, fs.disk, ino, fs.InUse(), inum, goal);
  }

  /** Past the double indirect blocks, the first index of the walk lies inside the triple indirect block's
      256 entries exactly for the block numbers below MAXBLOCKS. */
  lemma TopIndex(b: nat)
    requires NDIR + PTRS + PTRS * PTRS <= b
    ensures (b - NDIR - PTRS - PTRS * PTRS) / (PTRS * PTRS) < PTRS <==> b < MAXBLOCKS
  {
  }

  /** The block map after bmap_alloc(b): every other index of this inode, and every index of
      every other inode, maps as before; b keeps a block it had. */
  lemma ExtendsMap(d: Disk, t: Table, u: set<nat>, d': Disk, ino': Inode, u': set<nat>, inum: nat, b: nat, c: nat)
    requires inum in t && b < MAXBLOCKS && c < MAXBLOCKS
    requires Extends(d, t, u, d', ino', u', inum, PathOf(b))
    ensures c != b || Map(d, t[inum].ptr, c) != 0 ==> Map(d', ino'.ptr, c) == Map(d, t[inum].ptr, c)
    ensures forall i :: i in t && i != inum ==> Map(d', t[i].ptr, c) == Map(d, t[i].ptr, c)
  {
    if c != b {
      IndexOfPath(c);
      IndexOfPath(b);
      if Above(PathOf(c), PathOf(b)) { LeafAbove(PathOf(c), PathOf(b)); }
    }
  }

  /** bmap_alloc changes no byte of any file: a block it adds reads as the hole it replaced. */
  lemma ExtendsBytes(d: Disk, t: Table, u: set<nat>, d': Disk, ino': Inode, u': set<nat>, inum: nat, p: Path, i: nat, k: nat)
    requires inum in t && i in t && k < MAXBLOCKS * BLOCK
    requires Extends(d, t, u, d', ino', u', inum, p)
    requires Consistent(d', t[inum := ino'], u')
    ensures ByteAt(d', t[inum := ino'][i].ptr, k) == ByteAt(d, t[i].ptr, k)
  {
    var q, t' := PathOf(k / BLOCK), t[inum := ino'];
    assert Held(d', t', u', i, q);
    LeafStory(d, t, u, d', ino', u', inum, p, i, q);
    hide Extends, Consistent, PathOf, At;
  }

  /** A data slot holds what it held, with its bytes, or was empty and holds a block of zeros. */
  lemma LeafStory(d: Disk, t: Table, u: set<nat>, d': Disk, ino': Inode, u': set<nat>, inum: nat, p: Path, i: nat, q: Path)
    requires inum in t && i in t && Extends(d, t, u, d', ino', u', inum, p) && IsLeaf(q)
    ensures var x, x' := At(d, t[i].ptr, q), At(d', t[inum := ino'][i].ptr, q);
      || (x' == x && (0 < x < |d| ==> d'[x] == d[x]))
      || (x == 0 && (0 < x' < |d| ==> d'[x'] == Zeros()))
  {
    hide Owned, At;
  }

  /** i_blocks grows by two sectors for each block the inode gained, those blocks were free, and
      a table whose sector counts were exact stays exact. */
  lemma ExtendsSectors(d: Disk, t: Table, u: set<nat>, d': Disk, ino': Inode, u': set<nat>, inum: nat, p: Path)
    requires inum in t
    requires Extends(d, t, u, d', ino', u', inum, p)
    ensures ino'.sectors - t[inum].sectors == 2 * |u' - u|
    ensures u <= u' && u' - u == Owned(d', ino'.ptr) - Owned(d, t[inum].ptr)
    ensures Counted(d, t) ==> Counted(d', t[inum := ino'])
  {
    GrowOwn(d, t, u, d', ino', u', inum, p);
    ExtendsUses(d, t, u, d', ino', u', inum, p);
    hide Extends, Owned;
    GainCount(Owned(d, t[inum].ptr), Owned(d', ino'.ptr), u, u');
  }

  lemma GainCount(a: set<nat>, b: set<nat>, u: set<nat>, u': set<nat>)
    requires a <= b && (b - a) !! u && u' == u + (b - a)
    ensures u' - u == b - a && |b| == |a| + |b - a|
  {
    assert b == a + (b - a);
  }

  lemma ExtendsUses(d: Disk, t: Table, u: set<nat>, d': Disk, ino': Inode, u': set<nat>, inum: nat, p: Path)
    requires inum in t && Extends(d, t, u, d', ino', u', inum, p)
    ensures var a, b := Owned(d, t[inum].ptr), Owned(d', ino'.ptr);
      a <= b && (b - a) !! u && u' == u + (b - a) && ino'.sectors == t[inum].sectors + 2 * |b - a|
  {
    hide Owned, At, DataKept, Above;
  }

  /** Every other inode owns the blocks it owned. */
  ghost predicate OthersOwn(d: Disk, t: Table, d': Disk, inum: nat) {
    forall i :: i in t && i != inum ==> Owned(d', t[i].ptr) == Owned(d, t[i].ptr)
  }

  lemma GrowOwn(d: Disk, t: Table, u: set<nat>, d': Disk, ino': Inode, u': set<nat>, inum: nat, p: Path)
    requires inum in t && Extends(d, t, u, d', ino', u', inum, p)
    ensures OthersOwn(d, t, d', inum)
  {
    forall i | i in t && i != inum ensures Owned(d', t[i].ptr) == Owned(d, t[i].ptr) {
      SameOwned(d, d', t[i].ptr, t[i].ptr);
    }
  }

  /** Growth keeps the books balanced. */
  lemma ExtendsBalanced(d: Disk, t: Table, u: set<nat>, d': Disk, ino': Inode, u': set<nat>, inum: nat, p: Path)
    requires inum in t && Extends(d, t, u, d', ino', u', inum, p) && Balanced(d, t, u)
    ensures Balanced(d', t[inum := ino'], u')
  {
    ExtendsSectors(d, t, u, d', ino', u', inum, p);
    GrowOwn(d, t, u, d', ino', u', inum, p);
    hide Extends, Owned;
    var t' := t[inum := ino'];
    forall x | x in u' ensures HasOwner(d', t', x) {
      if x in u {
        assert HasOwner(d, t, x);
        var i :| i in t && x in Owned(d, t[i].ptr);
        assert i in t' && x in Owned(d', t'[i].ptr);
      } else {
        assert inum in t' && x in Owned(d', t'[inum].ptr);
      }
    }
  }

  /** If the caller drops the grown in-memory inode and keeps the stored one, a slot shows what
      it shows in the grown inode, or is empty as it was. */
  lemma {:induction false} DropSlot(d: Disk, t: Table, u: set<nat>, d': Disk, ino': Inode, u': set<nat>, inum: nat, goal: Path, q: Path)
    requires inum in t && Extends(d, t, u, d', ino', u', inum, goal) && Valid(q)
    ensures At(d', t[inum].ptr, q) == At(d', ino'.ptr, q) || At(d', t[inum].ptr, q) == 0 == At(d, t[inum].ptr, q)
  {
    match q
    case Root(s) => assert At(d', ino'.ptr, q) == At(d, t[inum].ptr, q) || At(d, t[inum].ptr, q) == 0;
    case Child(r, _) => DropSlot(d, t, u, d', ino', u', inum, goal, r);
  }

  /** Dropping a grown inode leaks its new blocks at worst: the stored table is still consistent. */
  lemma DropKeeps(d: Disk, t: Table, u: set<nat>, d': Disk, ino': Inode, u': set<nat>, inum: nat, goal: Path)
    requires inum in t && Extends(d, t, u, d', ino', u', inum, goal) && IsLeaf(goal)
    requires Consistent(d', t[inum := ino'], u')
    ensures Consistent(d', t, u')
    ensures forall b: nat :: b < MAXBLOCKS && PathOf(b) != goal ==>
      Map(d', t[inum].ptr, b) == Map(d, t[inum].ptr, b)
  {
    var t' := t[inum := ino'];
    forall i, p
      ensures Held(d', t, u', i, p)
    {
      assert Held(d', t', u', i, p);
      if i == inum && Valid(p) { DropSlot(d, t, u, d', ino', u', inum, goal, p); }
    }
    forall i, p, j, q | Shares(d', t, i, p, j, q)
      ensures i == j && p == q
    {
      if i == inum { DropSlot(d, t, u, d', ino', u', inum, goal, p); }
      if j == inum { DropSlot(d, t, u, d', ino', u', inum, goal, q); }
      assert Shares(d', t', i, p, j, q);
    }
    forall b: nat | b < MAXBLOCKS && PathOf(b) != goal
      ensures Map(d', t[inum].ptr, b) == Map(d, t[inum].ptr, b)
    {
      DropSlot(d, t, u, d', ino', u', inum, goal, PathOf(b));
      if Above(PathOf(b), goal) { LeafAbove(PathOf(b), goal); }
    }
  }

  /** Of two data slots, neither lies above the other. */
  lemma {:induction false} LeafAbove(q: Path, p: Path)
    requires IsLeaf(q) && Valid(p) && Above(q, p)
    ensures q == p
  {
    if q != p {
      LeafAbove(q, p.parent);
    }
  }
}
