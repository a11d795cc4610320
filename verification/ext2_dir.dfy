/** Directories: a name-to-inode map kept in the data blocks of an inode. */
module Ext2Dir {
  import opened Bytes
  import opened Ext2Tree
  import opened Ext2Alloc
  import opened Ext2Map
  import opened Ext2File
  import opened Ext2DirBlock

  /** The live entries of block b: none in a hole. */
  function BlockList(d: Disk, ptr: Ptrs, b: nat): seq<Ent>
    requires b < MAXBLOCKS && BlockOk(d, ptr, b)
  {
    var x := Map(d, ptr, b);
    if 0 < x < |d| then Live(d[x], 0) else []
  }

  predicate BlockOk(d: Disk, ptr: Ptrs, b: nat)
    requires b < MAXBLOCKS
  {
    var x := Map(d, ptr, b);
    0 < x < |d| ==> Tiled(d[x], 0)
  }

  /** Blocks [lo, hi) of a directory are tiled. */
  predicate RangeOk(d: Disk, ptr: Ptrs, lo: nat, hi: nat)
    requires hi <= MAXBLOCKS
  {
    forall b: nat :: lo <= b < hi ==> BlockOk(d, ptr, b)
  }

  /** The live entries of blocks [lo, hi), in scan order. */
  function List(d: Disk, ptr: Ptrs, lo: nat, hi: nat): seq<Ent>
    requires hi <= MAXBLOCKS && RangeOk(d, ptr, lo, hi)
    decreases hi
  {
    if lo >= hi then [] else List(d, ptr, lo, hi - 1) + BlockList(d, ptr, hi - 1)
  }

  function Blocks(size: nat): nat {
    (size + BLOCK - 1) / BLOCK
  }

  /** Whole blocks, each tiled exactly by its rec_len chain. */
  predicate DirOk(d: Disk, ino: Inode) {
    ino.size < U32 && ino.size % BLOCK == 0 && RangeOk(d, ino.ptr, 0, Blocks(ino.size))
  }

  /** What a scan of the directory meets. */
  function Entries(d: Disk, ino: Inode): seq<Ent>
    requires DirOk(d, ino)
  {
    List(d, ino.ptr, 0, Blocks(ino.size))
  }

  lemma BlockShort(d: Disk, ptr: Ptrs, b: nat)
    requires b < MAXBLOCKS && BlockOk(d, ptr, b)
    ensures ShortNames(BlockList(d, ptr, b))
  {
    hide Live, Tiled, Map;
    var x := Map(d, ptr, b);
    if 0 < x < |d| { LiveShort(d[x], 0); }
  }

  lemma ShortConcat(a: seq<Ent>, b: seq<Ent>)
    requires ShortNames(a) && ShortNames(b)
    ensures ShortNames(a + b)
  {
  }

  lemma {:induction false} ListShort(d: Disk, ptr: Ptrs, lo: nat, hi: nat)
    requires hi <= MAXBLOCKS && RangeOk(d, ptr, lo, hi)
    ensures ShortNames(List(d, ptr, lo, hi))
    decreases hi
  {
    hide BlockOk, BlockList;
    if lo < hi {
      hide ShortNames;
      ListShort(d, ptr, lo, hi - 1);
      assert BlockOk(d, ptr, hi - 1);
      BlockShort(d, ptr, hi - 1);
      ShortConcat(List(d, ptr, lo, hi - 1), BlockList(d, ptr, hi - 1));
    }
  }

  lemma {:induction false} ListSplit(d: Disk, ptr: Ptrs, lo: nat, mid: nat, hi: nat)
    requires lo <= mid <= hi <= MAXBLOCKS && RangeOk(d, ptr, lo, hi)
    ensures List(d, ptr, lo, hi) == List(d, ptr, lo, mid) + List(d, ptr, mid, hi)
    decreases hi
  {
    hide BlockList, BlockOk;
    if mid < hi {
      ListSplit(d, ptr, lo, mid, hi - 1);
      var a, c, e := List(d, ptr, lo, mid), List(d, ptr, mid, hi - 1), BlockList(d, ptr, hi - 1);
      assert (a + c) + e == a + (c + e);
    } else {
      assert List(d, ptr, mid, hi) == [];
    }
  }

  lemma {:induction false} ListSame(d: Disk, ptr: Ptrs, d': Disk, ptr': Ptrs, lo: nat, hi: nat)
    requires hi <= MAXBLOCKS && RangeOk(d, ptr, lo, hi)
    requires forall b: nat :: lo <= b < hi ==> SameBlockAt(d, ptr, d', ptr', b)
    ensures RangeOk(d', ptr', lo, hi) && List(d', ptr', lo, hi) == List(d, ptr, lo, hi)
    decreases hi
  {
    hide Live, Tiled, Map;
    forall b: nat | lo <= b < hi
      ensures BlockOk(d', ptr', b) && BlockList(d', ptr', b) == BlockList(d, ptr, b)
    {
      assert SameBlockAt(d, ptr, d', ptr', b) && BlockOk(d, ptr, b);
    }
    if lo < hi { ListSame(d, ptr, d', ptr', lo, hi - 1); }
  }

  /** Index b maps to a block with the same bytes, or is a hole both times. */
  predicate SameBlockAt(d: Disk, ptr: Ptrs, d': Disk, ptr': Ptrs, b: nat)
    requires b < MAXBLOCKS
  {
    var x, x' := Map(d, ptr, b), Map(d', ptr', b);
    (0 < x < |d| <==> 0 < x' < |d'|) && (0 < x < |d| ==> d'[x'] == d[x])
  }

  // ----- lookup -----

  /** ext2_lookup: the inode the first entry of that name points at, 0 if there is none. */
  method Lookup(fs: Ext2, dino: Inode, name: seq<Byte>) returns (ino: nat)
    requires DirOk(fs.disk, dino)
    ensures ino == Find(Entries(fs.disk, dino), name)
    ensures ino == 0 <==> Absent(Entries(fs.disk, dino), name)
  {
    hide Tiled, Live, PathOf, At;
    var nblocks := Blocks(dino.size);
    for b := 0 to nblocks
      invariant Absent(List(fs.disk, dino.ptr, 0, b), name)
    {
      assert BlockOk(fs.disk, dino.ptr, b);
      var phys := Bmap(fs, dino, b);
      ghost var before := List(fs.disk, dino.ptr, 0, b);
      ghost var here := BlockList(fs.disk, dino.ptr, b);
      AbsentConcat(before, here, name);
      if phys == 0 || phys >= |fs.disk| { continue; }
      ino := LookupInBlock(fs.disk[phys], name);
      if ino != 0 {
        ListSplit(fs.disk, dino.ptr, 0, b + 1, nblocks);
        FindConcat(before, here, name);
        FindConcat(before + here, List(fs.disk, dino.ptr, b + 1, nblocks), name);
        AbsentConcat(before + here, List(fs.disk, dino.ptr, b + 1, nblocks), name);
        return;
      }
    }
    FindAbsent(Entries(fs.disk, dino), name);
    return 0;
  }

  // ----- rewriting one directory block -----

  /** The disk after directory block b of inum was overwritten: that block's entries changed, the
      other blocks of the directory and every other file kept their bytes. */
  lemma EditBlock(d: Disk, t: Table, u: set<nat>, inum: nat, b: nat, blk: Block, d': Disk)
    requires Consistent(d, t, u) && inum in t && DirOk(d, t[inum]) && b < Blocks(t[inum].size)
    requires 0 < Map(d, t[inum].ptr, b) < |d| && d' == d[Map(d, t[inum].ptr, b) := blk] && Tiled(blk, 0)
    ensures Consistent(d', t, u)
    ensures DirOk(d', t[inum]) && BlockOk(d', t[inum].ptr, b)
    ensures var n, p := Blocks(t[inum].size), t[inum].ptr;
      && RangeOk(d', p, 0, b) && RangeOk(d', p, b + 1, n)
      && Entries(d, t[inum]) == List(d, p, 0, b) + BlockList(d, p, b) + List(d, p, b + 1, n)
      && Entries(d', t[inum]) == List(d, p, 0, b) + Live(blk, 0) + List(d, p, b + 1, n)
    ensures forall c: nat :: c < Blocks(t[inum].size) && c != b ==>
      BlockOk(d, t[inum].ptr, c) && BlockOk(d', t[inum].ptr, c) && BlockList(d', t[inum].ptr, c) == BlockList(d, t[inum].ptr, c)
    ensures BlockList(d', t[inum].ptr, b) == Live(blk, 0)
    ensures OthersKept(d, t, d', t, inum)
    ensures forall i :: i in t ==> Owned(d', t[i].ptr) == Owned(d, t[i].ptr)
  {
    var n, p := Blocks(t[inum].size), t[inum].ptr;
    EditSlots(d, t, u, inum, b, blk, d');
    DataSlots(d, t, u, inum, b, blk, d');
    DataOthers(d, t, u, inum, b, blk, d');
    hide BlockOk, BlockList, Consistent, OthersKept, SameBlockAt;
    ListSame(d, p, d', p, 0, b);
    ListSame(d, p, d', p, b + 1, n);
    ListSplit(d, p, 0, b + 1, n);
    ListSplit(d', p, 0, b + 1, n);
  }

  lemma EditSlots(d: Disk, t: Table, u: set<nat>, inum: nat, b: nat, blk: Block, d': Disk)
    requires Consistent(d, t, u) && inum in t && DirOk(d, t[inum]) && b < Blocks(t[inum].size)
    requires 0 < Map(d, t[inum].ptr, b) < |d| && d' == d[Map(d, t[inum].ptr, b) := blk] && Tiled(blk, 0)
    ensures forall c: nat :: c < Blocks(t[inum].size) ==> BlockOk(d, t[inum].ptr, c) && BlockOk(d', t[inum].ptr, c)
    ensures forall c: nat :: c < Blocks(t[inum].size) && c != b ==>
      SameBlockAt(d, t[inum].ptr, d', t[inum].ptr, c) && BlockList(d', t[inum].ptr, c) == BlockList(d, t[inum].ptr, c)
    ensures BlockList(d', t[inum].ptr, b) == Live(blk, 0)
  {
    hide Live, Tiled, PathOf, At, List;
    var p := t[inum].ptr;
    DataSlots(d, t, u, inum, b, blk, d');
    forall c: nat | c < Blocks(t[inum].size)
      ensures BlockOk(d, p, c) && BlockOk(d', p, c)
      ensures c != b ==> SameBlockAt(d, p, d', p, c) && BlockList(d', p, c) == BlockList(d, p, c)
    {
      assert Map(d', p, c) == Map(d, p, c);
      DataByte(d, t, inum, b, inum, c);
      assert BlockOk(d, p, c);
    }
  }

  /** A write to a data block of inum reaches no block of another file. */
  lemma DataOthers(d: Disk, t: Table, u: set<nat>, inum: nat, b: nat, blk: Block, d': Disk)
    requires Consistent(d, t, u) && inum in t && b < MAXBLOCKS
    requires 0 < Map(d, t[inum].ptr, b) < |d| && d' == d[Map(d, t[inum].ptr, b) := blk]
    ensures OthersKept(d, t, d', t, inum)
  {
    DataSlots(d, t, u, inum, b, blk, d');
    forall i: nat, c: nat | i in t && i != inum && c < MAXBLOCKS
      ensures SameBlockAt(d, t[i].ptr, d', t[i].ptr, c)
    {
      assert Map(d', t[i].ptr, c) == Map(d, t[i].ptr, c);
      DataByte(d, t, inum, b, i, c);
    }
  }

  /** Every file but inum has the blocks it had. */
  ghost predicate OthersKept(d: Disk, t: Table, d': Disk, t': Table, inum: nat) {
    && t'.Keys == t.Keys
    && (forall i :: i in t && i != inum ==> t'[i] == t[i])
    && forall i: nat, b: nat :: i in t && i != inum && b < MAXBLOCKS ==> SameBlockAt(d, t[i].ptr, d', t[i].ptr, b)
  }

  /** ... and so the bytes it had. */
  lemma OthersBytes(d: Disk, t: Table, d': Disk, t': Table, inum: nat, i: nat, k: nat)
    requires OthersKept(d, t, d', t', inum) && i in t && i != inum && k < MAXBYTES
    ensures FileByte(d', t', i, k) == FileByte(d, t, i, k)
  {
    assert SameBlockAt(d, t[i].ptr, d', t[i].ptr, k / BLOCK);
  }

  lemma OthersTrans(d: Disk, t: Table, d1: Disk, t1: Table, d2: Disk, t2: Table, inum: nat)
    requires OthersKept(d, t, d1, t1, inum) && OthersKept(d1, t1, d2, t2, inum)
    ensures OthersKept(d, t, d2, t2, inum)
  {
    forall i: nat, b: nat | i in t && i != inum && b < MAXBLOCKS
      ensures SameBlockAt(d, t[i].ptr, d2, t[i].ptr, b)
    {
      assert SameBlockAt(d, t[i].ptr, d1, t[i].ptr, b) && SameBlockAt(d1, t1[i].ptr, d2, t1[i].ptr, b);
    }
  }

  /** The live entries of the first block, where "." and ".." live. */
  function Head(d: Disk, ino: Inode): seq<Ent>
    requires DirOk(d, ino) && ino.size > 0
  {
    assert BlockOk(d, ino.ptr, 0);
    BlockList(d, ino.ptr, 0)
  }

  /** Every name but one is found in the first block as before. */
  ghost predicate HeadKept(d: Disk, ino: Inode, d': Disk, ino': Inode, name: seq<Byte>)
    requires DirOk(d, ino) && DirOk(d', ino') && 0 < ino.size <= ino'.size
  {
    forall nm: seq<Byte> :: nm != name ==> Find(Head(d', ino'), nm) == Find(Head(d, ino), nm)
  }

  /** The state a directory operation works in: the caller's in-memory directory inode stands in
      for the stored one. */
  ghost predicate DirReady(fs: Ext2, inum: nat, dino: Inode)
    reads fs
  {
    Ready(fs, inum, dino) && DirOk(fs.disk, dino)
  }

  /** An edit inside one block of a list, seen on the whole list. */
  lemma InsertInside(a: seq<Ent>, l: seq<Ent>, c: seq<Ent>, e: Ent, l': seq<Ent>)
    requires Inserts(l, e, l')
    ensures Inserts(a + l + c, e, a + l' + c)
  {
    var k: nat :| InsertedAt(l, e, l', k);
    var w := a + l + c;
    assert w[..|a| + k] == a + l[..k] && w[|a| + k..] == l[k..] + c;
    assert InsertedAt(w, e, a + l' + c, |a| + k);
  }

  lemma RemoveInside(a: seq<Ent>, l: seq<Ent>, c: seq<Ent>, e: Ent, l': seq<Ent>)
    requires Removes(l, e, l') && Absent(a, e.name)
    ensures Removes(a + l + c, e, a + l' + c)
  {
    var k: nat :| RemovedAt(l, e, l', k);
    var w := a + l + c;
    assert w[|a| + k] == e;
    assert w[..|a| + k] == a + l[..k] && w[|a| + k + 1..] == l[k + 1..] + c;
    AbsentConcat(a, l[..k], e.name);
    assert RemovedAt(w, e, a + l' + c, |a| + k);
  }

  // ----- remove -----

  /** Only blocks of s were written. */
  ghost predicate Within(d: Disk, d': Disk, s: set<nat>) {
    |d'| == |d| && forall y :: 0 <= y < |d| && y !in s ==> d'[y] == d[y]
  }

  lemma MapOwned(d: Disk, ptr: Ptrs, b: nat)
    requires b < MAXBLOCKS && 0 < Map(d, ptr, b) < |d|
    ensures Map(d, ptr, b) in Owned(d, ptr)
  {
    assert Owns(d, ptr, Map(d, ptr, b));
  }

  /** dir_unlink_entry: drop the first entry of that name; 0 if the name is absent. */
  method UnlinkEntry(fs: Ext2, inum: nat, dino: Inode, name: seq<Byte>) returns (ino: nat, ftype: Byte)
    requires DirReady(fs, inum, dino)
    modifies fs`disk
    ensures DirReady(fs, inum, dino) && fs.InUse() == old(fs.InUse())
    ensures forall i :: i in fs.table ==> Owned(fs.disk, fs.table[i].ptr) == Owned(old(fs.disk), fs.table[i].ptr)
    requires inum in fs.table && fs.table[inum] == dino
    ensures Within(old(fs.disk), fs.disk, Owned(old(fs.disk), dino.ptr))
    ensures ino == 0 ==> fs.disk == old(fs.disk) && Absent(Entries(fs.disk, dino), name)
    ensures ino != 0 ==> Removes(old(Entries(fs.disk, dino)), Ent(ino, name, ftype), Entries(fs.disk, dino))
    ensures dino.size > 0 ==> HeadKept(old(fs.disk), dino, fs.disk, dino, name)
    ensures OthersKept(old(fs.disk), fs.table[inum := dino], fs.disk, fs.table[inum := dino], inum)
  {
    hide Consistent, CountsOk, Tiled, Live, Map, Removes, Owned;
    ghost var t, d, u := fs.table, fs.disk, fs.InUse();
    assert fs.table[inum := dino] == t;
    var nblocks := Blocks(dino.size);
    for b := 0 to nblocks
      invariant fs.disk == d && Absent(List(d, dino.ptr, 0, b), name)
    {
      assert BlockOk(d, dino.ptr, b);
      var phys := Bmap(fs, dino, b);
      AbsentConcat(List(d, dino.ptr, 0, b), BlockList(d, dino.ptr, b), name);
      if phys == 0 || phys >= |fs.disk| { continue; }
      var blk: Block;
      ino, ftype, blk := RemoveInBlock(fs.disk[phys], name);
      if ino != 0 {
        DataNotMeta(fs, t, inum, b);
        WriteKeepsCounts(fs.geo, d, fs.gfree, fs.sfree, phys, blk);
        fs.disk := fs.disk[phys := blk];
        MapOwned(d, dino.ptr, b);
        EditBlock(d, t, u, inum, b, blk, fs.disk);
        RemoveHead(d, dino, fs.disk, b, Ent(ino, name, ftype));
        RemoveInside(List(d, dino.ptr, 0, b), BlockList(d, dino.ptr, b), List(d, dino.ptr, b + 1, nblocks),
                     Ent(ino, name, ftype), Live(blk, 0));
        return;
      }
    }
    return 0, 0;
  }

  lemma RemoveHead(d: Disk, ino: Inode, d': Disk, b: nat, e: Ent)
    requires DirOk(d, ino) && DirOk(d', ino) && b < Blocks(ino.size) && ino.size > 0
    requires BlockOk(d, ino.ptr, b) && BlockOk(d', ino.ptr, b)
    requires Removes(BlockList(d, ino.ptr, b), e, BlockList(d', ino.ptr, b))
    requires b != 0 ==> BlockOk(d, ino.ptr, 0) && BlockOk(d', ino.ptr, 0) && BlockList(d', ino.ptr, 0) == BlockList(d, ino.ptr, 0)
    ensures HeadKept(d, ino, d', ino, e.name)
  {
    hide BlockList, BlockOk, RangeOk, Removes;
    forall nm: seq<Byte> | nm != e.name
      ensures Find(Head(d', ino), nm) == Find(Head(d, ino), nm)
    {
      if b == 0 { RemoveFind(Head(d, ino), e, Head(d', ino), nm); }
    }
  }

  lemma InsertHead(d: Disk, ino: Inode, d': Disk, b: nat, e: Ent)
    requires DirOk(d, ino) && DirOk(d', ino) && b < Blocks(ino.size) && ino.size > 0
    requires BlockOk(d, ino.ptr, b) && BlockOk(d', ino.ptr, b)
    requires Inserts(BlockList(d, ino.ptr, b), e, BlockList(d', ino.ptr, b))
    requires b != 0 ==> BlockOk(d, ino.ptr, 0) && BlockOk(d', ino.ptr, 0) && BlockList(d', ino.ptr, 0) == BlockList(d, ino.ptr, 0)
    ensures HeadKept(d, ino, d', ino, e.name)
  {
    hide BlockList, BlockOk, RangeOk, Inserts;
    forall nm: seq<Byte> | nm != e.name
      ensures Find(Head(d', ino), nm) == Find(Head(d, ino), nm)
    {
      if b == 0 { InsertOther(Head(d, ino), e, Head(d', ino), nm); }
    }
  }

  // ----- add -----

  /** Block b of the directory has an entry with room for need bytes more. */
  ghost predicate SlackAt(d: Disk, ptr: Ptrs, b: nat, need: nat) {
    b < MAXBLOCKS && 0 < Map(d, ptr, b) < |d| && HasSlack(d[Map(d, ptr, b)], need)
  }

  /** b is the first of n blocks with such room, and nothing else was written. */
  ghost predicate InFirst(d: Disk, ptr: Ptrs, n: nat, need: nat, b: nat, d': Disk) {
    b < n && SlackAt(d, ptr, b, need) && (forall c: nat :: c < b ==> !SlackAt(d, ptr, c, need)) && Within(d, d', {Map(d, ptr, b)})
  }

  /** dir_add_entry: place e in the first slack long enough, or, if there is none in any block, in a new
      block. Fails only when the disk is full, and then every entry is still there. */
  method AddEntry(fs: Ext2, inum: nat, dino0: Inode, e: Ent) returns (dino: Inode, ok: bool)
    requires DirReady(fs, inum, dino0)
    requires e.ino != 0 && e.ino < U32 && |e.name| <= 255
    requires dino0.size + BLOCK < U32
    modifies fs`disk, fs`gfree, fs`sfree
    ensures DirReady(fs, inum, dino) && dino == dino0.(ptr := dino.ptr, sectors := dino.sectors, size := dino.size)
    ensures ok ==> Inserts(old(Entries(fs.disk, dino0)), e, Entries(fs.disk, dino))
    ensures !ok ==> fs.sfree == 0 && dino == dino0 && Entries(fs.disk, dino) == old(Entries(fs.disk, dino0))
    ensures ok && dino == dino0 ==> exists b: nat :: InFirst(old(fs.disk), dino0.ptr, Blocks(dino0.size), RealLen(|e.name|), b, fs.disk)
    ensures !ok || dino != dino0 ==> forall b: nat :: b < Blocks(dino0.size) ==> !SlackAt(old(fs.disk), dino0.ptr, b, RealLen(|e.name|))
    ensures ok && dino != dino0 ==> dino.size == dino0.size + BLOCK
    ensures old(fs.InUse()) <= fs.InUse()
    ensures ok ==> Booked(old(fs.disk), old(fs.table)[inum := dino0], old(fs.InUse()), fs.disk, fs.table[inum := dino], fs.InUse(), inum)
    ensures dino0.size > 0 ==> dino.size >= dino0.size && HeadKept(old(fs.disk), dino0, fs.disk, dino, e.name)
    ensures OthersOwn(old(fs.disk), old(fs.table)[inum := dino0], fs.disk, inum)
    ensures OthersKept(old(fs.disk), old(fs.table)[inum := dino0], fs.disk, fs.table[inum := dino], inum)
  {
    hide Consistent, CountsOk, Tiled, Live, Map, Inserts, Booked, Owned, OthersOwn, HasSlack, SlackAt, InFirst, OthersKept, HeadKept, DirOk, Entries, BlockList, Within;
    BlocksOf(fs.disk, dino0);
    ghost var t, d, u := fs.table[inum := dino0], fs.disk, fs.InUse();
    var nblocks := Blocks(dino0.size);
    for b := 0 to nblocks
      invariant fs.disk == d && fs.gfree == old(fs.gfree) && fs.sfree == old(fs.sfree)
      invariant forall c: nat :: c < b ==> !SlackAt(d, dino0.ptr, c, RealLen(|e.name|))
    {
      BlockAt(d, dino0, b);
      var phys := Bmap(fs, dino0, b);
      NoSlack(d, dino0.ptr, b, RealLen(|e.name|));
      if phys == 0 || phys >= |fs.disk| { continue; }
      var found, blk := AddInBlock(fs.disk[phys], e);
      if found {
        DataNotMeta(fs, t, inum, b);
        WriteKeepsCounts(fs.geo, d, fs.gfree, fs.sfree, phys, blk);
        fs.disk := fs.disk[phys := blk];
        SlackTaken(d, t, u, inum, b, e, blk, fs.disk);
        return dino0, true;
      }
    }
    dino, ok := AddBlock(fs, inum, dino0, e);
  }

  lemma BlocksOf(d: Disk, ino: Inode)
    requires DirOk(d, ino)
    ensures Blocks(ino.size) <= MAXBLOCKS
  {
  }

  lemma BlockAt(d: Disk, ino: Inode, b: nat)
    requires DirOk(d, ino) && b < Blocks(ino.size) <= MAXBLOCKS
    ensures var x := Map(d, ino.ptr, b); 0 < x < |d| ==> Tiled(d[x], 0)
  {
    assert BlockOk(d, ino.ptr, b);
  }

  lemma NoSlack(d: Disk, ptr: Ptrs, b: nat, need: nat)
    requires b < MAXBLOCKS
    ensures SlackAt(d, ptr, b, need) <==> 0 < Map(d, ptr, b) < |d| && HasSlack(d[Map(d, ptr, b)], need)
  {
  }

  /** Block b, the first with room, took the entry. */
  lemma SlackTaken(d: Disk, t: Table, u: set<nat>, inum: nat, b: nat, e: Ent, blk: Block, d': Disk)
    requires Consistent(d, t, u) && inum in t && DirOk(d, t[inum]) && b < Blocks(t[inum].size)
    requires SlackAt(d, t[inum].ptr, b, RealLen(|e.name|)) && forall c: nat :: c < b ==> !SlackAt(d, t[inum].ptr, c, RealLen(|e.name|))
    requires 0 < Map(d, t[inum].ptr, b) < |d| && Tiled(d[Map(d, t[inum].ptr, b)], 0) && d' == d[Map(d, t[inum].ptr, b) := blk]
    requires Tiled(blk, 0) && Inserts(Live(d[Map(d, t[inum].ptr, b)], 0), e, Live(blk, 0))
    ensures Consistent(d', t, u) && DirOk(d', t[inum]) && Inserts(Entries(d, t[inum]), e, Entries(d', t[inum]))
    ensures InFirst(d, t[inum].ptr, Blocks(t[inum].size), RealLen(|e.name|), b, d')
    ensures Booked(d, t, u, d', t, u, inum) && OthersOwn(d, t, d', inum) && OthersKept(d, t, d', t, inum)
    ensures t[inum].size > 0 ==> HeadKept(d, t[inum], d', t[inum], e.name)
  {
    hide Consistent, Tiled, Live, Map, Inserts, Booked, Owned, OthersOwn, HasSlack, SlackAt;
    var ino := t[inum];
    assert BlockOk(d, ino.ptr, b);
    EditBlock(d, t, u, inum, b, blk, d');
    InsertHead(d, ino, d', b, e);
    SlackBooked(d, t, d', u, inum);
    SlackOwn(d, t, d', inum);
    InsertInside(List(d, ino.ptr, 0, b), BlockList(d, ino.ptr, b), List(d, ino.ptr, b + 1, Blocks(ino.size)), e, Live(blk, 0));
  }

  /** The growing half of dir_add_entry: one more block, holding one entry that spans it. */
  method AddBlock(fs: Ext2, inum: nat, dino0: Inode, e: Ent) returns (dino: Inode, ok: bool)
    requires DirReady(fs, inum, dino0)
    requires e.ino != 0 && e.ino < U32 && |e.name| <= 255
    requires dino0.size + BLOCK < U32
    modifies fs`disk, fs`gfree, fs`sfree
    ensures DirReady(fs, inum, dino) && dino == dino0.(ptr := dino.ptr, sectors := dino.sectors, size := dino.size)
    ensures ok ==> Inserts(old(Entries(fs.disk, dino0)), e, Entries(fs.disk, dino))
    ensures !ok ==> fs.sfree == 0 && dino == dino0 && Entries(fs.disk, dino) == old(Entries(fs.disk, dino0))
    ensures ok ==> dino.size == dino0.size + BLOCK
    ensures old(fs.InUse()) <= fs.InUse()
    ensures ok ==> Booked(old(fs.disk), old(fs.table)[inum := dino0], old(fs.InUse()), fs.disk, fs.table[inum := dino], fs.InUse(), inum)
    ensures dino0.size > 0 ==> dino.size >= dino0.size && HeadKept(old(fs.disk), dino0, fs.disk, dino, e.name)
    ensures OthersOwn(old(fs.disk), old(fs.table)[inum := dino0], fs.disk, inum)
    ensures OthersKept(old(fs.disk), old(fs.table)[inum := dino0], fs.disk, fs.table[inum := dino], inum)
  {
    hide Consistent, CountsOk, Tiled, Live, Map, Inserts, Extends, Booked, Owned, OthersOwn;
    ghost var t, d, u := fs.table[inum := dino0], fs.disk, fs.InUse();
    var bi := Blocks(dino0.size);
    var phys;
    dino, phys := BmapAlloc(fs, inum, dino0, bi);
    ghost var d1, t1 := fs.disk, fs.table[inum := dino];
    assert t[inum := dino] == t1;
    ExtendsInode(d, t, u, d1, dino, fs.InUse(), inum, PathOf(bi));
    if phys == 0 {
      // The callers drop the grown inode: what is left is the stored one.
      DropKeepsDir(d, t, u, d1, dino, fs.InUse(), inum, bi);
      GrowUses(d, t, u, d1, dino, fs.InUse(), inum, PathOf(bi));
      GrowOwn(d, t, u, d1, dino, fs.InUse(), inum, PathOf(bi));
      return dino0, false;
    }
    GrowKeepsDir(d, t, u, d1, dino, fs.InUse(), inum, bi);
    ghost var u1 := fs.InUse();
    GrowBooked(d, t, u, d1, dino, u1, inum, PathOf(bi));
    GrowOwn(d, t, u, d1, dino, u1, inum, PathOf(bi));
    InDisk(d1, t1, fs.InUse(), inum, bi);
    DataNotMeta(fs, t1, inum, bi);
    var blk: Block := PutEnt(Zeros(), 0, e, BLOCK);
    LiveEnd(blk);
    StoredWhole(blk, e);
    WriteKeepsCounts(fs.geo, d1, fs.gfree, fs.sfree, phys, blk);
    fs.disk := fs.disk[phys := blk];
    ghost var wide := dino.(size := dino.size + BLOCK);
    Appended(d1, t1, fs.InUse(), inum, blk, e, fs.disk, wide);
    OthersTrans(d, t, d1, t1, fs.disk, t1[inum := wide], inum);
    BookedWide(d, t, u, d1, t1, fs.disk, t1[inum := wide], u1, inum);
    OwnWide(d, t, d1, t1, fs.disk, inum);
    assert t1[inum := wide] == fs.table[inum := wide];
    dino := dino.(size := dino.size + BLOCK);
    return dino, true;
  }

  /** What an operation that may grow inode inum does to the books: the used set gains what the inode
      gains, and balanced books stay balanced. */
  ghost predicate Booked(d: Disk, t: Table, u: set<nat>, d': Disk, t': Table, u': set<nat>, inum: nat)
    requires inum in t && inum in t'
  {
    && Owned(d, t[inum].ptr) <= Owned(d', t'[inum].ptr)
    && u' == u + (Owned(d', t'[inum].ptr) - Owned(d, t[inum].ptr))
    && (Balanced(d, t, u) ==> Balanced(d', t', u'))
  }

  lemma SlackOwn(d: Disk, t: Table, d': Disk, inum: nat)
    requires forall i :: i in t ==> Owned(d', t[i].ptr) == Owned(d, t[i].ptr)
    ensures OthersOwn(d, t, d', inum)
  {
  }

  lemma OwnWide(d: Disk, t: Table, d1: Disk, t1: Table, d2: Disk, inum: nat)
    requires OthersOwn(d, t, d1, inum) && inum in t && inum in t1 && t1 == t[inum := t1[inum]]
    requires forall i :: i in t1 ==> Owned(d2, t1[i].ptr) == Owned(d1, t1[i].ptr)
    ensures OthersOwn(d, t, d2, inum)
  {
    hide Owned;
    forall i | i in t && i != inum ensures Owned(d2, t[i].ptr) == Owned(d, t[i].ptr) { assert t1[i] == t[i]; }
  }

  lemma SlackBooked(d: Disk, t: Table, d': Disk, u: set<nat>, inum: nat)
    requires inum in t && forall i :: i in t ==> Owned(d', t[i].ptr) == Owned(d, t[i].ptr)
    ensures Booked(d, t, u, d', t, u, inum)
  {
    hide Owned, Balanced;
    if Balanced(d, t, u) { SameBalanced(d, t, d', t, u); }
  }

  lemma GrowBooked(d: Disk, t: Table, u: set<nat>, d': Disk, ino': Inode, u': set<nat>, inum: nat, p: Path)
    requires inum in t && Extends(d, t, u, d', ino', u', inum, p)
    ensures Booked(d, t, u, d', t[inum := ino'], u', inum) && u <= u'
  {
    hide Owned, Balanced;
    if Balanced(d, t, u) { ExtendsBalanced(d, t, u, d', ino', u', inum, p); }
  }

  lemma GrowUses(d: Disk, t: Table, u: set<nat>, d': Disk, ino': Inode, u': set<nat>, inum: nat, p: Path)
    requires inum in t && Extends(d, t, u, d', ino', u', inum, p)
    ensures u <= u'
  {
    hide Owned;
  }

  lemma BookedWide(d: Disk, t: Table, u: set<nat>, d1: Disk, t1: Table, d2: Disk, t2: Table, u1: set<nat>, inum: nat)
    requires inum in t && inum in t1 && inum in t2 && Booked(d, t, u, d1, t1, u1, inum) && t2.Keys == t1.Keys
    requires forall i :: i in t1 ==> t2[i].sectors == t1[i].sectors && t2[i].ptr == t1[i].ptr && Owned(d2, t1[i].ptr) == Owned(d1, t1[i].ptr)
    ensures Booked(d, t, u, d2, t2, u1, inum)
  {
    hide Owned, Balanced;
    if Balanced(d, t, u) { SameBalanced(d1, t1, d2, t2, u1); }
  }

  lemma StoredWhole(b: Block, e: Ent)
    requires Stored(b, 0, e, BLOCK) && e.ino != 0 && |e.name| <= 255
    ensures Tiled(b, 0) && Live(b, 0) == [e]
  {
    hide Ino, Rec;
    assert Tiled(b, BLOCK);
    StoredLive(b, 0, e, BLOCK);
    assert [e] + Live(b, BLOCK) == [e];
  }

  /** bmap_alloc past the end leaves the directory's blocks, and every other file, alone. */
  lemma GrowKeepsDir(d: Disk, t: Table, u: set<nat>, d': Disk, ino': Inode, u': set<nat>, inum: nat, bi: nat)
    requires inum in t && DirOk(d, t[inum]) && bi == Blocks(t[inum].size) < MAXBLOCKS
    requires Consistent(d, t, u) && Extends(d, t, u, d', ino', u', inum, PathOf(bi))
    ensures DirOk(d', ino') && Entries(d', ino') == Entries(d, t[inum])
    ensures t[inum].size > 0 ==> Head(d', ino') == Head(d, t[inum])
    ensures OthersKept(d, t, d', t[inum := ino'], inum)
  {
    hide Extends, Consistent, Entries, Head;
    GrowBlocks(d, t, u, d', ino', u', inum, bi);
    hide DirOk;
    SameDir(d, t[inum], d', ino');
    GrowOthers(d, t, u, d', ino', u', inum, PathOf(bi));
  }

  lemma GrowBlocks(d: Disk, t: Table, u: set<nat>, d': Disk, ino': Inode, u': set<nat>, inum: nat, bi: nat)
    requires inum in t && bi < MAXBLOCKS && Consistent(d, t, u) && Extends(d, t, u, d', ino', u', inum, PathOf(bi))
    ensures ino'.size == t[inum].size
    ensures forall b: nat :: b < bi ==> SameBlockAt(d, t[inum].ptr, d', ino'.ptr, b)
  {
    hide Tiled, Live;
    forall b: nat | b < bi
      ensures SameBlockAt(d, t[inum].ptr, d', ino'.ptr, b)
    {
      ExtendsMap(d, t, u, d', ino', u', inum, bi, b);
      SlotHeld(d, t, u, inum, PathOf(b));
    }
  }

  lemma SameDir(d: Disk, ino: Inode, d': Disk, ino': Inode)
    requires DirOk(d, ino) && ino'.size == ino.size
    requires forall b: nat :: b < Blocks(ino.size) ==> SameBlockAt(d, ino.ptr, d', ino'.ptr, b)
    ensures DirOk(d', ino') && Entries(d', ino') == Entries(d, ino)
    ensures ino.size > 0 ==> Head(d', ino') == Head(d, ino)
  {
    hide Tiled, Live;
    ListSame(d, ino.ptr, d', ino'.ptr, 0, Blocks(ino.size));
    if ino.size > 0 { assert SameBlockAt(d, ino.ptr, d', ino'.ptr, 0); }
  }

  lemma GrowOthers(d: Disk, t: Table, u: set<nat>, d': Disk, ino': Inode, u': set<nat>, inum: nat, p: Path)
    requires inum in t && Consistent(d, t, u) && Extends(d, t, u, d', ino', u', inum, p)
    ensures OthersKept(d, t, d', t[inum := ino'], inum)
  {
    forall i: nat, b: nat | i in t && i != inum && b < MAXBLOCKS
      ensures SameBlockAt(d, t[i].ptr, d', t[i].ptr, b)
    {
      SlotHeld(d, t, u, i, PathOf(b));
      assert At(d', t[i].ptr, PathOf(b)) == At(d, t[i].ptr, PathOf(b));
    }
  }

  /** The same when the grown inode is dropped because the disk was full. */
  lemma DropKeepsDir(d: Disk, t: Table, u: set<nat>, d': Disk, ino': Inode, u': set<nat>, inum: nat, bi: nat)
    requires inum in t && DirOk(d, t[inum]) && bi == Blocks(t[inum].size) < MAXBLOCKS
    requires Consistent(d, t, u) && Consistent(d', t[inum := ino'], u') && Extends(d, t, u, d', ino', u', inum, PathOf(bi))
    ensures Consistent(d', t, u')
    ensures DirOk(d', t[inum]) && Entries(d', t[inum]) == Entries(d, t[inum])
    ensures t[inum].size > 0 ==> Head(d', t[inum]) == Head(d, t[inum])
    ensures OthersKept(d, t, d', t, inum)
  {
    hide Extends, Consistent, Entries, Head;
    DropKeeps(d, t, u, d', ino', u', inum, PathOf(bi));
    DropBlocks(d, t, u, d', ino', u', inum, bi);
    hide DirOk;
    SameDir(d, t[inum], d', t[inum]);
    GrowOthers(d, t, u, d', ino', u', inum, PathOf(bi));
  }

  lemma DropBlocks(d: Disk, t: Table, u: set<nat>, d': Disk, ino': Inode, u': set<nat>, inum: nat, bi: nat)
    requires inum in t && bi < MAXBLOCKS
    requires Consistent(d, t, u) && Consistent(d', t[inum := ino'], u') && Extends(d, t, u, d', ino', u', inum, PathOf(bi))
    ensures forall b: nat :: b < bi ==> SameBlockAt(d, t[inum].ptr, d', t[inum].ptr, b)
  {
    hide Tiled, Live;
    var p := t[inum].ptr;
    DropKeeps(d, t, u, d', ino', u', inum, PathOf(bi));
    IndexOfPath(bi);
    forall b: nat | b < bi
      ensures SameBlockAt(d, p, d', p, b)
    {
      IndexOfPath(b);
      SlotHeld(d, t, u, inum, PathOf(b));
      assert Map(d', p, b) == Map(d, p, b);
    }
  }

  /** Writing a one-entry block just past the end and growing i_size by a block appends e. */
  lemma Appended(d: Disk, t: Table, u: set<nat>, inum: nat, blk: Block, e: Ent, d': Disk, wide: Inode)
    requires Consistent(d, t, u) && inum in t && DirOk(d, t[inum])
    requires wide == t[inum].(size := t[inum].size + BLOCK) && wide.size < U32
    requires var x := Map(d, t[inum].ptr, Blocks(t[inum].size)); 0 < x < |d| && d' == d[x := blk]
    requires Tiled(blk, 0) && Live(blk, 0) == [e]
    ensures Consistent(d', t[inum := wide], u) && DirOk(d', wide)
    ensures Inserts(Entries(d, t[inum]), e, Entries(d', wide))
    ensures t[inum].size > 0 ==> Head(d', wide) == Head(d, t[inum])
    ensures OthersKept(d, t, d', t[inum := wide], inum)
    ensures forall i :: i in t ==> Owned(d', t[i].ptr) == Owned(d, t[i].ptr)
  {
    hide Tiled, Live, PathOf, At, Owned;
    var n, p, t' := Blocks(t[inum].size), t[inum].ptr, t[inum := wide];
    assert Blocks(wide.size) == n + 1;
    DataSlots(d, t, u, inum, n, blk, d');
    DataOthers(d, t, u, inum, n, blk, d');
    SamePtrs(d', t, t', u);
    forall c: nat | c < n
      ensures SameBlockAt(d, p, d', p, c)
    {
      assert Map(d', p, c) == Map(d, p, c);
      DataByte(d, t, inum, n, inum, c);
    }
    ListSame(d, p, d', p, 0, n);
    assert BlockOk(d', p, n);
    var l := Entries(d, t[inum]);
    assert Entries(d', wide) == l + [e];
    assert l[..|l|] == l && l[|l|..] == [];
    assert InsertedAt(l, e, Entries(d', wide), |l|);
    if n > 0 { assert SameBlockAt(d, p, d', p, 0); }
  }
}
