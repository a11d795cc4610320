/** The steps the namespace operations are made of, each described by what it does to the
    directory lists. */
module Ext2Steps {
  import opened Bytes
  import opened Ext2Tree
  import opened Ext2Alloc
  import opened Ext2Map
  import opened Ext2Free
  import opened Ext2File
  import opened Ext2DirBlock
  import opened Ext2Dir
  import opened Ext2Volume
  import N = Ext2Namespace

  /** Exact block accounting and tiled directories, whatever the link counts. */
  ghost predicate Sane(fs: Ext2)
    reads fs
  {
    Mounted(fs) && DirsOk(fs.disk, fs.table)
  }

  ghost function V(fs: Ext2): N.View
    requires DirsOk(fs.disk, fs.table)
    reads fs
  {
    ViewOf(fs.disk, fs.table)
  }

  ghost function U(fs: Ext2): map<nat, nat>
    requires DirsOk(fs.disk, fs.table)
    reads fs
  {
    UpOf(fs.disk, fs.table)
  }

  // ----- what a step leaves alone, and the books -----

  /** Inode i is as it was, up to its link count, and so is every byte of its file. */
  ghost predicate SameFile(d: Disk, t: Table, d': Disk, t': Table, i: nat)
    requires i in t && i in t'
  {
    t'[i] == t[i].(links := t'[i].links) && forall k: nat :: k < MAXBYTES ==> FileByte(d', t', i, k) == FileByte(d, t, i, k)
  }

  /** Every inode outside s is as it was. */
  ghost predicate FilesKept(d: Disk, t: Table, d': Disk, t': Table, s: set<nat>) {
    forall i :: i in t && i !in s ==> i in t' && SameFile(d, t, d', t', i)
  }

  lemma KeptOthers(d: Disk, t: Table, d': Disk, t': Table, inum: nat)
    requires OthersKept(d, t, d', t', inum)
    ensures FilesKept(d, t, d', t', {inum})
  {
    forall i, k: nat | i in t && i != inum && k < MAXBYTES
      ensures i in t' && FileByte(d', t', i, k) == FileByte(d, t, i, k)
    {
      OthersBytes(d, t, d', t', inum, i, k);
    }
  }

  /** The disk, the stored inodes and the used blocks. */
  datatype Snap = Snap(d: Disk, t: Table, u: set<nat>)

  ghost function Shot(fs: Ext2): Snap
    requires Sane(fs)
    reads fs
  {
    Snap(fs.disk, fs.table, fs.InUse())
  }

  ghost predicate Squared(a: Snap) {
    Balanced(a.d, a.t, a.u)
  }

  /** What happens between a and b keeps every inode outside s, and, where ok, balanced books: used
      blocks are exactly the owned ones, and i_blocks is exact. */
  ghost predicate Kept(a: Snap, b: Snap, s: set<nat>, ok: bool) {
    FilesKept(a.d, a.t, b.d, b.t, s) && (ok && Squared(a) ==> Squared(b))
  }

  lemma KeptRefl(a: Snap, s: set<nat>, ok: bool)
    ensures Kept(a, a, s, ok)
  {
  }

  lemma KeptTrans(a: Snap, b: Snap, c: Snap, s1: set<nat>, s2: set<nat>, s: set<nat>, ok: bool)
    requires Kept(a, b, s1, ok) && Kept(b, c, s2, ok) && s1 <= s && s2 <= s
    ensures Kept(a, c, s, ok)
  {
    hide Squared;
    forall i | i in a.t && i !in s ensures i in c.t && SameFile(a.d, a.t, c.d, c.t, i) {
      assert SameFile(a.d, a.t, b.d, b.t, i) && SameFile(b.d, b.t, c.d, c.t, i);
    }
  }

  /** One inode was written, and the books follow it. */
  lemma KeptBy(a: Snap, b: Snap, inum: nat, ok: bool)
    requires OthersKept(a.d, a.t, b.d, b.t, inum) && inum in a.t && inum in b.t
    requires ok ==> Booked(a.d, a.t, a.u, b.d, b.t, b.u, inum)
    ensures Kept(a, b, {inum}, ok)
  {
    hide OthersKept, FilesKept, Balanced, Owned;
    KeptOthers(a.d, a.t, b.d, b.t, inum);
  }

  lemma KeptWider(a: Snap, b: Snap, s: set<nat>, s': set<nat>, ok: bool, ok': bool)
    requires Kept(a, b, s, ok) && s <= s' && (ok' ==> ok)
    ensures Kept(a, b, s', ok')
  {
    hide Squared, SameFile;
  }

  /** A directory that can still take a block: its i_size stays inside 32 bits. */
  predicate HasRoom(fs: Ext2, d: nat)
    reads fs
  {
    d in fs.table && IsDir(fs.table[d]) && fs.table[d].size + BLOCK < U32
  }

  lemma DirIn(fs: Ext2, c: nat)
    requires Sane(fs)
    ensures c in U(fs) <==> c in fs.table && IsDir(fs.table[c])
    ensures c in V(fs) <==> c in fs.table && IsDir(fs.table[c])
    ensures c in U(fs) ==>
      var ino := fs.table[c];
      && DirOk(fs.disk, ino) && 0 < ino.size < U32 && V(fs)[c] == Entries(fs.disk, ino)
      && U(fs)[c] == Find(Head(fs.disk, ino), N.DOTDOT)
  {
    hide DirOk, Entries, Head, Find;
  }

  /** dir_add_entry, then write_inode of the directory. */
  method AddName(fs: Ext2, dinum: nat, e: Ent) returns (ok: bool)
    requires Sane(fs) && HasRoom(fs, dinum)
    requires e.ino != 0 && e.ino < U32 && |e.name| <= 255 && N.IsName(e.name)
    modifies fs`disk, fs`gfree, fs`sfree, fs`table
    ensures Sane(fs) && dinum in fs.table && U(fs) == old(U(fs))
    ensures fs.table == old(fs.table)[dinum := fs.table[dinum]]
    ensures fs.table[dinum].links == old(fs.table)[dinum].links && IsDir(fs.table[dinum])
    ensures ok ==> dinum in V(fs) && Inserts(old(V(fs))[dinum], e, V(fs)[dinum]) && V(fs) == old(V(fs))[dinum := V(fs)[dinum]]
    ensures !ok ==> V(fs) == old(V(fs)) && fs.table == old(fs.table) && fs.sfree == 0
    ensures fs.table[dinum] == old(fs.table)[dinum].(ptr := fs.table[dinum].ptr, sectors := fs.table[dinum].sectors, size := fs.table[dinum].size)
    ensures Kept(old(Shot(fs)), Shot(fs), {dinum}, ok) && old(fs.InUse()) <= fs.InUse()
    ensures OthersOwn(old(fs.disk), old(fs.table), fs.disk, dinum)
  {
    hide CountsOk, Consistent, DirOk, Entries, Head, OthersKept, OthersOwn, Find, Kept, Owned, Booked, Inserts, DirsOk, ViewOf, UpOf, N.IsName;
    DirIn(fs, dinum);
    NotDotDot(e.name);
    ghost var d, t, a := fs.disk, fs.table, Shot(fs);
    var dino := fs.table[dinum];
    assert t[dinum := dino] == t;
    WithoutDir(d, t, dinum);
    ghost var dino0 := dino;
    dino, ok := AddEntry(fs, dinum, dino, e);
    DirIsSmall(fs.disk, dino);
    FindKept(d, dino0, fs.disk, dino, e.name);
    fs.table := fs.table[dinum := dino];
    KeptBy(a, Snap(fs.disk, fs.table, fs.InUse()), dinum, ok);
    OneChanged(d, t, fs.disk, fs.table, dinum);
  }

  lemma DirIsSmall(d: Disk, ino: Inode)
    requires DirOk(d, ino)
    ensures ino.size < U32
  {
  }

  lemma NotDotDot(name: seq<Byte>)
    ensures N.IsName(name) ==> name != N.DOTDOT
  {
  }

  lemma FindKept(d: Disk, ino: Inode, d': Disk, ino': Inode, name: seq<Byte>)
    requires DirOk(d, ino) && DirOk(d', ino') && 0 < ino.size <= ino'.size && HeadKept(d, ino, d', ino', name)
    requires name != N.DOTDOT
    ensures Find(Head(d', ino'), N.DOTDOT) == Find(Head(d, ino), N.DOTDOT)
  {
  }

  /** dir_unlink_entry, then write_inode of the directory. Returns the inode, 0 if absent. */
  method RemoveName(fs: Ext2, dinum: nat, name: seq<Byte>) returns (ino: nat, ft: Byte)
    requires Sane(fs) && dinum in fs.table && IsDir(fs.table[dinum]) && name != N.DOTDOT
    modifies fs`disk
    ensures Sane(fs) && U(fs) == old(U(fs)) && dinum in V(fs) && fs.InUse() == old(fs.InUse())
    ensures Within(old(fs.disk), fs.disk, Owned(old(fs.disk), fs.table[dinum].ptr))
    ensures forall i :: i in fs.table ==> Owned(fs.disk, fs.table[i].ptr) == Owned(old(fs.disk), fs.table[i].ptr)
    ensures ino == 0 ==> V(fs) == old(V(fs)) && Absent(V(fs)[dinum], name)
    ensures ino != 0 ==> Removes(old(V(fs))[dinum], Ent(ino, name, ft), V(fs)[dinum]) && V(fs) == old(V(fs))[dinum := V(fs)[dinum]]
    ensures Kept(old(Shot(fs)), Shot(fs), {dinum}, true)
  {
    hide CountsOk, Consistent, DirOk, Entries, Head, OthersKept, Find, Kept, Booked, Owned, Removes, Absent, DirsOk, ViewOf, UpOf;
    DirIn(fs, dinum);
    ghost var d, t, a := fs.disk, fs.table, Shot(fs);
    var dino := fs.table[dinum];
    assert t[dinum := dino] == t;
    WithoutDir(d, t, dinum);
    ino, ft := UnlinkEntry(fs, dinum, dino, name);
    SlackBooked(d, t, fs.disk, fs.InUse(), dinum);
    KeptBy(a, Snap(fs.disk, t, a.u), dinum, true);
    OneChanged(d, t, fs.disk, fs.table, dinum);
    FindKept(d, dino, fs.disk, dino, name);
  }

  /** read_inode, a new i_links_count, write_inode. */
  method SetLinks(fs: Ext2, i: nat, links: U16)
    requires Sane(fs) && i in fs.table
    modifies fs`table
    ensures Sane(fs) && V(fs) == old(V(fs)) && U(fs) == old(U(fs))
    ensures fs.table == old(fs.table)[i := old(fs.table)[i].(links := links)]
    ensures Kept(old(Shot(fs)), Shot(fs), {}, true) && fs.InUse() == old(fs.InUse())
  {
    hide CountsOk, Consistent, Find, Kept, DirsOk, ViewOf, UpOf;
    ghost var t, a := fs.table, Shot(fs);
    var ino := fs.table[i];
    fs.table := fs.table[i := ino.(links := links)];
    SamePtrs(fs.disk, t, fs.table, fs.InUse());
    LinksKept(a, i, links);
    LinksAside(fs.disk, t, i, links);
  }

  lemma LinksKept(a: Snap, i: nat, links: U16)
    requires i in a.t
    ensures Kept(a, Snap(a.d, a.t[i := a.t[i].(links := links)], a.u), {}, true)
  {
    hide Balanced, Owned;
    if Squared(a) { SameBalanced(a.d, a.t, a.d, a.t[i := a.t[i].(links := links)], a.u); }
  }

  lemma LinksAside(d: Disk, t: Table, i: nat, links: U16)
    requires i in t && DirsOk(d, t)
    ensures DirsOk(d, t[i := t[i].(links := links)])
    ensures ViewOf(d, t[i := t[i].(links := links)]) == ViewOf(d, t)
    ensures UpOf(d, t[i := t[i].(links := links)]) == UpOf(d, t)
  {
    hide RangeOk, List, BlockList;
  }

  /** write_inode of a fresh regular file: no size, no blocks. */
  method NewFile(fs: Ext2, i: nat, ino: Inode)
    requires Sane(fs) && i !in fs.table && !IsDir(ino) && Empty(ino.ptr) && ino.size < U32 && ino.sectors == 0
    modifies fs`table
    ensures Sane(fs) && V(fs) == old(V(fs)) && U(fs) == old(U(fs)) && fs.table == old(fs.table)[i := ino]
    ensures Kept(old(Shot(fs)), Shot(fs), {}, true) && fs.InUse() == old(fs.InUse())
  {
    hide CountsOk, DirOk, Entries, Head, Find, Kept;
    ghost var t, a := fs.table, Shot(fs);
    EmptyInode(fs.disk, t, fs.InUse(), i, ino);
    EmptyKept(a, i, ino);
    fs.table := fs.table[i := ino];
    assert fs.table - {i} == t;
    WithoutFile(fs.disk, fs.table, i);
  }

  /** An inode without blocks does not disturb the tree. */
  lemma EmptyInode(d: Disk, t: Table, u: set<nat>, i: nat, ino: Inode)
    requires Consistent(d, t, u) && i !in t && Empty(ino.ptr)
    ensures Consistent(d, t[i := ino], u)
  {
    var t' := t[i := ino];
    forall p | Valid(p) ensures At(d, ino.ptr, p) == 0 { NoSlots(d, ino.ptr, p); }
    forall j, p ensures Held(d, t', u, j, p) { assert Held(d, t, u, j, p); }
    forall j, p, k, q | Shares(d, t', j, p, k, q) ensures j == k && p == q { assert Shares(d, t, j, p, k, q); }
  }

  lemma EmptyKept(a: Snap, i: nat, ino: Inode)
    requires i !in a.t && Empty(ino.ptr) && ino.sectors == 0
    ensures Kept(a, Snap(a.d, a.t[i := ino], a.u), {}, true)
  {
    hide Balanced, Owned;
    EmptyBalanced(a.d, a.t, a.u, i, ino);
  }

  lemma EmptyBalanced(d: Disk, t: Table, u: set<nat>, i: nat, ino: Inode)
    requires i !in t && Empty(ino.ptr) && ino.sectors == 0
    ensures Balanced(d, t, u) ==> Balanced(d, t[i := ino], u)
    ensures Owned(d, ino.ptr) == {}
  {
    forall p | Valid(p) ensures At(d, ino.ptr, p) == 0 { NoSlots(d, ino.ptr, p); }
    assert Owned(d, ino.ptr) == {};
    hide Owned;
    forall x | x in u && HasOwner(d, t, x) ensures HasOwner(d, t[i := ino], x) {
      var j :| j in t && x in Owned(d, t[j].ptr);
      assert j in t[i := ino];
    }
  }

  /** A table with one inode less is consistent too. */
  lemma FewerInodes(d: Disk, t: Table, u: set<nat>, i: nat)
    requires Consistent(d, t, u)
    ensures Consistent(d, t - {i}, u)
  {
    forall j, p ensures Held(d, t - {i}, u, j, p) { assert Held(d, t, u, j, p); }
    forall j, p, k, q | Shares(d, t - {i}, j, p, k, q) ensures j == k && p == q { assert Shares(d, t, j, p, k, q); }
  }

  /** free_inode_blocks, write_inode of the emptied inode, free_inode. */
  method ReleaseInode(fs: Ext2, i: nat)
    requires Sane(fs) && i in fs.table
    modifies fs`disk, fs`gfree, fs`sfree, fs`table, fs`log
    ensures Sane(fs) && fs.table == old(fs.table) - {i}
    ensures DirsOk(old(fs.disk), old(fs.table) - {i})
    ensures V(fs) == ViewOf(old(fs.disk), old(fs.table) - {i}) && U(fs) == UpOf(old(fs.disk), old(fs.table) - {i})
    ensures fs.InUse() == old(fs.InUse()) - Owned(old(fs.disk), old(fs.table)[i].ptr)
    ensures Kept(old(Shot(fs)), Shot(fs), {i}, true)
  {
    hide Consistent, DirOk, Entries, Head, Find, Used, Owned, Kept, OthersKept;
    ghost var d, t, gf, sf, u, a := fs.disk, fs.table, fs.gfree, fs.sfree, fs.InUse(), Shot(fs);
    var ino := fs.table[i];
    assert t[i := ino] == t;
    ghost var calls;
    ino, calls := FreeInodeBlocks(fs, i, ino);
    ino := ino.(size := 0, sectors := 0);
    ReleaseKeeps(fs.geo, d, gf, sf, fs.disk, fs.gfree, fs.sfree, t, i, ino);
    ReleaseOthers(fs.geo, d, gf, sf, fs.disk, t, i, ino);
    fs.table := fs.table[i := ino];
    FewerInodes(fs.disk, fs.table, fs.InUse(), i);
    assert forall j :: j in t - {i} && IsDir((t - {i})[j]) ==> t[j] == (t - {i})[j];
    RestKept(d, t, fs.disk, fs.table, i);
    LessKept(a, Snap(fs.disk, fs.table, fs.InUse()), i);
    fs.table := fs.table - {i};
    assert t[i := ino] - {i} == t - {i};
  }

  /** Inode i gives its blocks back and goes. */
  lemma LessKept(a: Snap, b: Snap, i: nat)
    requires i in a.t && OthersKept(a.d, a.t, b.d, b.t, i) && b.u == a.u - Owned(a.d, a.t[i].ptr)
    requires forall j :: j in a.t && j != i ==> Owned(b.d, b.t[j].ptr) == Owned(a.d, a.t[j].ptr)
    ensures Kept(a, Snap(b.d, b.t - {i}, b.u), {i}, true)
  {
    KeptOthers(a.d, a.t, b.d, b.t, i);
    LessBalanced(a.d, a.t, a.u, b.d, b.t, b.u, i);
    hide Balanced, Owned;
    var t' := b.t - {i};
    forall j | j in a.t && j !in {i} ensures j in t' && SameFile(a.d, a.t, b.d, t', j) {
      assert SameFile(a.d, a.t, b.d, b.t, j);
      forall k: nat | k < MAXBYTES ensures FileByte(b.d, t', j, k) == FileByte(b.d, b.t, j, k) {}
    }
  }

  lemma LessBalanced(d: Disk, t: Table, u: set<nat>, d': Disk, t': Table, u': set<nat>, i: nat)
    requires i in t && t'.Keys == t.Keys && u' == u - Owned(d, t[i].ptr)
    requires forall j :: j in t && j != i ==> t'[j] == t[j] && Owned(d', t'[j].ptr) == Owned(d, t[j].ptr)
    ensures Balanced(d, t, u) ==> Balanced(d', t' - {i}, u')
  {
    hide Owned;
    forall x | x in u' && HasOwner(d, t, x) ensures HasOwner(d', t' - {i}, x) {
      var j :| j in t && x in Owned(d, t[j].ptr);
      assert j in t' - {i} && x in Owned(d', (t' - {i})[j].ptr);
    }
  }

  lemma ReleaseOthers(g: Geo, d: Disk, gf: seq<nat>, sf: nat, d': Disk, t: Table, i: nat, ino': Inode)
    requires CountsOk(g, d, gf, sf) && i in t && |d'| == |d| && Consistent(d, t, Used(g, d))
    requires forall y :: 0 <= y < |d| && y !in g.bitmap ==> d'[y] == d[y]
    requires forall j, p :: j in t && j != i && Valid(p) ==> At(d', t[j].ptr, p) == At(d, t[j].ptr, p)
    ensures OthersKept(d, t, d', t[i := ino'], i)
  {
    forall j: nat, b: nat | j in t && j != i && b < MAXBLOCKS
      ensures SameBlockAt(d, t[j].ptr, d', t[j].ptr, b)
    {
      SlotHeld(d, t, Used(g, d), j, PathOf(b));
      assert At(d', t[j].ptr, PathOf(b)) == At(d, t[j].ptr, PathOf(b));
    }
  }

  // ----- a new directory -----

  /** The first block of a new directory: "." spanning 12 bytes, ".." spanning the rest. */
  method DotBlock(i: nat, parent: nat) returns (b: Block)
    requires 0 < i < U32 && 0 < parent < U32
    ensures Tiled(b, 0) && Live(b, 0) == [Ent(i, N.DOT, FT_DIR), Ent(parent, N.DOTDOT, FT_DIR)]
  {
    hide Ino, Rec;
    var dot, dotdot := Ent(i, N.DOT, FT_DIR), Ent(parent, N.DOTDOT, FT_DIR);
    b := PutEnt(Zeros(), 0, dot, 12);
    ghost var b1 := b;
    b := PutEnt(b, 12, dotdot, 1012);
    assert Tiled(b, 1024);
    LiveEnd(b);
    StoredLive(b, 12, dotdot, 1012);
    assert [dotdot] + Live(b, 1024) == [dotdot];
    FirstStays(b1, b, dot);
    StoredLive(b, 0, dot, 12);
    assert [dot] + [dotdot] == [dot, dotdot];
  }

  /** Storing past an entry leaves it stored. */
  lemma FirstStays(b: Block, b': Block, e: Ent)
    requires Stored(b, 0, e, 12) && |e.name| <= 4 && Same(b, b', 0, 12)
    ensures Stored(b', 0, e, 12)
  {
    assert b'[8..8 + |e.name|] == b[8..8 + |e.name|];
  }

  lemma OthersRetype(d: Disk, t: Table, d': Disk, t': Table, i: nat, ino: Inode)
    requires OthersKept(d, t, d', t', i) && i in t
    ensures OthersKept(d, t, d', t'[i := ino], i)
  {
  }

  /** A directory of one block lists that block. */
  lemma OneBlockDir(d: Disk, ino: Inode)
    requires ino.size == BLOCK && var x := Map(d, ino.ptr, 0); 0 < x < |d| && Tiled(d[x], 0)
    ensures DirOk(d, ino)
    ensures Entries(d, ino) == Head(d, ino) == Live(d[Map(d, ino.ptr, 0)], 0)
  {
    hide Map, Tiled, Live;
    assert BlockOk(d, ino.ptr, 0);
    assert List(d, ino.ptr, 0, 1) == List(d, ino.ptr, 0, 0) + BlockList(d, ino.ptr, 0);
  }

  /** The directory half of ext2_create: an inode with two links and one block holding "." and
      ".."; fails only when the disk is full. */
  method NewDir(fs: Ext2, i: nat, ino0: Inode, parent: nat) returns (ok: bool)
    requires Sane(fs) && i !in fs.table && 0 < i < U32 && 0 < parent < U32
    requires IsDir(ino0) && Empty(ino0.ptr) && ino0.sectors == 0
    modifies fs`disk, fs`gfree, fs`sfree, fs`table
    ensures Sane(fs)
    ensures !ok ==> V(fs) == old(V(fs)) && U(fs) == old(U(fs)) && fs.table == old(fs.table) && fs.sfree == 0
    ensures ok ==>
      && V(fs) == old(V(fs))[i := [Ent(i, N.DOT, FT_DIR), Ent(parent, N.DOTDOT, FT_DIR)]]
      && U(fs) == old(U(fs))[i := parent]
      && i in fs.table && fs.table == old(fs.table)[i := fs.table[i]]
      && IsDir(fs.table[i]) && fs.table[i].links == ino0.links
    ensures Kept(old(Shot(fs)), Shot(fs), {}, ok) && old(fs.InUse()) <= fs.InUse()
    ensures ok ==> Owned(fs.disk, fs.table[i].ptr) !! old(fs.InUse())
    ensures ok ==> fs.table[i] == ino0.(ptr := fs.table[i].ptr, sectors := 2, size := BLOCK)
    ensures ok ==> OneBlock(fs.disk, fs.table[i].ptr)
  {
    hide CountsOk, Consistent, DirOk, Entries, Head, OthersKept, Find, Extends, Tiled, Live, Map, Kept, Balanced, Owned, Booked, OneBlock;
    ghost var d, t, u, a := fs.disk, fs.table, fs.InUse(), Shot(fs);
    EmptyInode(d, t, u, i, ino0);
    ghost var t0: Table := t[i := ino0];
    assert t0 - {i} == t;
    var ino, db := BmapAlloc(fs, i, ino0, 0);
    ghost var d1, u1 := fs.disk, fs.InUse();
    ghost var t1: Table := t0[i := ino];
    assert t1 == fs.table[i := ino] && t1 - {i} == t;
    ExtendsInode(d, t0, u, d1, ino, u1, i, PathOf(0));
    GrowOthers(d, t0, u, d1, ino, u1, i, PathOf(0));
    ghost var p0 := PathOf(0);
    EmptyBalanced(d, t, u, i, ino0);
    GrowBooked(d, t0, u, d1, ino, u1, i, p0);
    NewOwns(d, t0, u, d1, ino, u1, i, p0);
    if db == 0 {
      KeptNew(a, t0, d1, t1, t, u1, i, false);
      FewerInodes(d1, t1, u1, i);
      RestKept(d, t0, d1, t1, i);
      return false;
    }
    InDisk(d1, t1, u1, i, 0);
    FirstOnly(d, t0, u, d1, ino, u1, i);
    DataNotMeta(fs, t1, i, 0);
    var blk := DotBlock(i, parent);
    WriteKeepsCounts(fs.geo, d1, fs.gfree, fs.sfree, db, blk);
    fs.disk := fs.disk[db := blk];
    FirstBlock(d, t0, d1, t1, u1, i, blk, fs.disk);
    assert OneBlock(fs.disk, ino.ptr) by { SameOneBlock(d1, fs.disk, ino.ptr); }
    ino := ino.(size := BLOCK);
    OthersRetype(d, t0, fs.disk, t1, i, ino);
    SamePtrs(fs.disk, t1, t1[i := ino], u1);
    assert t1[i := ino] == fs.table[i := ino];
    BookedWide(d, t0, u, d1, t1, fs.disk, t1[i := ino], u1, i);
    BookedNew(d, t, t0, u, fs.disk, t1[i := ino], u1, i);
    KeptNew(a, t0, fs.disk, t1[i := ino], t1[i := ino], u1, i, true);
    OneBlockDir(fs.disk, ino);
    fs.table := fs.table[i := ino];
    OneChanged(d, t0, fs.disk, fs.table, i);
    FindDotDot(i, parent);
    return true;
  }

  /** One direct block and nothing else. */
  predicate OneBlock(d: Disk, ptr: Ptrs) {
    0 < ptr[0] < |d| && forall k :: 0 < k < 15 ==> ptr[k] == 0
  }

  lemma {:induction false} OneBlockSlots(d: Disk, ptr: Ptrs, p: Path)
    requires OneBlock(d, ptr) && Valid(p) && p != Root(0)
    ensures At(d, ptr, p) == 0
  {
    match p
    case Root(_) =>
    case Child(q, _) => OneBlockSlots(d, ptr, q);
  }

  lemma OneBlockOwned(d: Disk, ptr: Ptrs)
    requires OneBlock(d, ptr)
    ensures Owned(d, ptr) == {ptr[0]}
  {
    forall p | Valid(p) && p != Root(0) ensures At(d, ptr, p) == 0 { OneBlockSlots(d, ptr, p); }
    assert Valid(Root(0)) && At(d, ptr, Root(0)) == ptr[0];
  }

  lemma SameOneBlock(d: Disk, d': Disk, ptr: Ptrs)
    requires OneBlock(d, ptr) && |d'| == |d|
    ensures OneBlock(d', ptr)
  {
  }

  /** The first block of an empty inode is its only one. */
  lemma FirstOnly(d: Disk, t: Table, u: set<nat>, d': Disk, ino': Inode, u': set<nat>, i: nat)
    requires i in t && Extends(d, t, u, d', ino', u', i, PathOf(0)) && Empty(t[i].ptr) && t[i].sectors == 0
    requires 0 < Map(d', ino'.ptr, 0) < |d'|
    ensures OneBlock(d', ino'.ptr) && ino'.sectors == 2
  {
    forall p | Valid(p) ensures At(d, t[i].ptr, p) == 0 { NoSlots(d, t[i].ptr, p); }
    assert Map(d', ino'.ptr, 0) == At(d', ino'.ptr, Root(0)) == ino'.ptr[0];
    forall k | 0 < k < 15 ensures ino'.ptr[k] == 0 {
      assert Valid(Root(k)) && !Above(Root(k), Root(0)) && At(d', ino'.ptr, Root(k)) == ino'.ptr[k];
    }
    OneBlockOwned(d', ino'.ptr);
    assert Owned(d, t[i].ptr) == {} && Owned(d', ino'.ptr) - {} == {ino'.ptr[0]};
  }

  /** Nothing that was there before a new inode changed, whether it stays or not. */
  lemma KeptNew(a: Snap, t0: Table, d': Disk, t1: Table, t': Table, u': set<nat>, i: nat, ok: bool)
    requires i !in a.t && t0 - {i} == a.t && i in t0 && OthersKept(a.d, t0, d', t1, i) && (t' == t1 || t' == t1 - {i})
    requires ok ==> (Balanced(a.d, a.t, a.u) ==> Balanced(d', t', u'))
    ensures Kept(a, Snap(d', t', u'), {}, ok)
  {
    hide Balanced, Owned;
    KeptOthers(a.d, t0, d', t1, i);
    forall j | j in a.t ensures j in t' && SameFile(a.d, a.t, d', t', j) {
      assert j in t0 - {i} && j != i && t0[j] == a.t[j] && SameFile(a.d, t0, d', t1, j);
      forall k: nat | k < MAXBYTES
        ensures FileByte(d', t', j, k) == FileByte(d', t1, j, k) && FileByte(a.d, a.t, j, k) == FileByte(a.d, t0, j, k)
      {
      }
    }
  }

  lemma NewOwns(d: Disk, t: Table, u: set<nat>, d': Disk, ino': Inode, u': set<nat>, i: nat, p: Path)
    requires i in t && Extends(d, t, u, d', ino', u', i, p) && Owned(d, t[i].ptr) == {}
    ensures Owned(d', ino'.ptr) !! u
  {
    hide Owned;
    assert Owned(d', ino'.ptr) - {} == Owned(d', ino'.ptr);
  }

  lemma BookedNew(d: Disk, t: Table, t0: Table, u: set<nat>, d': Disk, t': Table, u': set<nat>, i: nat)
    requires i in t0 && i in t' && Booked(d, t0, u, d', t', u', i) && (Balanced(d, t, u) ==> Balanced(d, t0, u))
    ensures Balanced(d, t, u) ==> Balanced(d', t', u')
    ensures u <= u'
  {
    hide Balanced, Owned;
  }

  lemma FindDotDot(i: nat, parent: nat)
    ensures Find([Ent(i, N.DOT, FT_DIR), Ent(parent, N.DOTDOT, FT_DIR)], N.DOTDOT) == parent
  {
  }

  lemma FirstBlock(d: Disk, t0: Table, d1: Disk, t1: Table, u1: set<nat>, i: nat, blk: Block, d2: Disk)
    requires OthersKept(d, t0, d1, t1, i) && Consistent(d1, t1, u1) && i in t1
    requires 0 < Map(d1, t1[i].ptr, 0) < |d1| && d2 == d1[Map(d1, t1[i].ptr, 0) := blk]
    ensures Consistent(d2, t1, u1) && OthersKept(d, t0, d2, t1, i)
    ensures Map(d2, t1[i].ptr, 0) == Map(d1, t1[i].ptr, 0)
    ensures forall j :: j in t1 ==> Owned(d2, t1[j].ptr) == Owned(d1, t1[j].ptr)
  {
    DataSlots(d1, t1, u1, i, 0, blk, d2);
    DataOthers(d1, t1, u1, i, 0, blk, d2);
    OthersTrans(d, t0, d1, t1, d2, t1, i);
  }

  // ----- ".." -----

  /** A name found in the first block is found there first. */
  lemma HeadFirst(d: Disk, ino: Inode, name: seq<Byte>)
    requires DirOk(d, ino) && ino.size > 0 && Find(Head(d, ino), name) != 0
    ensures Find(Entries(d, ino), name) == Find(Head(d, ino), name) && !Absent(Head(d, ino), name)
  {
    hide BlockOk, BlockList, List;
    ListSplit(d, ino.ptr, 0, 1, Blocks(ino.size));
    HeadList(d, ino);
    FindConcat(Head(d, ino), List(d, ino.ptr, 1, Blocks(ino.size)), name);
    if Absent(Head(d, ino), name) { FindAbsent(Head(d, ino), name); }
  }

  lemma HeadList(d: Disk, ino: Inode)
    requires DirOk(d, ino) && ino.size > 0
    ensures List(d, ino.ptr, 0, 1) == Head(d, ino) && List(d, ino.ptr, 0, 0) == []
  {
    hide BlockList;
    assert List(d, ino.ptr, 0, 1) == List(d, ino.ptr, 0, 0) + BlockList(d, ino.ptr, 0);
  }

  lemma RetargetInside(l: seq<Ent>, c: seq<Ent>, name: seq<Byte>, ino: nat, l': seq<Ent>)
    requires Retargets(l, name, ino, l')
    ensures Retargets(l + c, name, ino, l' + c)
    ensures Find(l', name) == ino
  {
    var k: nat :| RetargetedAt(l, name, ino, l', k);
    assert (l + c)[..k] == l[..k];
    assert RetargetedAt(l + c, name, ino, l' + c, k);
    assert l' == l'[..k] + l'[k..] && l'[..k] == l[..k];
    FindConcat(l'[..k], l'[k..], name);
  }

  /** Retargeting ".." inside the first block, seen on the whole directory. */
  lemma DotDotEdited(d: Disk, t: Table, u: set<nat>, c: nat, parent: nat, blk: Block, d': Disk)
    requires Consistent(d, t, u) && c in t && DirOk(d, t[c]) && t[c].size > 0 && Tiled(blk, 0)
    requires 0 < Map(d, t[c].ptr, 0) < |d| && d' == d[Map(d, t[c].ptr, 0) := blk]
    requires Retargets(Head(d, t[c]), N.DOTDOT, parent, Live(blk, 0))
    ensures Consistent(d', t, u) && DirOk(d', t[c]) && OthersKept(d, t, d', t, c)
    ensures Retargets(Entries(d, t[c]), N.DOTDOT, parent, Entries(d', t[c]))
    ensures Find(Head(d', t[c]), N.DOTDOT) == parent
    ensures forall i :: i in t ==> Owned(d', t[i].ptr) == Owned(d, t[i].ptr)
  {
    hide Consistent, OthersKept, Find, Tiled, Live, Map, Retargets, List, RangeOk, Owned;
    HeadBlock(d, t[c]);
    EditBlock(d, t, u, c, 0, blk, d');
    HeadList(d, t[c]);
    ghost var rest := List(d, t[c].ptr, 1, Blocks(t[c].size));
    RetargetInside(Head(d, t[c]), rest, N.DOTDOT, parent, Live(blk, 0));
    assert [] + Head(d, t[c]) + rest == Head(d, t[c]) + rest;
    assert [] + Live(blk, 0) + rest == Live(blk, 0) + rest;
  }

  /** update_dotdot: the first ".." of the first block points at the new parent. */
  method UpdateDotDot(fs: Ext2, c: nat, parent: nat) returns (r: int)
    requires Sane(fs) && c in U(fs) && U(fs)[c] != 0 && 0 < parent < U32
    modifies fs`disk
    ensures r == 0
    ensures Sane(fs) && c in old(V(fs)) && c in V(fs)
    ensures Find(old(V(fs))[c], N.DOTDOT) == old(U(fs))[c]
    ensures Retargets(old(V(fs))[c], N.DOTDOT, parent, V(fs)[c])
    ensures V(fs) == old(V(fs))[c := V(fs)[c]] && U(fs) == old(U(fs))[c := parent]
    ensures Kept(old(Shot(fs)), Shot(fs), {c}, true) && fs.InUse() == old(fs.InUse())
  {
    hide Kept, CountsOk, Consistent, Entries, Owned, OthersKept, Find, Tiled, Live, Map, Retargets, List, RangeOk, Absent, DirOk,
      DirsOk, ViewOf, UpOf, Head, Booked;
    DirIn(fs, c);
    ghost var d, t, u, a := fs.disk, fs.table, fs.InUse(), Shot(fs);
    var ino := fs.table[c];
    HeadFirst(d, ino, N.DOTDOT);
    WithoutDir(d, t, c);
    HeadBlock(d, ino);
    var phys := Bmap(fs, ino, 0);
    if phys == 0 || phys >= |fs.disk| { AbsentNil(N.DOTDOT); return -1; }
    var ok, blk := RetargetInBlock(fs.disk[phys], N.DOTDOT, parent);
    if !ok { return -1; }
    DataNotMeta(fs, t, c, 0);
    WriteKeepsCounts(fs.geo, d, fs.gfree, fs.sfree, phys, blk);
    fs.disk := fs.disk[phys := blk];
    DotDotEdited(d, t, u, c, parent, blk, fs.disk);
    SlackBooked(d, t, fs.disk, u, c);
    KeptBy(a, Snap(fs.disk, t, u), c, true);
    OneChanged(d, t, fs.disk, fs.table, c);
    return 0;
  }

  lemma AbsentNil(name: seq<Byte>)
    ensures Absent([], name)
  {
  }

  lemma HeadBlock(d: Disk, ino: Inode)
    requires DirOk(d, ino) && ino.size > 0
    ensures 0 < Blocks(ino.size) <= MAXBLOCKS && BlockOk(d, ino.ptr, 0) && RangeOk(d, ino.ptr, 1, Blocks(ino.size))
    ensures Head(d, ino) == BlockList(d, ino.ptr, 0)
  {
    assert BlockOk(d, ino.ptr, 0);
  }
}
