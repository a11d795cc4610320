/** ext2_create, ext2_symlink, ext2_link: each keeps the block accounts, the tiling of every directory
    and every link count exact, whether it succeeds or not, and touches no inode and no file it does not
    name. A count at 65535 is the exception. */
module Ext2Names {
  import opened Bytes
  import opened Ext2Tree
  import opened Ext2Alloc
  import opened Ext2Map
  import opened Ext2Free
  import opened Ext2File
  import opened Ext2DirBlock
  import opened Ext2Dir
  import opened Ext2Volume
  import opened Ext2Steps
  import opened Ext2Symlink
  import N = Ext2Namespace

  const MAX_LINKS: nat := 65535

  /** A directory entry holds at most 255 bytes of a name. */
  function Trunc(name: seq<Byte>): seq<Byte> {
    if |name| > 255 then name[..255] else name
  }

  function NewInode(mode: nat, links: U16): Inode {
    Inode(mode, links, 0, 0, seq(15, _ => 0))
  }

  // ----- the invariant, as the steps see it -----

  ghost predicate Apart(vol: Volume)
    reads vol, vol.fs
  {
    vol.fs.table.Keys !! vol.syms.Keys && 1 <= vol.firstIno && vol.icount < U32
  }

  ghost predicate NamesFit(vol: Volume)
    requires DirsOk(vol.fs.disk, vol.fs.table)
    reads vol, vol.fs
  {
    N.NamesOk(V(vol.fs), vol.Links(), U(vol.fs), vol.icount + 1)
  }

  lemma NamedIs(vol: Volume)
    ensures vol.Named() <==> DirsOk(vol.fs.disk, vol.fs.table) && Apart(vol) && NamesFit(vol)
    ensures vol.Inv() <==> Sane(vol.fs) && vol.Named()
  {
  }

  // ----- link counts of a changed table -----

  lemma LinksSet(t: Table, syms: map<nat, Sym>, i: nat, ino: Inode)
    requires i !in syms
    ensures LinksOf(t[i := ino], syms) == LinksOf(t, syms)[i := ino.links]
  {
  }

  lemma SameLinks(t: Table, syms: map<nat, Sym>, i: nat, ino: Inode)
    requires i in t && i !in syms && ino.links == t[i].links
    ensures LinksOf(t[i := ino], syms) == LinksOf(t, syms)
  {
  }

  lemma LinksGone(t: Table, syms: map<nat, Sym>, i: nat)
    requires i !in syms
    ensures LinksOf(t - {i}, syms) == LinksOf(t, syms) - {i}
  {
  }

  lemma LinksSym(t: Table, syms: map<nat, Sym>, i: nat, s: Sym)
    ensures LinksOf(t, syms[i := s]) == LinksOf(t, syms)[i := s.links]
  {
  }

  lemma SymGone(t: Table, syms: map<nat, Sym>, i: nat)
    requires i !in t
    ensures LinksOf(t, syms - {i}) == LinksOf(t, syms) - {i}
  {
  }

  lemma LinksAt(t: Table, syms: map<nat, Sym>, x: nat)
    requires x in t && x !in syms
    ensures x in LinksOf(t, syms) && LinksOf(t, syms)[x] == t[x].links
  {
  }

  /** Which inodes are directories, and which are allocated. */
  lemma Keys(d: Disk, t: Table, syms: map<nat, Sym>)
    requires DirsOk(d, t)
    ensures forall i :: i in ViewOf(d, t) <==> i in t && IsDir(t[i])
    ensures forall i :: i in UpOf(d, t) <==> i in t && IsDir(t[i])
    ensures forall i :: i in LinksOf(t, syms) <==> i in t || i in syms
    ensures forall i :: i in t && i !in syms ==> LinksOf(t, syms)[i] == t[i].links
    ensures forall i :: i in syms ==> LinksOf(t, syms)[i] == syms[i].links
  {
  }

  /** The list of d has one entry more. */
  ghost predicate Entered(v: N.View, d: nat, e: Ent, v': N.View) {
    d in v && d in v' && Inserts(v[d], e, v'[d]) && forall b :: b in v && b != d ==> b in v' && v'[b] == v[b]
  }

  /** Directory d may have grown; its mode is what it was, and its link count is the one given. */
  predicate Grown(t: Table, t': Table, d: nat, links: nat) {
    && d in t && d in t'
    && t'[d] == t[d].(ptr := t'[d].ptr, sectors := t'[d].sectors, size := t'[d].size, links := t'[d].links)
    && t'[d].links == links
  }

  // ----- create -----

  function Dots(r: nat, d: nat): seq<Ent> {
    [Ent(r, N.DOT, FT_DIR), Ent(d, N.DOTDOT, FT_DIR)]
  }

  /** A new file is empty and has one link; a new directory has one block and two links. */
  predicate Fresh(ino: Inode, isDir: bool) {
    if isDir then
      && ino == NewInode(MODE_DIR, 2).(ptr := ino.ptr, sectors := 2, size := BLOCK)
      && ino.ptr[0] != 0 && forall k :: 0 < k < 15 ==> ino.ptr[k] == 0
    else ino == NewInode(MODE_REG, 1)
  }

  /** What a caller finds in the new inode. */
  lemma FreshMeans(fs: Ext2, r: nat, isDir: bool)
    requires Sane(fs) && r in fs.table && Fresh(fs.table[r], isDir)
    ensures var f, d := fs.table[r], fs.disk;
      if isDir then
        && f.mode == 0x41ED && f.mode / 0x1000 == 4 && f.links == 2 && f.size == 1024 && f.sectors == 2
        && 0 < f.ptr[0] < |d| && (forall k :: 0 < k < 15 ==> f.ptr[k] == 0) && Owned(d, f.ptr) == {f.ptr[0]}
      else
        && f.mode == 0x81A4 && f.mode / 0x1000 == 8 && f.links == 1 && f.size == 0 && f.sectors == 0
        && (forall k :: 0 <= k < 15 ==> f.ptr[k] == 0) && Owned(d, f.ptr) == {} && Content(d, f) == []
  {
    if isDir {
      SlotHeld(fs.disk, fs.table, fs.InUse(), r, Root(0));
      OneBlockOwned(fs.disk, fs.table[r].ptr);
    } else {
      NoBlocks(fs.disk);
    }
  }

  /** The inode half of ext2_create; a directory gets its first block. */
  method MakeInode(fs: Ext2, i: nat, d: nat, isDir: bool) returns (ok: bool)
    requires Sane(fs) && i !in fs.table && 0 < i < U32 && 0 < d < U32
    modifies fs`disk, fs`gfree, fs`sfree, fs`table
    ensures Sane(fs) && Kept(old(Shot(fs)), Shot(fs), {}, ok) && old(fs.InUse()) <= fs.InUse()
    ensures !ok ==> V(fs) == old(V(fs)) && U(fs) == old(U(fs)) && fs.table == old(fs.table) && fs.sfree == 0
    ensures ok ==>
      && i in fs.table && fs.table == old(fs.table)[i := fs.table[i]]
      && Fresh(fs.table[i], isDir) && IsDir(fs.table[i]) == isDir && Owned(fs.disk, fs.table[i].ptr) !! old(fs.InUse())
      && V(fs) == (if isDir then old(V(fs))[i := Dots(i, d)] else old(V(fs)))
      && U(fs) == (if isDir then old(U(fs))[i := d] else old(U(fs)))
  {
    hide Mounted, DirsOk, ViewOf, UpOf, Kept, Owned, IsDir, Ext2.Counts;
    IsDirNew();
    if isDir {
      ok := NewDir(fs, i, NewInode(MODE_DIR, 2), d);
    } else {
      NewFile(fs, i, NewInode(MODE_REG, 1));
      NoBlocks(fs.disk);
      ok := true;
    }
  }

  lemma IsDirNew()
    ensures IsDir(NewInode(MODE_DIR, 2)) && !IsDir(NewInode(MODE_REG, 1))
    ensures Empty(NewInode(MODE_DIR, 2).ptr) && Empty(NewInode(MODE_REG, 1).ptr)
  {
  }

  lemma NoBlocks(d: Disk)
    ensures Owned(d, NewInode(MODE_REG, 1).ptr) == {}
  {
    EmptyBalanced(d, map[], {}, 0, NewInode(MODE_REG, 1));
  }

  /** The new inode is given up: its blocks go back, and no block that was used before goes with them. */
  method Undo(fs: Ext2, i: nat, ghost v: N.View, ghost u: map<nat, nat>, ghost used: set<nat>)
    requires Sane(fs) && i in fs.table && i !in v && i !in u
    requires if IsDir(fs.table[i]) then V(fs) - {i} == v && U(fs) - {i} == u else V(fs) == v && U(fs) == u
    requires used <= fs.InUse() && Owned(fs.disk, fs.table[i].ptr) !! used
    modifies fs`disk, fs`gfree, fs`sfree, fs`table, fs`log
    ensures Sane(fs) && V(fs) == v && U(fs) == u && fs.table == old(fs.table) - {i} && used <= fs.InUse()
    ensures Kept(old(Shot(fs)), Shot(fs), {i}, true)
  {
    hide Mounted, DirsOk, ViewOf, UpOf, Kept, Owned, IsDir, Ext2.Counts;
    if IsDir(fs.table[i]) { WithoutDir(fs.disk, fs.table, i); } else { WithoutFile(fs.disk, fs.table, i); }
    ReleaseInode(fs, i);
  }

  lemma KeptOld(a: Snap, b: Snap, s: set<nat>, i: nat, ok: bool)
    requires Kept(a, b, s + {i}, ok) && i !in a.t
    ensures Kept(a, b, s, ok)
  {
    hide Squared, SameFile;
  }

  /** A new inode and its entry, or neither. */
  method MakeNamed(fs: Ext2, dinum: nat, e: Ent, isDir: bool) returns (ok: bool)
    requires Sane(fs) && HasRoom(fs, dinum) && e.ino !in fs.table && 0 < e.ino < U32 && 0 < dinum < U32
    requires |e.name| <= 255 && N.IsName(e.name)
    modifies fs`disk, fs`gfree, fs`sfree, fs`table, fs`log
    ensures Sane(fs) && Kept(old(Shot(fs)), Shot(fs), {dinum}, ok) && old(fs.InUse()) <= fs.InUse()
    ensures !ok ==> V(fs) == old(V(fs)) && U(fs) == old(U(fs)) && fs.table == old(fs.table)
    ensures ok ==>
      && e.ino in fs.table && Fresh(fs.table[e.ino], isDir)
      && Grown(old(fs.table), fs.table, dinum, old(fs.table)[dinum].links)
      && fs.table == old(fs.table)[e.ino := fs.table[e.ino]][dinum := fs.table[dinum]]
      && dinum in old(V(fs)) && dinum in V(fs) && Inserts(old(V(fs))[dinum], e, V(fs)[dinum])
      && V(fs) == (if isDir then old(V(fs))[e.ino := Dots(e.ino, dinum)] else old(V(fs)))[dinum := V(fs)[dinum]]
      && U(fs) == (if isDir then old(U(fs))[e.ino := dinum] else old(U(fs)))
  {
    hide Mounted, DirsOk, Inserts, ViewOf, UpOf, N.IsName, IsDir, Ext2.Counts, Fresh, Kept, Owned, OthersOwn;
    DirIn(fs, dinum);
    DirIn(fs, e.ino);
    ghost var v, u, t, a := V(fs), U(fs), fs.table, Shot(fs);
    ok := MakeInode(fs, e.ino, dinum, isDir);
    ghost var t1, b := fs.table, Shot(fs);
    if !ok {
      KeptWider(a, b, {}, {dinum}, false, false);
      return;
    }
    ok := AddName(fs, dinum, e);
    ghost var c := Shot(fs);
    if !ok {
      OwnsStill(b.d, t1, c.d, dinum, e.ino);
      Undo(fs, e.ino, v, u, a.u);
      assert t1 - {e.ino} == t;
      GivenUp(a, b, c, Shot(fs), dinum, e.ino);
      return;
    }
    KeptTrans(a, b, c, {}, {dinum}, {dinum}, true);
  }

  /** ext2_create: 0 when no inode or no block is left, and then nothing is named differently. The
      parent's count takes one more link from a new directory, unchecked: the invariant holds if and
      only if that does not wrap. */
  method Create(vol: Volume, dinum: nat, name: seq<Byte>, isDir: bool) returns (r: nat)
    requires vol.Inv() && HasRoom(vol.fs, dinum) && N.IsName(name)
    modifies vol.fs`disk, vol.fs`gfree, vol.fs`sfree, vol.fs`table, vol.fs`log
    ensures Sane(vol.fs) && (vol.Inv() <==> !(r != 0 && isDir && old(vol.fs.table)[dinum].links == MAX_LINKS))
    ensures Kept(old(Shot(vol.fs)), Shot(vol.fs), {dinum}, r != 0) && old(vol.fs.InUse()) <= vol.fs.InUse()
    ensures r == 0 ==> V(vol.fs) == old(V(vol.fs)) && vol.fs.table == old(vol.fs.table)
    ensures r != 0 ==>
      var e, t := Ent(r, if |name| > 255 then name[..255] else name, if isDir then 2 else 1), old(vol.fs.table);
      && r !in old(vol.Links()) && vol.firstIno <= r <= vol.icount && r in vol.fs.table && Fresh(vol.fs.table[r], isDir)
      && Grown(t, vol.fs.table, dinum, if isDir then N.Bumped(t[dinum].links) else t[dinum].links)
      && vol.fs.table == t[r := vol.fs.table[r]][dinum := vol.fs.table[dinum]]
      && Entered(old(V(vol.fs)), dinum, e, V(vol.fs))
      && V(vol.fs) == (if isDir then old(V(vol.fs))[r := Dots(r, dinum)] else old(V(vol.fs)))[dinum := V(vol.fs)[dinum]]
    ensures r != 0 ==>
      var f, d := vol.fs.table[r], vol.fs.disk;
      if isDir then
        && f.mode == 0x41ED && f.mode / 0x1000 == 4 && f.links == 2 && f.size == 1024 && f.sectors == 2
        && 0 < f.ptr[0] < |d| && (forall k :: 0 < k < 15 ==> f.ptr[k] == 0) && Owned(d, f.ptr) == {f.ptr[0]}
      else
        && f.mode == 0x81A4 && f.mode / 0x1000 == 8 && f.links == 1 && f.size == 0 && f.sectors == 0
        && (forall k :: 0 <= k < 15 ==> f.ptr[k] == 0) && Owned(d, f.ptr) == {} && Content(d, f) == []
    ensures r != 0 && isDir ==> r in V(vol.fs) && V(vol.fs)[r] == [Ent(r, [0x2E], 2), Ent(dinum, [0x2E, 0x2E], 2)]
  {
    hide N.NamesOk, Mounted, DirsOk, Inserts, ViewOf, UpOf, LinksOf, Find, Trunc, N.IsName, IsDir, Ext2.Counts, Fresh, Kept,
      Owned, OthersOwn, Volume.Inv, Volume.Named, N.Bumped;
    var fs := vol.fs;
    NamedIs(vol);
    Keys(fs.disk, fs.table, vol.syms);
    ghost var v, u, l, n, t, a := V(fs), U(fs), vol.Links(), vol.icount + 1, fs.table, Shot(fs);
    var inum := vol.AllocInode();
    if inum == 0 { KeptRefl(a, {dinum}, false); return 0; }
    KeyBounds(v, l, u, n, dinum);
    TruncIsName(name);
    TruncIs(name);
    var e := Ent(inum, Trunc(name), if isDir then FT_DIR else FT_REG);
    var ok := MakeNamed(fs, dinum, e, isDir);
    if !ok {
      NamedIs(vol);
      return 0;
    }
    ghost var c := Shot(fs);
    NamedNew(v, if isDir then v[inum := Dots(inum, dinum)] else v, dinum, e, V(fs));
    if isDir {
      SetLinks(fs, dinum, N.Bumped(fs.table[dinum].links));
      KeptTrans(a, c, Shot(fs), {dinum}, {}, {dinum}, true);
      N.DirNamedExactly(v, l, u, n, dinum, e, V(fs)[dinum], Dots(inum, dinum));
    } else {
      N.FileNamed(v, l, u, n, dinum, e, V(fs)[dinum]);
    }
    LinksCreated(t, fs.table, vol.syms, inum, dinum, isDir);
    FreshMeans(fs, inum, isDir);
    NamedIs(vol);
    return inum;
  }

  lemma GivenUp(a: Snap, b: Snap, c: Snap, d: Snap, dinum: nat, i: nat)
    requires Kept(a, b, {}, true) && Kept(b, c, {dinum}, false) && Kept(c, d, {i}, true) && i !in a.t
    ensures Kept(a, d, {dinum}, false)
  {
    hide Kept;
    var s := {dinum} + {i};
    KeptWider(a, b, {}, s, true, false);
    KeptTrans(a, b, c, s, {dinum}, s, false);
    KeptWider(c, d, {i}, s, true, false);
    KeptTrans(a, c, d, s, s, s, false);
    KeptOld(a, d, {dinum}, i, false);
  }

  lemma OwnsStill(d: Disk, t: Table, d': Disk, dinum: nat, i: nat)
    requires OthersOwn(d, t, d', dinum) && i in t && i != dinum
    ensures Owned(d', t[i].ptr) == Owned(d, t[i].ptr)
  {
  }

  lemma LinksCreated(t: Table, t': Table, syms: map<nat, Sym>, r: nat, d: nat, isDir: bool)
    requires d in t && r in t' && d in t' && r !in t && r !in syms && d !in syms && t' == t[r := t'[r]][d := t'[d]]
    requires Fresh(t'[r], isDir)
    ensures d in LinksOf(t, syms) && LinksOf(t, syms)[d] == t[d].links
    ensures LinksOf(t', syms) == LinksOf(t, syms)[r := if isDir then 2 else 1][d := t'[d].links]
    ensures t'[d].links == t[d].links ==> LinksOf(t', syms) == LinksOf(t, syms)[r := if isDir then 2 else 1]
  {
    LinksAt(t, syms, d);
    LinksSet(t, syms, r, t'[r]);
    LinksSet(t[r := t'[r]], syms, d, t'[d]);
    hide LinksOf;
  }

  lemma KeyBounds(v: N.View, l: map<nat, nat>, u: map<nat, nat>, n: nat, d: nat)
    requires N.NamesOk(v, l, u, n) && d in v
    ensures d in l && 0 < d < n && d in u && u[d] in v && u[d] != 0
  {
    assert N.Exact(v, l, n, d) && N.UpIn(v, u, d);
    assert N.Exact(v, l, n, u[d]);
  }

  lemma TruncIsName(name: seq<Byte>)
    requires N.IsName(name)
    ensures N.IsName(Trunc(name)) && |Trunc(name)| <= 255 && (|name| <= 255 ==> Trunc(name) == name)
  {
  }

  lemma TruncIs(name: seq<Byte>)
    ensures Trunc(name) == if |name| > 255 then name[..255] else name
  {
  }

  lemma NamedNew(v0: N.View, v: N.View, d: nat, e: Ent, v': N.View)
    requires d in v0 && d in v && d in v' && v[d] == v0[d] && Inserts(v[d], e, v'[d]) && v' == v[d := v'[d]]
    requires forall b :: b in v0 ==> b in v && v[b] == v0[b]
    ensures Entered(v0, d, e, v')
  {
    hide Inserts;
  }

  // ----- symlink -----

  /** ext2_symlink: fast symlinks only, targets of 1 to 60 bytes. */
  method Symlink(vol: Volume, dinum: nat, name: seq<Byte>, target: seq<Byte>) returns (r: int)
    requires vol.Inv() && HasRoom(vol.fs, dinum) && N.IsName(name)
    modifies vol`syms, vol.fs`disk, vol.fs`gfree, vol.fs`sfree, vol.fs`table
    ensures vol.Inv() && (r == 0 || r == -1) && (|target| == 0 || |target| > 60 ==> r == -1)
    ensures Kept(old(Shot(vol.fs)), Shot(vol.fs), {dinum}, r == 0) && old(vol.fs.InUse()) <= vol.fs.InUse()
    ensures r == -1 ==> V(vol.fs) == old(V(vol.fs)) && vol.fs.table == old(vol.fs.table) && vol.syms == old(vol.syms)
    ensures r == 0 ==>
      && Grown(old(vol.fs.table), vol.fs.table, dinum, old(vol.fs.table)[dinum].links)
      && vol.fs.table == old(vol.fs.table)[dinum := vol.fs.table[dinum]]
      && dinum in V(vol.fs) && V(vol.fs) == old(V(vol.fs))[dinum := V(vol.fs)[dinum]]
      && exists i :: (i !in old(vol.Links()) && |target| <= 60 && vol.syms == old(vol.syms)[i := Sym(1, target)]
        && Entered(old(V(vol.fs)), dinum, Ent(i, if |name| > 255 then name[..255] else name, 7), V(vol.fs)))
  {
    hide N.NamesOk, Mounted, DirsOk, Inserts, ViewOf, UpOf, LinksOf, Trunc, N.IsName, IsDir, Ext2.Counts, Kept, OthersOwn,
      Volume.Inv, Volume.Named;
    var fs := vol.fs;
    NamedIs(vol);
    Keys(fs.disk, fs.table, vol.syms);
    ghost var v, u, l, n, t := V(fs), U(fs), vol.Links(), vol.icount + 1, fs.table;
    KeptRefl(Shot(fs), {dinum}, false);
    if |target| == 0 || |target| > 60 { return -1; }
    var inum := vol.AllocInode();
    if inum == 0 { return -1; }
    KeyBounds(v, l, u, n, dinum);
    TruncIsName(name);
    TruncIs(name);
    var e := Ent(inum, Trunc(name), FT_SYMLINK);
    var ok := AddName(fs, dinum, e);
    if !ok {
      NamedIs(vol);
      return -1;
    }
    SameLinks(t, vol.syms, dinum, fs.table[dinum]);
    N.FileNamed(v, l, u, n, dinum, e, V(fs)[dinum]);
    NamedNew(v, v, dinum, e, V(fs));
    LinksSym(fs.table, vol.syms, inum, Sym(1, target));
    vol.syms := vol.syms[inum := Sym(1, target)];
    NamedIs(vol);
    return 0;
  }

  // ----- link -----

  /** The file type an entry for x records. */
  function TypeOf(t: Table, syms: map<nat, Sym>, x: nat): Byte {
    if x in syms then FT_SYMLINK else if x in t && IsDir(t[x]) then FT_DIR else FT_REG
  }

  lemma LinkBounds(v: N.View, l: map<nat, nat>, u: map<nat, nat>, n: nat, i: nat)
    requires N.NamesOk(v, l, u, n) && i in l
    ensures 0 < i < n && l[i] == N.Refs(v, i, n)
  {
    assert N.Exact(v, l, n, i);
  }

  /** The inodes with one link of x more. */
  function MoreOne(t: Table, x: nat): Table {
    if x in t then t[x := t[x].(links := N.Bumped(t[x].links))] else t
  }

  function MoreSym(syms: map<nat, Sym>, x: nat): map<nat, Sym> {
    if x in syms then syms[x := syms[x].(links := N.Bumped(syms[x].links))] else syms
  }

  /** One more link for a stored inode or a symlink, as the 16-bit field takes it. */
  method AddLink(vol: Volume, i: nat)
    requires Sane(vol.fs) && i in vol.Links() && Apart(vol)
    modifies vol`syms, vol.fs`table
    ensures Sane(vol.fs) && V(vol.fs) == old(V(vol.fs)) && U(vol.fs) == old(U(vol.fs)) && Apart(vol)
    ensures Kept(old(Shot(vol.fs)), Shot(vol.fs), {}, true) && vol.fs.InUse() == old(vol.fs.InUse())
    ensures vol.Links() == old(vol.Links())[i := N.Bumped(old(vol.Links())[i])]
    ensures vol.fs.table == MoreOne(old(vol.fs.table), i) && vol.syms == MoreSym(old(vol.syms), i)
  {
    hide Mounted, DirsOk, ViewOf, UpOf, LinksOf, Kept, Ext2.Counts;
    var fs := vol.fs;
    ghost var t, syms := fs.table, vol.syms;
    Keys(fs.disk, t, syms);
    if i in vol.syms {
      var s := vol.syms[i];
      LinksSym(t, syms, i, s.(links := N.Bumped(s.links)));
      KeptRefl(Shot(fs), {}, true);
      vol.syms := vol.syms[i := s.(links := N.Bumped(s.links))];
    } else {
      SetLinks(fs, i, N.Bumped(fs.table[i].links));
      LinksSet(t, syms, i, fs.table[i]);
    }
  }

  /** ext2_link: one more name for an inode that is not a directory. The count is not checked: the
      invariant holds if and only if it does not wrap. */
  method Link(vol: Volume, dinum: nat, name: seq<Byte>, tinum: nat) returns (r: int)
    requires vol.Inv() && HasRoom(vol.fs, dinum) && N.IsName(name)
    modifies vol`syms, vol.fs`disk, vol.fs`gfree, vol.fs`sfree, vol.fs`table
    ensures Sane(vol.fs) && (r == 0 || r == -1)
    ensures tinum !in old(vol.Links()) || tinum in old(V(vol.fs)) ==> r == -1
    ensures vol.Inv() <==> !(r == 0 && tinum in old(vol.Links()) && old(vol.Links())[tinum] == MAX_LINKS)
    ensures Kept(old(Shot(vol.fs)), Shot(vol.fs), {dinum}, r == 0) && old(vol.fs.InUse()) <= vol.fs.InUse()
    ensures r == -1 ==> V(vol.fs) == old(V(vol.fs)) && vol.fs.table == old(vol.fs.table) && vol.syms == old(vol.syms)
    ensures r == 0 ==>
      && Grown(old(vol.fs.table), vol.fs.table, dinum, old(vol.fs.table)[dinum].links)
      && dinum in V(vol.fs) && V(vol.fs) == old(V(vol.fs))[dinum := V(vol.fs)[dinum]]
      && Entered(old(V(vol.fs)), dinum, Ent(tinum, Trunc(name), TypeOf(old(vol.fs.table), old(vol.syms), tinum)), V(vol.fs))
    ensures r == 0 ==>
      && vol.fs.table == MoreOne(old(vol.fs.table)[dinum := vol.fs.table[dinum]], tinum) && vol.syms == MoreSym(old(vol.syms), tinum)
      && vol.Links() == old(vol.Links())[tinum := N.Bumped(old(vol.Links())[tinum])]
  {
    hide N.NamesOk, Mounted, DirsOk, Inserts, ViewOf, UpOf, LinksOf, Trunc, N.IsName, IsDir, Ext2.Counts, Kept, OthersOwn,
      Volume.Inv, Volume.Named, N.Bumped;
    var fs := vol.fs;
    NamedIs(vol);
    Keys(fs.disk, fs.table, vol.syms);
    ghost var v, u, l, n, t, a := V(fs), U(fs), vol.Links(), vol.icount + 1, fs.table, Shot(fs);
    KeptRefl(a, {dinum}, false);
    if tinum !in fs.table && tinum !in vol.syms { return -1; }
    if tinum in fs.table && IsDir(fs.table[tinum]) { return -1; }
    KeyBounds(v, l, u, n, dinum);
    LinkBounds(v, l, u, n, tinum);
    TruncIsName(name);
    var e := Ent(tinum, Trunc(name), if tinum in vol.syms then FT_SYMLINK else FT_REG);
    assert e.ftype == TypeOf(t, vol.syms, tinum);
    var ok := AddName(fs, dinum, e);
    if !ok {
      NamedIs(vol);
      return -1;
    }
    ghost var b := Shot(fs);
    SameLinks(t, vol.syms, dinum, fs.table[dinum]);
    N.NameAddedExactly(v, l, u, n, dinum, e, V(fs)[dinum]);
    NamedNew(v, v, dinum, e, V(fs));
    AddLink(vol, tinum);
    KeptTrans(a, b, Shot(fs), {dinum}, {}, {dinum}, true);
    NamedIs(vol);
    return 0;
  }
}
