/** ext2_unlink. The last name of a fast symlink is where it can break the block accounts: exactly when
    the target's text, read as block numbers, meets a mark. */
module Ext2Unlink {
  import opened Bytes
  import opened Ext2Tree
  import opened Ext2Alloc
  import opened Ext2Free
  import opened Ext2File
  import opened Ext2DirBlock
  import opened Ext2Dir
  import opened Ext2Volume
  import opened Ext2Steps
  import opened Ext2Symlink
  import opened Ext2Names
  import N = Ext2Namespace

  lemma SaneDir(fs: Ext2, d: nat)
    requires Sane(fs) && d in fs.table && IsDir(fs.table[d])
    ensures DirOk(fs.disk, fs.table[d]) && d in V(fs) && Entries(fs.disk, fs.table[d]) == V(fs)[d]
  {
  }

  /** A name that is found names an allocated inode. */
  lemma Found(v: N.View, l: map<nat, nat>, u: map<nat, nat>, n: nat, d: nat, name: seq<Byte>)
    requires N.NamesOk(v, l, u, n) && d in v && Find(v[d], name) != 0
    ensures Find(v[d], name) in l && l[Find(v[d], name)] > 0
    ensures N.IsName(name) && Find(v[d], name) in v ==> u[Find(v[d], name)] == d
  {
    var x := Find(v[d], name);
    N.FindOcc(v[d], name);
    assert N.Resolved(v, l, d, x) && N.Parented(v, u, d, x) && N.Exact(v, l, n, x) && N.Exact(v, l, n, d);
    N.RefsHas(v, d, x, n);
  }

  /** ".." always names a directory. */
  lemma DotDotIsDir(fs: Ext2, v: N.View, l: map<nat, nat>, u: map<nat, nat>, n: nat, d: nat)
    requires Sane(fs) && N.NamesOk(v, l, u, n) && v == V(fs) && u == U(fs) && d in v
    ensures Find(v[d], N.DOTDOT) in v
  {
    KeyBounds(v, l, u, n, d);
    HeadFirst(fs.disk, fs.table[d], N.DOTDOT);
  }

  ghost predicate LostName(l: seq<Ent>, x: nat, name: seq<Byte>, l': seq<Ent>) {
    exists ft :: Removes(l, Ent(x, name, ft), l')
  }

  /** A name that is found and is not a directory is neither absent nor "..". */
  lemma Present(fs: Ext2, v: N.View, l: map<nat, nat>, u: map<nat, nat>, n: nat, d: nat, name: seq<Byte>)
    requires Sane(fs) && N.NamesOk(v, l, u, n) && v == V(fs) && u == U(fs) && d in v
    requires Find(v[d], name) != 0 && Find(v[d], name) !in v
    ensures name != N.DOTDOT && !Absent(v[d], name)
  {
    hide N.NamesOk, Mounted, DirsOk, Find, Absent;
    if name == N.DOTDOT { DotDotIsDir(fs, v, l, u, n, d); }
    if Absent(v[d], name) { FindAbsent(v[d], name); }
  }

  lemma DroppedBy(l: seq<Ent>, x: nat, name: seq<Byte>, ft: Byte, l': seq<Ent>)
    requires Removes(l, Ent(x, name, ft), l')
    ensures LostName(l, x, name, l')
  {
  }

  /** The inodes with one link of x less. */
  function LessOne(t: Table, x: nat): Table {
    if x !in t then t else if t[x].links <= 1 then t - {x} else t[x := t[x].(links := t[x].links - 1)]
  }

  function LessSym(syms: map<nat, Sym>, x: nat): map<nat, Sym> {
    if x !in syms then syms else if syms[x].links <= 1 then syms - {x} else syms[x := syms[x].(links := syms[x].links - 1)]
  }

  lemma LessLinks(t: Table, syms: map<nat, Sym>, x: nat)
    requires x in LinksOf(t, syms) && t.Keys !! syms.Keys
    ensures LinksOf(LessOne(t, x), LessSym(syms, x)) == N.Unlinked(LinksOf(t, syms), x)
    ensures LessOne(t, x).Keys !! LessSym(syms, x).Keys
  {
    if x in t {
      LinksAt(t, syms, x);
      LinksGone(t, syms, x);
      if t[x].links > 1 { LinksSet(t, syms, x, t[x].(links := t[x].links - 1)); }
    } else {
      SymAt(t, syms, x);
      SymGone(t, syms, x);
      if syms[x].links > 1 { LinksSym(t, syms, x, syms[x].(links := syms[x].links - 1)); }
    }
    hide LinksOf;
  }

  lemma SymAt(t: Table, syms: map<nat, Sym>, x: nat)
    requires x !in t && x in LinksOf(t, syms)
    ensures x in syms && LinksOf(t, syms)[x] == syms[x].links
  {
  }

  /** The stored inode that goes when x loses a link, and the blocks that go with it. */
  function Gone(t: Table, x: nat): set<nat> {
    if x in t && t[x].links <= 1 then {x} else {}
  }

  ghost function GoneBlocks(d: Disk, t: Table, x: nat): set<nat> {
    if x in t && t[x].links <= 1 then Owned(d, t[x].ptr) else {}
  }

  /** x is a symlink with no other name. */
  predicate LastText(syms: map<nat, Sym>, x: nat) {
    x in syms && syms[x].links <= 1
  }

  function TextOf(syms: map<nat, Sym>, x: nat): Text {
    if x in syms then syms[x].target else []
  }

  /** The stored inode's half of unlink: one link less, and the inode freed at zero. */
  method DropFile(fs: Ext2, x: nat)
    requires Sane(fs) && x in fs.table && !IsDir(fs.table[x])
    modifies fs`disk, fs`gfree, fs`sfree, fs`table, fs`log
    ensures Sane(fs) && V(fs) == old(V(fs)) && U(fs) == old(U(fs)) && fs.table == LessOne(old(fs.table), x)
    ensures Kept(old(Shot(fs)), Shot(fs), Gone(old(fs.table), x), true)
    ensures fs.InUse() == old(fs.InUse()) - GoneBlocks(old(fs.disk), old(fs.table), x)
  {
    hide Mounted, DirsOk, Owned, ViewOf, UpOf, Kept, Ext2.Counts;
    if fs.table[x].links <= 1 {
      WithoutFile(fs.disk, fs.table, x);
      ReleaseInode(fs, x);
    } else {
      SetLinks(fs, x, fs.table[x].links - 1);
    }
  }

  /** What the last unlink of a symlink leaves, from state s to state s', with d0 the disk before the
      call: the marks survive if and only if the text was harmless; then the invariant holds, and with
      balanced books only then. */
  ghost predicate TextDrop(g: Geo, d0: Disk, s: State, s': State, target: Text, balanced: bool, inv: bool)
    requires GeoOk(g) && |d0| == |s.d| == |s'.d| == g.blocks
  {
    && (SameMarks(g, d0, s'.d) <==> Harmless(g, s.d, target))
    && (Harmless(g, s.d, target) ==> s' == s && inv)
    && (balanced && !Harmless(g, s.d, target) ==> !inv)
  }

  /** The target's half of unlink. */
  method DropTarget(vol: Volume, x: nat)
    requires Sane(vol.fs) && Apart(vol) && x in vol.Links() && x !in V(vol.fs)
    modifies vol`syms, vol.fs`disk, vol.fs`gfree, vol.fs`sfree, vol.fs`table, vol.fs`log
    ensures vol.fs.table == LessOne(old(vol.fs.table), x) && vol.syms == LessSym(old(vol.syms), x)
    ensures Tallied(vol.fs) && DirsOk(vol.fs.disk, vol.fs.table) && V(vol.fs) == old(V(vol.fs)) && U(vol.fs) == old(U(vol.fs))
    ensures FilesKept(old(vol.fs.disk), old(vol.fs.table), vol.fs.disk, vol.fs.table, Gone(old(vol.fs.table), x))
    ensures !LastText(old(vol.syms), x) ==>
      && Sane(vol.fs) && Kept(old(Shot(vol.fs)), Shot(vol.fs), Gone(old(vol.fs.table), x), true)
      && vol.fs.InUse() == old(vol.fs.InUse()) - GoneBlocks(old(vol.fs.disk), old(vol.fs.table), x)
    ensures LastText(old(vol.syms), x) ==>
      TextDrop(vol.fs.geo, old(vol.fs.disk), old(Now(vol.fs)), Now(vol.fs), TextOf(old(vol.syms), x), old(Squared(Shot(vol.fs))), Mounted(vol.fs))
    ensures LastText(old(vol.syms), x) ==> x !in old(vol.fs.table) && vol.fs.table == old(vol.fs.table)
    ensures LastText(old(vol.syms), x) && Harmless(vol.fs.geo, old(vol.fs.disk), TextOf(old(vol.syms), x)) ==>
      Sane(vol.fs) && Shot(vol.fs) == old(Shot(vol.fs))
  {
    hide DirsOk, Owned, ViewOf, UpOf, LinksOf, FilesKept, Squared, Harmless, SameMarks, CountsOk, Consistent, Tally;
    var fs := vol.fs;
    Keys(fs.disk, fs.table, vol.syms);
    MountedTallied(fs);
    if x in fs.table {
      DropFile(fs, x);
      MountedTallied(fs);
    } else if vol.syms[x].links <= 1 {
      ghost var calls := FreeText(vol, x);
    } else {
      KeptRefl(Shot(fs), {}, true);
      vol.syms := vol.syms[x := vol.syms[x].(links := vol.syms[x].links - 1)];
    }
  }

  lemma TallyMeans(fs: Ext2)
    requires Tallied(fs)
    ensures GeoOk(fs.geo) && |fs.disk| == fs.geo.blocks
  {
  }

  lemma MountedTallied(fs: Ext2)
    requires Mounted(fs)
    ensures Tallied(fs) && GeoOk(fs.geo) && |fs.disk| == fs.geo.blocks && Consistent(fs.disk, fs.table, Used(fs.geo, fs.disk))
  {
  }

  /** The volume at one moment. */
  datatype Moment = Moment(s: State, t: Table, syms: map<nat, Sym>)

  ghost function Here(vol: Volume): Moment
    reads vol, vol.fs
  {
    Moment(Now(vol.fs), vol.fs.table, vol.syms)
  }

  /** What the name leads to, 0 if nothing or if d is no directory. */
  ghost function Hit(m: Moment, d: nat, name: seq<Byte>): nat {
    if DirsOk(m.s.d, m.t) && d in m.t && IsDir(m.t[d]) then Find(ViewOf(m.s.d, m.t)[d], name) else 0
  }

  /** What unlink does to the names, and what it leaves alone; n bounds the inode numbers. */
  ghost predicate Unlinks(a: Moment, b: Moment, d: nat, name: seq<Byte>, n: nat) {
    var x := Hit(a, d, name);
    && DirsOk(a.s.d, a.t) && DirsOk(b.s.d, b.t) && b.t == LessOne(a.t, x) && b.syms == LessSym(a.syms, x)
    && FilesKept(a.s.d, a.t, b.s.d, b.t, {d} + Gone(a.t, x)) && UpOf(b.s.d, b.t) == UpOf(a.s.d, a.t)
    && UnlinkedName(ViewOf(a.s.d, a.t), LinksOf(a.t, a.syms), d, x, name, ViewOf(b.s.d, b.t), LinksOf(b.t, b.syms), n)
  }

  ghost predicate UnlinkedName(v: N.View, l: map<nat, nat>, d: nat, x: nat, name: seq<Byte>, v': N.View, l': map<nat, nat>, n: nat) {
    && d in v && d in v' && LostName(v[d], x, name, v'[d]) && v' == v[d := v'[d]]
    && x in l && l' == N.Unlinked(l, x) && (x !in l' <==> N.Refs(v', x, n) == 0)
  }

  /** x is no symlink at its last name, or its text is harmless in state mid. */
  ghost predicate Clean(g: Geo, a: Moment, mid: State, x: nat) {
    LastText(a.syms, x) ==> GeoOk(g) && |mid.d| == g.blocks && Harmless(g, mid.d, TextOf(a.syms, x))
  }

  /** Exact books after x lost a link: the used blocks are less those that went with it. */
  ghost predicate Settled(g: Geo, a: Moment, b: Moment, d: nat, x: nat) {
    && GeoOk(g) && |a.s.d| == |b.s.d| == g.blocks
    && Used(g, b.s.d) == Used(g, a.s.d) - GoneBlocks(a.s.d, a.t, x)
    && Kept(Snap(a.s.d, a.t, Used(g, a.s.d)), Snap(b.s.d, b.t, Used(g, b.s.d)), {d} + Gone(a.t, x), true)
  }

  /** What the last unlink of a symlink leaves. mid is a after the removal of the entry, an edit of the
      directory's own blocks; up to 48 bytes the old disk decides. */
  ghost predicate TextUnlinks(g: Geo, a: Moment, mid: State, b: Moment, d: nat, x: nat, inv: bool) {
    var target := TextOf(a.syms, x);
    && GeoOk(g) && |a.s.d| == |mid.d| == |b.s.d| == g.blocks && d in a.t
    && Within(a.s.d, mid.d, Owned(a.s.d, a.t[d].ptr))
    && TextDrop(g, a.s.d, mid, b.s, target, Balanced(a.s.d, a.t, Used(g, a.s.d)), inv)
    && (|target| <= 48 ==> (Harmless(g, mid.d, target) <==> WordsClear(g, a.s.d, target)))
  }

  /** ext2_unlink: drop the first entry of that name. A directory is refused. The target's link
      count drops with it, and the inode is freed, blocks and all, exactly when no entry in any
      directory names it any more. The last name of a fast symlink is the exception: mid is the state
      in which its text is walked. */
  method Unlink(vol: Volume, dinum: nat, name: seq<Byte>) returns (r: int, ghost mid: State)
    requires vol.Inv() && dinum in vol.fs.table && IsDir(vol.fs.table[dinum])
    modifies vol`syms, vol.fs`disk, vol.fs`gfree, vol.fs`sfree, vol.fs`table, vol.fs`log
    ensures Tallied(vol.fs) && vol.Named() && (r == 0 || r == -1)
    ensures var x := Hit(old(Here(vol)), dinum, name); r == -1 <==> x == 0 || (x in old(vol.fs.table) && IsDir(old(vol.fs.table)[x]))
    ensures r == -1 ==> vol.Inv() && Here(vol) == old(Here(vol))
    ensures r == 0 ==> Unlinks(old(Here(vol)), Here(vol), dinum, name, vol.icount + 1)
    ensures var x := Hit(old(Here(vol)), dinum, name);
      r == 0 && Clean(vol.fs.geo, old(Here(vol)), mid, x) ==> vol.Inv() && Settled(vol.fs.geo, old(Here(vol)), Here(vol), dinum, x)
    ensures var x := Hit(old(Here(vol)), dinum, name);
      r == 0 && LastText(old(vol.syms), x) ==> TextUnlinks(vol.fs.geo, old(Here(vol)), mid, Here(vol), dinum, x, vol.Inv())
  {
    hide N.NamesOk, Mounted, DirsOk, Removes, LostName, Owned, ViewOf, UpOf, LinksOf, Find, N.Unlinked, Kept, FilesKept, Squared,
      Volume.Inv, Volume.Named, TextDrop, Harmless, WordsClear, Ext2.Counts, Tally, SameMarks, LessOne, LessSym, IsDir, Within,
      TextUnlinks, Settled, UnlinkedName, GoneBlocks, Consistent, Used, Balanced;
    var fs := vol.fs;
    NamedIs(vol);
    MountedTallied(fs);
    Keys(fs.disk, fs.table, vol.syms);
    ghost var v, u, l, n, a, m := V(fs), U(fs), vol.Links(), vol.icount + 1, Shot(fs), Here(vol);
    mid := Now(fs);
    SaneDir(fs, dinum);
    var x := Lookup(fs, fs.table[dinum], name);
    if x == 0 { return -1, mid; }
    Found(v, l, u, n, dinum, name);
    if x in fs.table && IsDir(fs.table[x]) { return -1, mid; }
    Present(fs, v, l, u, n, dinum, name);
    var ino, ft := RemoveName(fs, dinum, name);
    ghost var v1, b := V(fs), Shot(fs);
    mid := Now(fs);
    MountedTallied(fs);
    RemoveFind(v[dinum], Ent(ino, name, ft), v1[dinum], name);
    N.NameDropped(v, l, u, n, dinum, Ent(x, name, ft), v1[dinum]);
    UnlinkedBy(v, l, dinum, x, name, ft, v1, n);
    LessLinks(m.t, m.syms, x);
    SameGone(a.d, b.d, m.t, x);
    DropTarget(vol, x);
    KeptFiles(a, b, {dinum}, true);
    FilesTrans(a.d, m.t, b.d, m.t, fs.disk, fs.table, {dinum}, Gone(m.t, x));
    NamedIs(vol);
    TallyMeans(fs);
    AfterUnlink(fs.geo, m, a, b, mid, Here(vol), dinum, x, Mounted(fs));
    return 0, mid;
  }

  lemma UnlinkedBy(v: N.View, l: map<nat, nat>, d: nat, x: nat, name: seq<Byte>, ft: Byte, v': N.View, n: nat)
    requires d in v && d in v' && Removes(v[d], Ent(x, name, ft), v'[d]) && v' == v[d := v'[d]] && x in l
    requires x !in N.Unlinked(l, x) <==> N.Refs(v', x, n) == 0
    ensures UnlinkedName(v, l, d, x, name, v', N.Unlinked(l, x), n)
  {
  }

  /** The two halves of unlink, a to b and b to z, are one. */
  lemma AfterUnlink(g: Geo, m: Moment, a: Snap, b: Snap, mid: State, z: Moment, d: nat, x: nat, inv: bool)
    requires GeoOk(g) && |m.s.d| == |mid.d| == |z.s.d| == g.blocks && a == Snap(m.s.d, m.t, Used(g, m.s.d)) && b == Snap(mid.d, m.t, Used(g, mid.d))
    requires Consistent(a.d, a.t, a.u) && d in m.t && Within(m.s.d, mid.d, Owned(m.s.d, m.t[d].ptr)) && b.u == a.u
    requires Kept(a, b, {d}, true) && GoneBlocks(b.d, m.t, x) == GoneBlocks(a.d, m.t, x)
    requires LastText(m.syms, x) ==> TextDrop(g, mid.d, mid, z.s, TextOf(m.syms, x), Squared(b), inv) && z.t == m.t && x !in m.t
    requires !LastText(m.syms, x) ==>
      Kept(b, Snap(z.s.d, z.t, Used(g, z.s.d)), Gone(m.t, x), true) && Used(g, z.s.d) == b.u - GoneBlocks(b.d, m.t, x)
    ensures Clean(g, m, mid, x) ==> Settled(g, m, z, d, x)
    ensures LastText(m.syms, x) ==> TextUnlinks(g, m, mid, z, d, x, inv)
  {
    hide Kept, Balanced, Owned, Consistent, Harmless, WordsClear, SameMarks, Used;
    KeptFiles(a, b, {d}, true);
    if LastText(m.syms, x) {
      TextUnlinked(g, a, d, mid, z.s, TextOf(m.syms, x), Squared(b), inv);
      assert {d} + Gone(m.t, x) == {d};
    } else {
      KeptTrans(a, b, Snap(z.s.d, z.t, Used(g, z.s.d)), {d}, Gone(m.t, x), {d} + Gone(m.t, x), true);
    }
  }

  lemma KeptFiles(a: Snap, b: Snap, s: set<nat>, ok: bool)
    requires Kept(a, b, s, ok)
    ensures FilesKept(a.d, a.t, b.d, b.t, s) && (ok && Squared(a) ==> Squared(b))
  {
    hide FilesKept, Squared;
  }

  lemma FilesTrans(d: Disk, t: Table, d1: Disk, t1: Table, d2: Disk, t2: Table, s1: set<nat>, s2: set<nat>)
    requires FilesKept(d, t, d1, t1, s1) && FilesKept(d1, t1, d2, t2, s2)
    ensures FilesKept(d, t, d2, t2, s1 + s2)
  {
    hide Squared;
    KeptTrans(Snap(d, t, {}), Snap(d1, t1, {}), Snap(d2, t2, {}), s1, s2, s1 + s2, false);
  }

  lemma SameGone(d: Disk, d': Disk, t: Table, x: nat)
    requires forall i :: i in t ==> Owned(d', t[i].ptr) == Owned(d, t[i].ptr)
    ensures GoneBlocks(d', t, x) == GoneBlocks(d, t, x)
  {
  }

  /** The walk over the text, seen from before the entry was removed. */
  lemma TextUnlinked(g: Geo, a: Snap, dinum: nat, mid: State, s': State, target: Text, balanced: bool, inv: bool)
    requires GeoOk(g) && |a.d| == |mid.d| == |s'.d| == g.blocks && a.u == Used(g, a.d)
    requires Consistent(a.d, a.t, a.u) && dinum in a.t && Within(a.d, mid.d, Owned(a.d, a.t[dinum].ptr))
    requires TextDrop(g, mid.d, mid, s', target, balanced, inv)
    ensures TextDrop(g, a.d, mid, s', target, balanced, inv)
    ensures |target| <= 48 ==> (Harmless(g, mid.d, target) <==> WordsClear(g, a.d, target))
  {
    hide Owned, Consistent, Harmless, IsMarked;
    EditMarks(g, a.d, a.t, dinum, mid.d);
    if |target| <= 48 { ShortText(g, mid.d, target); }
  }

  /** The invariant fails: the symlink to "a" loses its last name on a volume with balanced books where
      block 97 is in use. */
  lemma LetterABreaks(g: Geo, a: Moment, mid: State, b: Moment, d: nat, x: nat, inv: bool)
    requires TextUnlinks(g, a, mid, b, d, x, inv) && TextOf(a.syms, x) == [0x61]
    requires Balanced(a.s.d, a.t, Used(g, a.s.d)) && IsMarked(g, a.s.d, 97)
    ensures !inv && !SameMarks(g, a.s.d, b.s.d)
  {
    hide Harmless, WordsClear, IsMarked, Balanced, Owned;
    LetterA(g, a.s.d);
    ShortText(g, a.s.d, [0x61]);
  }
}
