/** ext2_rename: an unlink of the destination, a link, the removal of the old entry, and for a directory
    its ".." and its parents' counts. */
module Ext2Rename {
  import opened Bytes
  import opened Ext2Tree
  import opened Ext2Alloc
  import opened Ext2Map
  import opened Ext2Free
  import opened Ext2File
  import opened Ext2DirBlock
  import opened Ext2Dir
  import opened Ext2Volume
  import opened Ext2Steps
  import opened Ext2Symlink
  import opened Ext2Names
  import opened Ext2Unlink
  import N = Ext2Namespace

  /** What the destination's name, if it is taken, loses first. */
  ghost predicate Cleared(v: N.View, l: map<nat, nat>, nd: nat, name: seq<Byte>, v1: N.View, l1: map<nat, nat>)
    requires nd in v
  {
    var y := Find(v[nd], name);
    if y == 0 then v1 == v && l1 == l
    else y in l && y !in v && nd in v1 && v1 == v[nd := v1[nd]] && l1 == N.Unlinked(l, y) && LostName(v[nd], y, name, v1[nd])
  }

  /** Entry x of od under old_ becomes the entry e of nd; a directory that changes parents takes its
      ".." and one link along. */
  ghost predicate Moved(v: N.View, l: map<nat, nat>, od: nat, old_: seq<Byte>, nd: nat, e: Ent, v': N.View, l': map<nat, nat>,
                        a: seq<Ent>, b: seq<Ent>)
    requires od in v && nd in v && od in l && nd in l
  {
    var v2 := v[nd := a][od := b];
    && Inserts(v[nd], e, a) && LostName(v[nd := a][od], e.ino, old_, b)
    && if e.ino !in v || od == nd then v' == v2 && l' == l
       else
         && l[od] > 0 && l' == l[od := l[od] - 1][nd := N.Bumped(l[nd])]
         && e.ino in v' && v' == v2[e.ino := v'[e.ino]] && Retargets(v2[e.ino], N.DOTDOT, nd, v'[e.ino])
  }

  ghost predicate RenamedIn(v: N.View, l: map<nat, nat>, od: nat, old_: seq<Byte>, nd: nat, new_: seq<Byte>, ft: Byte,
                          v': N.View, l': map<nat, nat>)
    requires od in v && nd in v
  {
    exists v1, l1, a, b ::
      && Cleared(v, l, nd, new_, v1, l1) && od in v1 && nd in v1 && od in l1 && nd in l1
      && Moved(v1, l1, od, old_, nd, Ent(Find(v[od], old_), Trunc(new_), ft), v', l', a, b)
  }

  /** If the name leads to a symlink at its last name, its text is harmless whatever the directory's
      own blocks hold. Up to 48 bytes that is: no word of it is the number of a marked block. */
  ghost predicate SafeToDrop(g: Geo, m: Moment, d: nat, name: seq<Byte>) {
    var x := Hit(m, d, name);
    LastText(m.syms, x) ==>
      GeoOk(g) && |m.s.d| == g.blocks && d in m.t && Safe(g, m.s.d, Owned(m.s.d, m.t[d].ptr), TextOf(m.syms, x))
  }

  lemma SafeIsClean(g: Geo, m: Moment, d: nat, name: seq<Byte>, mid: State, z: Moment, inv: bool)
    requires SafeToDrop(g, m, d, name)
    requires LastText(m.syms, Hit(m, d, name)) ==> TextUnlinks(g, m, mid, z, d, Hit(m, d, name), inv)
    ensures Clean(g, m, mid, Hit(m, d, name))
  {
    hide Hit, Harmless, TextDrop, WordsClear, Owned, Balanced;
  }

  /** The destination half of ext2_rename: an existing file is unlinked, a directory is refused. The
      last name of a fast symlink is the exception again: the invariant is lost as in ext2_unlink. */
  method ClearName(vol: Volume, dinum: nat, name: seq<Byte>) returns (r: int, ghost mid: State)
    requires vol.Inv() && dinum in vol.fs.table && IsDir(vol.fs.table[dinum])
    modifies vol`syms, vol.fs`disk, vol.fs`gfree, vol.fs`sfree, vol.fs`table, vol.fs`log
    ensures Tallied(vol.fs) && vol.Named() && (r == 0 || r == -1) && U(vol.fs) == old(U(vol.fs)) && dinum in old(V(vol.fs))
    ensures r == -1 <==> Find(old(V(vol.fs))[dinum], name) in old(V(vol.fs))
    ensures r == -1 ==> vol.Inv() && Here(vol) == old(Here(vol))
    ensures r == 0 ==> Cleared(old(V(vol.fs)), old(vol.Links()), dinum, name, V(vol.fs), vol.Links())
    ensures var y := Find(old(V(vol.fs))[dinum], name); r == 0 ==>
      && vol.fs.table == LessOne(old(vol.fs.table), y) && vol.syms == LessSym(old(vol.syms), y)
      && (Clean(vol.fs.geo, old(Here(vol)), mid, y) ==> vol.Inv() && Settled(vol.fs.geo, old(Here(vol)), Here(vol), dinum, y))
      && (LastText(old(vol.syms), y) ==> TextUnlinks(vol.fs.geo, old(Here(vol)), mid, Here(vol), dinum, y, vol.Inv()))
  {
    hide N.NamesOk, Mounted, DirsOk, LostName, Owned, ViewOf, UpOf, LinksOf, Find, N.Unlinked, Ext2.Counts, Volume.Inv, Volume.Named,
      Settled, IsDir, TextUnlinks, Harmless, FilesKept, Clean, Tally;
    var fs := vol.fs;
    NamedIs(vol);
    MountedTallied(fs);
    Keys(fs.disk, fs.table, vol.syms);
    ghost var v, l, u, n := V(fs), vol.Links(), U(fs), vol.icount + 1;
    mid := Now(fs);
    SaneDir(fs, dinum);
    NotZero(v, l, u, n);
    var y := Lookup(fs, fs.table[dinum], name);
    if y == 0 {
      Unmoved(vol, dinum);
      return 0, mid;
    }
    Found(v, l, u, n, dinum, name);
    if y in fs.table && IsDir(fs.table[y]) { return -1, mid; }
    r, mid := Unlink(vol, dinum, name);
    NamedIs(vol);
  }

  /** No inode is numbered 0, so nothing loses a link there. */
  lemma Unmoved(vol: Volume, d: nat)
    requires Sane(vol.fs) && 0 !in vol.Links()
    ensures LessOne(vol.fs.table, 0) == vol.fs.table && LessSym(vol.syms, 0) == vol.syms
    ensures Settled(vol.fs.geo, Here(vol), Here(vol), d, 0)
  {
    hide DirsOk, Kept, Consistent;
    KeptRefl(Shot(vol.fs), {d}, true);
    assert {d} + Gone(vol.fs.table, 0) == {d};
  }

  lemma NotZero(v: N.View, l: map<nat, nat>, u: map<nat, nat>, n: nat)
    requires N.NamesOk(v, l, u, n)
    ensures 0 !in v && 0 !in l
  {
    assert N.Exact(v, l, n, 0);
  }

  /** Another name is still found where it was. */
  lemma StillFound(v: N.View, l: map<nat, nat>, nd: nat, name: seq<Byte>, v1: N.View, l1: map<nat, nat>, d: nat, other: seq<Byte>)
    requires nd in v && d in v && Cleared(v, l, nd, name, v1, l1) && (d == nd ==> other != name)
    ensures d in v1 && Find(v1[d], other) == Find(v[d], other)
  {
    var y := Find(v[nd], name);
    if y != 0 && d == nd {
      var ft :| Removes(v[nd], Ent(y, name, ft), v1[nd]);
      RemoveFind(v[nd], Ent(y, name, ft), v1[nd], other);
    }
  }

  function SameUpTo(ino: Inode, ino': Inode, grew: bool): Inode {
    if grew then ino.(ptr := ino'.ptr, sectors := ino'.sectors, size := ino'.size, links := ino'.links)
    else ino.(links := ino'.links)
  }

  /** Every inode is what it was up to its link count; nd may have grown. */
  ghost predicate OnlyGrew(t: Table, t': Table, nd: nat) {
    && t'.Keys == t.Keys
    && forall i :: i in t ==> t'[i] == SameUpTo(t[i], t'[i], i == nd)
  }

  /** Entry e goes into nd, whose list becomes a, and entry o leaves od. */
  ghost predicate NameMoved(v: N.View, od: nat, nd: nat, e: Ent, o: Ent, a: seq<Ent>, v': N.View) {
    && od in v && nd in v && od in v' && Inserts(v[nd], e, a)
    && Removes(v[nd := a][od], o, v'[od]) && v' == v[nd := a][od := v'[od]]
  }

  /** The entries' half of a move: link under the new name, drop the first entry of the old one. */
  method MoveName(fs: Ext2, od: nat, name: seq<Byte>, nd: nat, e: Ent) returns (ok: bool, ghost o: Ent)
    requires Sane(fs) && HasRoom(fs, nd) && od in V(fs) && N.IsName(name) && N.IsName(e.name) && |e.name| <= 255
    requires 0 < e.ino < U32 && Find(V(fs)[od], name) == e.ino
    modifies fs`disk, fs`gfree, fs`sfree, fs`table
    ensures Sane(fs) && Kept(old(Shot(fs)), Shot(fs), {od, nd}, ok) && old(fs.InUse()) <= fs.InUse() && U(fs) == old(U(fs))
    ensures nd in fs.table && fs.table == old(fs.table)[nd := fs.table[nd]]
      && Grown(old(fs.table), fs.table, nd, old(fs.table)[nd].links)
    ensures nd in old(V(fs)) && nd in V(fs) && od in V(fs)
    ensures !ok ==> V(fs) == old(V(fs)) && fs.table == old(fs.table)
    ensures ok ==> o.ino == e.ino && o.name == name && exists a :: NameMoved(old(V(fs)), od, nd, e, o, a, V(fs))
  {
    hide Mounted, DirsOk, Owned, ViewOf, UpOf, Find, Inserts, Removes, Absent, Kept, OthersOwn, Ext2.Counts, N.IsName;
    DirIn(fs, od);
    DirIn(fs, nd);
    NotDotDot(name);
    ghost var v, s0 := V(fs), Shot(fs);
    o := e;
    ok := AddName(fs, nd, e);
    ghost var v1, a, s1 := V(fs), V(fs)[nd], Shot(fs);
    KeptWider(s0, s1, {nd}, {od, nd}, ok, ok);
    if !ok { return; }
    if od == nd { StillFirst(v[nd], e, a, name); }
    DirIn(fs, od);
    var ino, ft := RemoveName(fs, od, name);
    Taken(v1[od], name);
    ghost var b := V(fs)[od];
    o := Ent(ino, name, ft);
    RemoveFind(v1[od], o, b, name);
    KeptTrans(s0, s1, Shot(fs), {nd}, {od}, {od, nd}, true);
    assert NameMoved(v, od, nd, e, o, a, V(fs));
  }

  /** A directory that changes parents: its ".." follows, and both parents' counts. */
  method Reparent(vol: Volume, c: nat, od: nat, nd: nat)
    requires Sane(vol.fs) && c in U(vol.fs) && U(vol.fs)[c] != 0 && 0 < nd < U32
    requires od in vol.fs.table && nd in vol.fs.table && od !in vol.syms && nd !in vol.syms && od != nd
    modifies vol.fs`disk, vol.fs`table
    ensures Sane(vol.fs) && c in old(V(vol.fs)) && c in V(vol.fs)
    ensures Find(old(V(vol.fs))[c], N.DOTDOT) == old(U(vol.fs))[c]
    ensures Retargets(old(V(vol.fs))[c], N.DOTDOT, nd, V(vol.fs)[c])
    ensures V(vol.fs) == old(V(vol.fs))[c := V(vol.fs)[c]] && U(vol.fs) == old(U(vol.fs))[c := nd]
    ensures var t, less := old(vol.fs.table), if old(vol.fs.table)[od].links > 0 then old(vol.fs.table)[od].links - 1 else 0;
      vol.fs.table == t[od := t[od].(links := less)][nd := t[nd].(links := N.Bumped(t[nd].links))]
    ensures Kept(old(Shot(vol.fs)), Shot(vol.fs), {c}, true) && vol.fs.InUse() == old(vol.fs.InUse())
  {
    hide Mounted, DirsOk, ViewOf, UpOf, Find, Retargets, Kept, Ext2.Counts, N.Bumped;
    var fs := vol.fs;
    ghost var s0 := Shot(fs);
    var r := UpdateDotDot(fs, c, nd);
    ghost var s1 := Shot(fs);
    SetLinks(fs, od, if fs.table[od].links > 0 then fs.table[od].links - 1 else 0);
    ghost var s2 := Shot(fs);
    SetLinks(fs, nd, N.Bumped(fs.table[nd].links));
    KeptTrans(s0, s1, s2, {c}, {}, {c}, true);
    KeptTrans(s0, s2, Shot(fs), {c}, {}, {c}, true);
  }

  lemma MovedEntry(v: N.View, l: map<nat, nat>, od: nat, name: seq<Byte>, nd: nat, e: Ent, a: seq<Ent>, b: seq<Ent>)
    requires od in v && nd in v && od in l && nd in l && (e.ino !in v || od == nd)
    requires Inserts(v[nd], e, a) && LostName(v[nd := a][od], e.ino, name, b)
    ensures Moved(v, l, od, name, nd, e, v[nd := a][od := b], l, a, b)
  {
  }

  lemma MovedDir(v: N.View, l: map<nat, nat>, od: nat, name: seq<Byte>, nd: nat, e: Ent, a: seq<Ent>, b: seq<Ent>, c: seq<Ent>)
    requires od in v && nd in v && od in l && nd in l && e.ino in v && od != nd && l[od] > 0
    requires Inserts(v[nd], e, a) && LostName(v[nd := a][od], e.ino, name, b)
    requires Retargets(v[nd := a][od := b][e.ino], N.DOTDOT, nd, c)
    ensures Moved(v, l, od, name, nd, e, v[nd := a][od := b][e.ino := c], l[od := l[od] - 1][nd := N.Bumped(l[nd])], a, b)
  {
  }

  /** A second entry for the same inode does not change what a name finds. */
  lemma StillFirst(l: seq<Ent>, e: Ent, l': seq<Ent>, name: seq<Byte>)
    requires Inserts(l, e, l') && (name == e.name ==> Find(l, name) == e.ino)
    ensures Find(l', name) == Find(l, name)
  {
    if name != e.name {
      InsertOther(l, e, l', name);
    } else {
      var k: nat :| InsertedAt(l, e, l', k);
      assert l == l[..k] + l[k..] && l' == l[..k] + ([e] + l[k..]);
      FindConcat(l[..k], l[k..], name);
      FindConcat(l[..k], [e] + l[k..], name);
    }
  }

  /** An entry put in where its name was absent, and the first entry of that name taken out again. */
  lemma InsertRemove(l: seq<Ent>, e: Ent, l1: seq<Ent>, o: Ent, l2: seq<Ent>)
    requires Inserts(l, e, l1) && Absent(l, e.name) && Removes(l1, o, l2) && o.name == e.name
    ensures l2 == l && o == e
  {
    var k: nat :| InsertedAt(l, e, l1, k);
    var j: nat :| RemovedAt(l1, o, l2, j);
    OnlyAt(l, e, l1, k, j);
    hide Absent;
    assert l1[..k] == l[..k] && l1[k + 1..] == l[k..];
    assert l2 == l[..k] + l[k..];
  }

  /** The inserted entry is the only one of its name. */
  lemma OnlyAt(l: seq<Ent>, e: Ent, l1: seq<Ent>, k: nat, j: nat)
    requires InsertedAt(l, e, l1, k) && Absent(l, e.name) && j < |l1| && l1[j].name == e.name
    ensures j == k
  {
    assert forall i :: 0 <= i < k ==> l1[i] == l[i];
    assert forall i :: k <= i < |l| ==> l1[i + 1] == l[i];
    assert forall i :: 0 <= i < |l1| && i != k ==> l1[i] == l[if i < k then i else i - 1];
  }

  lemma Taken(l: seq<Ent>, name: seq<Byte>)
    requires Find(l, name) != 0
    ensures !Absent(l, name)
  {
    if Absent(l, name) { FindAbsent(l, name); }
  }

  lemma AddedDropped(l: map<nat, nat>, x: nat)
    requires x in l && l[x] > 0
    ensures N.Unlinked(l[x := l[x] + 1], x) == l
  {
  }

  lemma FoundShort(fs: Ext2, d: nat, name: seq<Byte>)
    requires Sane(fs) && d in V(fs) && Find(V(fs)[d], name) != 0
    ensures |name| <= 255
  {
    hide Find, RangeOk, List, Mounted;
    var ino := fs.table[d];
    RangeOfDir(fs.disk, ino);
    ListShort(fs.disk, ino.ptr, 0, Blocks(ino.size));
    FindShort(V(fs)[d], name);
  }

  lemma RangeOfDir(d: Disk, ino: Inode)
    requires DirOk(d, ino)
    ensures Blocks(ino.size) <= MAXBLOCKS && RangeOk(d, ino.ptr, 0, Blocks(ino.size))
    ensures Entries(d, ino) == List(d, ino.ptr, 0, Blocks(ino.size))
  {
  }

  /** The directories a move rewrites. */
  function Touched(v: N.View, od: nat, nd: nat, x: nat): set<nat> {
    if x in v && od != nd then {od, nd, x} else {od, nd}
  }

  /** What keeps a move from keeping the invariant: a directory changes parents, and the new parent's
      count is at its limit. */
  predicate WrapsAt(v: N.View, t: Table, od: nat, nd: nat, x: nat) {
    od != nd && x in v && nd in t && t[nd].links == MAX_LINKS
  }

  lemma ReparentedLinks(t: Table, t': Table, syms: map<nat, Sym>, od: nat, nd: nat, less: U16, more: U16)
    requires od in t && nd in t && od !in syms && nd !in syms && od != nd
    requires t' == t[od := t[od].(links := less)][nd := t[nd].(links := more)]
    ensures LinksOf(t', syms) == LinksOf(t, syms)[od := less][nd := more]
  {
    LinksSet(t, syms, od, t[od].(links := less));
    LinksSet(t[od := t[od].(links := less)], syms, nd, t[nd].(links := more));
    hide LinksOf;
  }

  /** The entry half of ext2_rename: link under the new name, drop the old entry, and let ".." and
      the parents' counts follow a directory. Only a full disk stops it, before anything changes. */
  method MoveEntry(vol: Volume, od: nat, name: seq<Byte>, nd: nat, e: Ent) returns (ok: bool)
    requires vol.Inv() && HasRoom(vol.fs, nd) && od in V(vol.fs) && N.IsName(name) && N.IsName(e.name) && |e.name| <= 255
    requires e.ino != 0 && Find(V(vol.fs)[od], name) == e.ino
    modifies vol.fs`disk, vol.fs`gfree, vol.fs`sfree, vol.fs`table
    ensures Sane(vol.fs) && nd in old(V(vol.fs)) && od in old(vol.Links()) && nd in old(vol.Links())
    ensures vol.Inv() <==> !(ok && WrapsAt(old(V(vol.fs)), old(vol.fs.table), od, nd, e.ino))
    ensures Kept(old(Shot(vol.fs)), Shot(vol.fs), Touched(old(V(vol.fs)), od, nd, e.ino), ok) && old(vol.fs.InUse()) <= vol.fs.InUse()
    ensures OnlyGrew(old(vol.fs.table), vol.fs.table, nd)
    ensures !ok ==> V(vol.fs) == old(V(vol.fs)) && vol.fs.table == old(vol.fs.table)
    ensures ok ==> exists a, b ::
      Moved(old(V(vol.fs)), old(vol.Links()), od, name, nd, e, V(vol.fs), vol.Links(), a, b)
  {
    hide N.NamesOk, Mounted, DirsOk, LostName, Owned, ViewOf, UpOf, LinksOf, Find, Inserts, Removes, Retargets, Moved, N.Unlinked,
      Ext2.Counts, Volume.Inv, Volume.Named, Kept, OnlyGrew, N.Bumped, IsDir, NameMoved;
    var fs := vol.fs;
    NamedIs(vol);
    Keys(fs.disk, fs.table, vol.syms);
    var isDir := e.ino in fs.table && IsDir(fs.table[e.ino]);
    ghost var v, l, u, n, t, s0 := V(fs), vol.Links(), U(fs), vol.icount + 1, fs.table, Shot(fs);
    KeyBounds(v, l, u, n, od);
    KeyBounds(v, l, u, n, nd);
    Found(v, l, u, n, od, name);
    LinkBounds(v, l, u, n, e.ino);
    ghost var o;
    ok, o := MoveName(fs, od, name, nd, e);
    ghost var s1, t1 := Shot(fs), fs.table;
    GrewAt(t, t1, nd);
    SameLinks(t, vol.syms, nd, t1[nd]);
    KeptWider(s0, s1, {od, nd}, Touched(v, od, nd, e.ino), ok, ok);
    if !ok {
      NamedIs(vol);
      return;
    }
    ghost var v2 := V(fs);
    ghost var a :| NameMoved(v, od, nd, e, o, a, v2);
    if !isDir || od == nd {
      EntryMoved(v, l, u, n, od, name, nd, e, o, a, V(fs));
      NamedIs(vol);
    } else {
      Reparent(vol, e.ino, od, nd);
      KeptTrans(s0, s1, Shot(fs), {od, nd}, {e.ino}, Touched(v, od, nd, e.ino), true);
      GrewOn(t, t1, fs.table, od, nd);
      LinksAt(t1, vol.syms, od);
      LinksAt(t1, vol.syms, nd);
      ReparentedLinks(t1, fs.table, vol.syms, od, nd, fs.table[od].links, fs.table[nd].links);
      DirEntryMoved(v, l, u, n, od, name, nd, e, o, a, v2, V(fs)[e.ino]);
      NamedIs(vol);
    }
  }

  lemma GrewAt(t: Table, t': Table, nd: nat)
    requires nd in t' && t' == t[nd := t'[nd]] && nd in t && Grown(t, t', nd, t[nd].links)
    ensures OnlyGrew(t, t', nd)
  {
  }

  lemma GrewOn(t: Table, t1: Table, t': Table, od: nat, nd: nat)
    requires OnlyGrew(t, t1, nd) && od in t1 && nd in t1 && od in t' && nd in t'
    requires t' == t1[od := t'[od]][nd := t'[nd]] && t'[od] == t1[od].(links := t'[od].links) && t'[nd] == t1[nd].(links := t'[nd].links)
    ensures OnlyGrew(t, t', nd)
  {
  }

  /** A file's entry moves, or a directory's inside its parent. */
  lemma EntryMoved(v: N.View, l: map<nat, nat>, u: map<nat, nat>, n: nat, od: nat, name: seq<Byte>, nd: nat, e: Ent, o: Ent,
                   a: seq<Ent>, v': N.View)
    requires N.NamesOk(v, l, u, n) && NameMoved(v, od, nd, e, o, a, v') && (e.ino !in v || od == nd)
    requires e.ino in l && l[e.ino] > 0 && od in l && nd in l && o.ino == e.ino && o.name == name && N.IsName(name) && N.IsName(e.name)
    ensures N.NamesOk(v', l, u, n) && Moved(v, l, od, name, nd, e, v', l, a, v'[od])
  {
    hide N.NamesOk, Inserts, Removes, LostName, N.IsName;
    DroppedBy(v[nd := a][od], e.ino, name, o.ftype, v'[od]);
    MovedEntry(v, l, od, name, nd, e, a, v'[od]);
    if e.ino !in v {
      N.NameAdded(v, l, u, n, nd, e, a);
      N.NameDropped(v[nd := a], l[e.ino := l[e.ino] + 1], u, n, od, o, v'[od]);
      AddedDropped(l, e.ino);
    } else {
      N.DirRenamed(v, l, u, n, od, e, a, o, v'[od]);
      assert v' == v[od := v'[od]];
    }
  }

  /** A directory's entry moves to another parent, and its ".." follows. */
  lemma DirEntryMoved(v: N.View, l: map<nat, nat>, u: map<nat, nat>, n: nat, od: nat, name: seq<Byte>, nd: nat, e: Ent, o: Ent,
                      a: seq<Ent>, v2: N.View, c: seq<Ent>)
    requires N.NamesOk(v, l, u, n) && NameMoved(v, od, nd, e, o, a, v2) && e.ino in v && e.ino in u && od != nd && nd in l && l[nd] <= MAX_LINKS
    requires o.ino == e.ino && o.name == name && N.IsName(name) && N.IsName(e.name) && e.ino in v2
    requires Find(v2[e.ino], N.DOTDOT) == u[e.ino] && Retargets(v2[e.ino], N.DOTDOT, nd, c)
    ensures od in l && l[od] > 0
    ensures N.NamesOk(v2[e.ino := c], l[od := l[od] - 1][nd := N.Bumped(l[nd])], u[e.ino := nd], n) <==> l[nd] < MAX_LINKS
    ensures Moved(v, l, od, name, nd, e, v2[e.ino := c], l[od := l[od] - 1][nd := N.Bumped(l[nd])], a, v2[od])
  {
    hide N.NamesOk, Inserts, Removes, LostName, N.IsName, Retargets, Find, N.Bumped;
    var b := v2[od];
    assert v2 == v[nd := a][od := b];
    N.DirMovedExactly(v, l, u, n, od, nd, e, o, a, b, c);
    DroppedBy(v[nd := a][od], e.ino, name, o.ftype, b);
    MovedDir(v, l, od, name, nd, e, a, b, c);
  }

  /** The entry half of ext2_rename when both names are the same one and the unlink came first: the
      entry goes in and comes out again. */
  method MoveOntoItself(vol: Volume, d: nat, name: seq<Byte>, e: Ent) returns (r: int)
    requires vol.Inv() && HasRoom(vol.fs, d) && d in V(vol.fs) && N.IsName(name)
    requires e.name == name && |name| <= 255 && 0 < e.ino < U32 && Absent(V(vol.fs)[d], name)
    modifies vol.fs`disk, vol.fs`gfree, vol.fs`sfree, vol.fs`table
    ensures vol.Inv() && (r == 0 || r == -1) && V(vol.fs) == old(V(vol.fs)) && vol.Links() == old(vol.Links())
    ensures Kept(old(Shot(vol.fs)), Shot(vol.fs), {d}, r == 0) && old(vol.fs.InUse()) <= vol.fs.InUse()
    ensures OnlyGrew(old(vol.fs.table), vol.fs.table, d) && (r == -1 ==> vol.fs.table == old(vol.fs.table))
  {
    hide N.NamesOk, Mounted, DirsOk, ViewOf, UpOf, LinksOf, Find, Inserts, Removes, Absent, Ext2.Counts, Kept, OnlyGrew,
      Volume.Inv, Volume.Named, N.IsName, IsDir;
    var fs := vol.fs;
    NamedIs(vol);
    Keys(fs.disk, fs.table, vol.syms);
    NotDotDot(name);
    ghost var v, t, s0 := V(fs), fs.table, Shot(fs);
    var ok := AddName(fs, d, e);
    ghost var a, t1, s1 := V(fs)[d], fs.table, Shot(fs);
    SameLinks(t, vol.syms, d, t1[d]);
    GrewAt(t, t1, d);
    if !ok {
      NamedIs(vol);
      return -1;
    }
    Added(v[d], e, a);
    var ino, ft := RemoveName(fs, d, name);
    InsertRemove(v[d], e, a, Ent(ino, name, ft), V(fs)[d]);
    assert V(fs) == v;
    KeptTrans(s0, s1, Shot(fs), {d}, {d}, {d}, true);
    NamedIs(vol);
    return 0;
  }

  lemma Added(l: seq<Ent>, e: Ent, l': seq<Ent>)
    requires Inserts(l, e, l')
    ensures !Absent(l', e.name)
  {
    var k: nat :| InsertedAt(l, e, l', k);
    assert l'[k] == e;
  }

  /** Unlinking a name that occurs once leaves it nowhere. */
  lemma ClearedAbsent(v: N.View, l: map<nat, nat>, nd: nat, name: seq<Byte>, v1: N.View, l1: map<nat, nat>)
    requires nd in v && Cleared(v, l, nd, name, v1, l1) && Distinct(v[nd]) && Find(v[nd], name) != 0
    ensures nd in v1 && Absent(v1[nd], name)
  {
    var y := Find(v[nd], name);
    var ft :| Removes(v[nd], Ent(y, name, ft), v1[nd]);
    RemoveFind(v[nd], Ent(y, name, ft), v1[nd], name);
  }

  lemma ClearedKeys(v: N.View, l: map<nat, nat>, nd: nat, name: seq<Byte>, v1: N.View, l1: map<nat, nat>)
    requires nd in v && Cleared(v, l, nd, name, v1, l1)
    ensures v1.Keys == v.Keys
  {
  }

  lemma RenamedBy(v: N.View, l: map<nat, nat>, od: nat, old_: seq<Byte>, nd: nat, new_: seq<Byte>,
                  v1: N.View, l1: map<nat, nat>, ft: Byte, v': N.View, l': map<nat, nat>)
    requires od in v && nd in v && Cleared(v, l, nd, new_, v1, l1) && od in v1 && nd in v1 && od in l1 && nd in l1
    requires exists a, b :: Moved(v1, l1, od, old_, nd, Ent(Find(v[od], old_), Trunc(new_), ft), v', l', a, b)
    ensures RenamedIn(v, l, od, old_, nd, new_, ft, v', l')
  {
  }

  /** What is known of an inode that a name leads to. */
  lemma Source(vol: Volume, d: nat, name: seq<Byte>)
    requires vol.Inv() && d in V(vol.fs) && Find(V(vol.fs)[d], name) != 0
    ensures var x := Find(V(vol.fs)[d], name);
      && x in vol.Links() && 0 < x < U32 && |name| <= 255 && (x !in vol.syms ==> x in vol.fs.table)
  {
    hide Volume.Inv, Volume.Named, N.NamesOk, Mounted, DirsOk, ViewOf, UpOf, LinksOf, Find;
    NamedIs(vol);
    Keys(vol.fs.disk, vol.fs.table, vol.syms);
    Found(V(vol.fs), vol.Links(), U(vol.fs), vol.icount + 1, d, name);
    FoundShort(vol.fs, d, name);
    LinkBounds(V(vol.fs), vol.Links(), U(vol.fs), vol.icount + 1, Find(V(vol.fs)[d], name));
  }

  /** ext2_rename after the destination is clear. v and l are what it found. */
  method Relink(vol: Volume, od: nat, oldname: seq<Byte>, nd: nat, newname: seq<Byte>, e: Ent, ghost v: N.View, ghost l: map<nat, nat>)
    returns (r: int)
    requires vol.Inv() && od in V(vol.fs) && HasRoom(vol.fs, nd) && nd in V(vol.fs) && od in v && nd in v
    requires N.IsName(oldname) && N.IsName(e.name) && |e.name| <= 255 && |oldname| <= 255 && 0 < e.ino < U32
    requires e == Ent(Find(v[od], oldname), Trunc(newname), e.ftype) && Cleared(v, l, nd, newname, V(vol.fs), vol.Links())
    requires od == nd && oldname == newname ==> Distinct(v[od])
    modifies vol.fs`disk, vol.fs`gfree, vol.fs`sfree, vol.fs`table
    ensures Sane(vol.fs) && (r == 0 || r == -1)
    ensures vol.Inv() <==> !(r == 0 && WrapsAt(old(V(vol.fs)), old(vol.fs.table), od, nd, e.ino))
    ensures Kept(old(Shot(vol.fs)), Shot(vol.fs), Touched(old(V(vol.fs)), od, nd, e.ino), r == 0) && old(vol.fs.InUse()) <= vol.fs.InUse()
    ensures OnlyGrew(old(vol.fs.table), vol.fs.table, nd) && (r == -1 ==> vol.fs.table == old(vol.fs.table))
    ensures r == -1 || (od == nd && oldname == newname) ==> Cleared(v, l, nd, newname, V(vol.fs), vol.Links())
    ensures r == 0 && !(od == nd && oldname == newname) ==> RenamedIn(v, l, od, oldname, nd, newname, e.ftype, V(vol.fs), vol.Links())
  {
    hide N.NamesOk, Mounted, DirsOk, LostName, Owned, ViewOf, UpOf, LinksOf, Find, N.Unlinked, Cleared, Moved, RenamedIn, Ext2.Counts,
      N.IsName, Distinct, Absent, Volume.Inv, Volume.Named, Kept, OnlyGrew;
    NamedIs(vol);
    ghost var v1, l1, s1 := V(vol.fs), vol.Links(), Shot(vol.fs);
    if od == nd && oldname == newname {
      ClearedAbsent(v, l, nd, newname, v1, l1);
      TruncShort(oldname);
      r := MoveOntoItself(vol, od, oldname, e);
      NamedIs(vol);
      KeptWider(s1, Shot(vol.fs), {od}, Touched(v1, od, nd, e.ino), r == 0, r == 0);
      return;
    }
    StillFound(v, l, nd, newname, v1, l1, od, oldname);
    var ok := MoveEntry(vol, od, oldname, nd, e);
    if !ok { return -1; }
    RenamedBy(v, l, od, oldname, nd, newname, v1, l1, e.ftype, V(vol.fs), vol.Links());
    return 0;
  }

  lemma TruncShort(name: seq<Byte>)
    requires |name| <= 255
    ensures Trunc(name) == name
  {
  }

  /** ext2_rename. The inode itself is not touched; a file in the way is unlinked first, a directory
      in the way refuses the move; on a full disk the file in the way is gone all the same. A file
      renamed onto its own name is in its own way: all that remains of the call is the unlink. The
      invariant holds if and only if no directory moves under a parent whose count is at its limit. */
  method Rename(vol: Volume, od: nat, oldname: seq<Byte>, nd: nat, newname: seq<Byte>) returns (r: int)
    requires vol.Inv() && od in V(vol.fs) && HasRoom(vol.fs, nd) && nd in V(vol.fs)
    requires N.IsName(oldname) && N.IsName(newname) && (od == nd && oldname == newname ==> Distinct(V(vol.fs)[od]))
    requires SafeToDrop(vol.fs.geo, Here(vol), nd, newname)
    modifies vol`syms, vol.fs`disk, vol.fs`gfree, vol.fs`sfree, vol.fs`table, vol.fs`log
    ensures Sane(vol.fs) && (r == 0 || r == -1)
    ensures vol.Inv() <==> !(r == 0 && WrapsAt(old(V(vol.fs)), old(vol.fs.table), od, nd, Find(old(V(vol.fs))[od], oldname)))
    ensures Find(old(V(vol.fs))[od], oldname) == 0 || Find(old(V(vol.fs))[nd], newname) in old(V(vol.fs)) ==>
      r == -1 && Here(vol) == old(Here(vol))
    ensures var y := Find(old(V(vol.fs))[nd], newname); r == -1 ==>
      || Here(vol) == old(Here(vol))
      || (Cleared(old(V(vol.fs)), old(vol.Links()), nd, newname, V(vol.fs), vol.Links())
          && vol.fs.table == LessOne(old(vol.fs.table), y) && vol.syms == LessSym(old(vol.syms), y))
    ensures r == 0 && !(od == nd && oldname == newname) ==>
      RenamedIn(old(V(vol.fs)), old(vol.Links()), od, oldname, nd, newname,
                TypeOf(old(vol.fs.table), old(vol.syms), Find(old(V(vol.fs))[od], oldname)), V(vol.fs), vol.Links())
    ensures r == 0 && od == nd && oldname == newname ==>
      Cleared(old(V(vol.fs)), old(vol.Links()), nd, newname, V(vol.fs), vol.Links())
    ensures var x, y := Find(old(V(vol.fs))[od], oldname), Find(old(V(vol.fs))[nd], newname);
      && Kept(old(Shot(vol.fs)), Shot(vol.fs), Touched(old(V(vol.fs)), od, nd, x) + Gone(old(vol.fs.table), y), r == 0)
      && old(vol.fs.InUse()) - GoneBlocks(old(vol.fs.disk), old(vol.fs.table), y) <= vol.fs.InUse()
      && (r == 0 ==> OnlyGrew(LessOne(old(vol.fs.table), y), vol.fs.table, nd) && vol.syms == LessSym(old(vol.syms), y))
  {
    hide N.NamesOk, Mounted, DirsOk, LostName, Owned, ViewOf, UpOf, LinksOf, Find, N.Unlinked, Cleared, Moved, RenamedIn, Ext2.Counts,
      N.IsName, Trunc, Distinct, Absent, Volume.Inv, Volume.Named, Kept, OnlyGrew, SafeToDrop, Settled, LessOne, LessSym, GoneBlocks, Gone,
      IsDir, Clean, TextUnlinks, Tally;
    var fs := vol.fs;
    NamedIs(vol);
    Keys(fs.disk, fs.table, vol.syms);
    ghost var v, l, s0, t := V(fs), vol.Links(), Shot(fs), fs.table;
    ghost var m, y := Here(vol), Find(v[nd], newname);
    KeptRefl(s0, Touched(v, od, nd, Find(v[od], oldname)) + Gone(t, y), false);
    SaneDir(fs, od);
    var src := Lookup(fs, fs.table[od], oldname);
    if src == 0 { return -1; }
    Source(vol, od, oldname);
    var ft := if src in vol.syms then FT_SYMLINK else if IsDir(fs.table[src]) then FT_DIR else FT_REG;
    assert ft == TypeOf(t, vol.syms, src);
    ghost var mid;
    r, mid := ClearName(vol, nd, newname);
    if r != 0 {
      NamedIs(vol);
      assert Shot(fs) == s0;
      return;
    }
    SafeIsClean(fs.geo, m, nd, newname, mid, Here(vol), vol.Inv());
    NamedIs(vol);
    ClearedKeys(v, l, nd, newname, V(fs), vol.Links());
    LessDir(t, y, nd);
    TruncIsName(newname);
    ghost var s1 := Shot(fs);
    SettledMeans(fs.geo, m, Here(vol), nd, y);
    r := Relink(vol, od, oldname, nd, newname, Ent(src, Trunc(newname), ft), v, l);
    KeptBoth(s0, s1, Shot(fs), {nd} + Gone(t, y), Touched(v, od, nd, src), Touched(v, od, nd, src) + Gone(t, y), r == 0);
  }

  /** The file 3, whose one name is "a", renamed onto that name: what Rename says is left has neither the
      name nor the inode. */
  lemma OntoItselfGone(v1: N.View, l1: map<nat, nat>)
    requires 2 in map[2 := N.Crowd(1)] && Cleared(map[2 := N.Crowd(1)], map[2 := 2, 3 := 1], 2, [0x61], v1, l1)
    ensures N.NamesOk(map[2 := N.Crowd(1)], map[2 := 2, 3 := 1], map[2 := 2], 4) && Distinct(N.Crowd(1))
    ensures Find(N.Crowd(1), [0x61]) == 3 && 2 in v1 && Find(v1[2], [0x61]) == 0 && 3 !in l1
  {
    N.CrowdOk(1);
    assert N.Crowd(1) == [Ent(3, [0x61], 1), Ent(2, N.DOT, 2), Ent(2, N.DOTDOT, 2)];
    assert Find(N.Crowd(1), [0x61]) == 3;
    ClearedAbsent(map[2 := N.Crowd(1)], map[2 := 2, 3 := 1], 2, [0x61], v1, l1);
    FindAbsent(v1[2], [0x61]);
  }

  lemma KeptBoth(a: Snap, b: Snap, c: Snap, s1: set<nat>, s2: set<nat>, s: set<nat>, ok: bool)
    requires Kept(a, b, s1, true) && Kept(b, c, s2, ok) && s1 <= s && s2 <= s
    ensures Kept(a, c, s, ok)
  {
    hide Kept;
    KeptWider(a, b, s1, s1, true, ok);
    KeptTrans(a, b, c, s1, s2, s, ok);
  }

  lemma SettledMeans(g: Geo, a: Moment, b: Moment, d: nat, x: nat)
    requires Settled(g, a, b, d, x)
    ensures GeoOk(g) && |a.s.d| == |b.s.d| == g.blocks
    ensures Kept(Snap(a.s.d, a.t, Used(g, a.s.d)), Snap(b.s.d, b.t, Used(g, b.s.d)), {d} + Gone(a.t, x), true)
    ensures Used(g, b.s.d) == Used(g, a.s.d) - GoneBlocks(a.s.d, a.t, x)
  {
  }

  lemma LessDir(t: Table, y: nat, nd: nat)
    requires nd in t && y != nd
    ensures nd in LessOne(t, y) && LessOne(t, y)[nd] == t[nd]
  {
  }
}
