/** What the words of the file system model come to on the disk and in the lists: every number and
    every byte position is written out here once more, as the format has it. */
module Ext2Layout {
  import opened Bytes
  import opened Ext2Tree
  import opened Ext2Alloc
  import opened Ext2Map
  import opened Ext2Free
  import opened Ext2File
  import opened Ext2DirBlock
  import opened Ext2Dir
  import opened Ext2Volume
  import opened Ext2Steps
  import opened Ext2Symlink
  import opened Ext2Names
  import opened Ext2Unlink
  import opened Ext2Rename
  import N = Ext2Namespace

  // ----- bitmaps -----

  /** Bit i of a bitmap is bit i % 8 of byte i / 8, the lowest bit first. */
  lemma BitIs(bm: seq<Byte>, i: nat)
    requires i < 8 * |bm|
    ensures BitAt(bm, i) <==> bm[i / 8] / [1, 2, 4, 8, 16, 32, 64, 128][i % 8] % 2 == 1
  {
    var v := bm[i / 8];
    BitOf(v, i % 8);
  }

  lemma {:induction false} BitOf(v: nat, k: nat)
    requires k < 8
    ensures Bit(v, k) <==> v / [1, 2, 4, 8, 16, 32, 64, 128][k] % 2 == 1
  {
    if k > 0 {
      BitOf(v / 2, k - 1);
      Halves(v, k);
    }
  }

  lemma Halves(v: nat, k: nat)
    requires 0 < k < 8
    ensures v / 2 / [1, 2, 4, 8, 16, 32, 64, 128][k - 1] == v / [1, 2, 4, 8, 16, 32, 64, 128][k]
  {
  }

  /** Block x is bit (x - first) % bpg of the bitmap of group (x - first) / bpg. */
  lemma MarkIs(g: Geo, d: Disk, x: nat)
    requires GeoOk(g) && |d| == g.blocks && g.first <= x
    ensures IsMarked(g, d, x) <==>
      var r := x - g.first;
      r / g.bpg < g.ngroups && BitAt(d[g.bitmap[r / g.bpg]], r % g.bpg)
  {
    GroupIsQuotient(x - g.first, g.bpg);
    GroupInside(g, x);
  }

  /** alloc_block took the lowest block with a clear bit, and no other mark moved. */
  lemma ClaimedIs(g: Geo, d: Disk, d': Disk, r: nat)
    requires GeoOk(g) && |d| == g.blocks && Claimed(g, d, d', r)
    ensures g.first <= r < g.blocks && !IsMarked(g, d, r) && IsMarked(g, d', r)
    ensures forall x: nat :: g.first <= x < r ==> IsMarked(g, d, x)
    ensures forall x: nat :: x != r ==> (IsMarked(g, d', x) <==> IsMarked(g, d, x))
    ensures |d'| == |d| && forall y :: 0 <= y < |d| && y !in g.bitmap ==> d'[y] == d[y]
  {
    hide Marked;
    forall x: nat | g.first <= x <= r ensures InGroups(g, x) {}
  }

  lemma DroppedIs(g: Geo, d: Disk, d': Disk, b: nat)
    requires GeoOk(g) && |d| == g.blocks && Dropped(g, d, d', b)
    ensures forall x: nat :: IsMarked(g, d', x) <==> IsMarked(g, d, x) && x != b
    ensures |d'| == |d| && forall y :: 0 <= y < |d| && y !in g.bitmap ==> d'[y] == d[y]
  {
  }

  // ----- the block map -----

  /** Entry i of the pointer block x, four bytes little endian; none for block 0 or past the disk. */
  function Word(d: Disk, x: nat, i: nat): nat
    requires i < 256
  {
    if x == 0 || x >= |d| then 0
    else d[x][4 * i] as int + 256 * d[x][4 * i + 1] as int + 65536 * d[x][4 * i + 2] as int + 16777216 * d[x][4 * i + 3] as int
  }

  /** Twelve direct blocks, then 256, 65536 and 16777216 through one, two and three levels. */
  lemma MapIs(d: Disk, ptr: Ptrs, b: nat)
    requires b < 16843020
    ensures b < MAXBLOCKS
    ensures b < 12 ==> Map(d, ptr, b) == ptr[b]
    ensures 12 <= b < 268 ==> Map(d, ptr, b) == Word(d, ptr[12], b - 12)
    ensures 268 <= b < 65804 ==> Map(d, ptr, b) == Word(d, Word(d, ptr[13], (b - 268) / 256), (b - 268) % 256)
    ensures 65804 <= b ==>
      Map(d, ptr, b) == Word(d, Word(d, Word(d, ptr[14], (b - 65804) / 65536), (b - 65804) / 256 % 256), (b - 65804) % 256)
  {
    if 12 <= b < 268 {
      WordAt(d, ptr, Root(12), b - 12);
    } else if 268 <= b < 65804 {
      WordAt(d, ptr, Root(13), (b - 268) / 256);
      WordAt(d, ptr, PathOf(b).parent, (b - 268) % 256);
    } else if 65804 <= b {
      var p := PathOf(b);
      WordAt(d, ptr, Root(14), (b - 65804) / 65536);
      WordAt(d, ptr, p.parent.parent, (b - 65804) / 256 % 256);
      WordAt(d, ptr, p.parent, (b - 65804) % 256);
    }
  }

  lemma WordAt(d: Disk, ptr: Ptrs, q: Path, i: nat)
    requires Valid(Child(q, i))
    ensures At(d, ptr, Child(q, i)) == Word(d, At(d, ptr, q), i)
  {
  }

  /** Byte k of a file is byte k % 1024 of block k / 1024 of its map, zero in a hole. */
  lemma ByteIs(d: Disk, ino: Inode, k: nat)
    requires ino.size <= MAXBYTES && k < ino.size
    ensures k / 1024 < MAXBLOCKS && |Content(d, ino)| == ino.size
    ensures var x := Map(d, ino.ptr, k / 1024);
      Content(d, ino)[k] == if 0 < x < |d| then d[x][k % 1024] else 0
  {
    hide Map;
  }

  /** Every block of the map belongs to the inode, and so does every pointer block on the way. */
  lemma OwnedIs(d: Disk, ptr: Ptrs, b: nat)
    requires b < MAXBLOCKS
    ensures 0 < Map(d, ptr, b) < |d| ==> Map(d, ptr, b) in Owned(d, ptr)
    ensures 12 <= b && Map(d, ptr, b) != 0 ==>
      var root := ptr[if b < 268 then 12 else if b < 65804 then 13 else 14]; 0 < root < |d| && root in Owned(d, ptr)
    ensures 268 <= b < 65804 && Map(d, ptr, b) != 0 ==> Word(d, ptr[13], (b - 268) / 256) in Owned(d, ptr)
    ensures 65804 <= b && Map(d, ptr, b) != 0 ==>
      var hi := Word(d, ptr[14], (b - 65804) / 65536);
      hi in Owned(d, ptr) && Word(d, hi, (b - 65804) / 256 % 256) in Owned(d, ptr)
  {
    var p := PathOf(b);
    MapOwnedBy(d, ptr, p);
    if 12 <= b {
      MapOwnedBy(d, ptr, p.parent);
      if 268 <= b {
        MapOwnedBy(d, ptr, p.parent.parent);
        WordAt(d, ptr, p.parent.parent, p.parent.idx);
        if 65804 <= b {
          MapOwnedBy(d, ptr, p.parent.parent.parent);
          WordAt(d, ptr, p.parent.parent.parent, p.parent.parent.idx);
        }
      }
    }
  }

  lemma MapOwnedBy(d: Disk, ptr: Ptrs, p: Path)
    requires Valid(p)
    ensures 0 < At(d, ptr, p) < |d| ==> At(d, ptr, p) in Owned(d, ptr)
    ensures p.Child? && At(d, ptr, p) != 0 ==> 0 < At(d, ptr, p.parent) < |d|
  {
    assert Owns(d, ptr, At(d, ptr, p));
  }

  /** The tree is consistent: what an inode owns is in use, and no two inodes own the same block. */
  lemma ConsistentIs(d: Disk, t: Table, used: set<nat>, i: nat, j: nat)
    requires Consistent(d, t, used) && i in t && j in t && i != j
    ensures Owned(d, t[i].ptr) <= used && Owned(d, t[i].ptr) !! Owned(d, t[j].ptr)
  {
    Grounds(d, t, used, i);
    forall x | x in Owned(d, t[i].ptr) ensures x !in Owned(d, t[j].ptr) {
      var p :| Valid(p) && At(d, t[i].ptr, p) == x;
      forall q | Valid(q) ensures At(d, t[j].ptr, q) != x { assert Shares(d, t, i, p, j, q) ==> i == j; }
    }
  }

  /** The books are balanced: i_blocks is two sectors a block, and every block in use has an owner. */
  lemma BalancedIs(d: Disk, t: Table, used: set<nat>)
    requires Balanced(d, t, used)
    ensures forall i :: i in t ==> t[i].sectors == 2 * |Owned(d, t[i].ptr)|
    ensures forall x :: x in used ==> exists i :: i in t && x in Owned(d, t[i].ptr)
  {
    hide Owned;
    forall x | x in used ensures exists i :: i in t && x in Owned(d, t[i].ptr) { assert HasOwner(d, t, x); }
  }

  /** The written bytes over the old ones, zeros between them if there is a gap. */
  lemma SpliceIs(c: seq<Byte>, off: nat, data: seq<Byte>)
    ensures off <= |c| ==> Splice(c, off, data) == c[..off] + data + if off + |data| < |c| then c[off + |data|..] else []
    ensures off > |c| && data != [] ==> Splice(c, off, data) == c + seq(off - |c|, _ => 0) + data
  {
  }

  // ----- directory entries -----

  /** Inode number in bytes 0 to 3, rec_len in 4 and 5, name_len in 6, type in 7, then the name. */
  lemma EntryIs(b: Block, o: nat)
    requires EntOk(b, o)
    ensures var ino := b[o] as int + 256 * b[o + 1] as int + 65536 * b[o + 2] as int + 16777216 * b[o + 3] as int;
      && Ino(b, o) == ino && Rec(b, o) == b[o + 4] as int + 256 * b[o + 5] as int
      && (ino == 0 ==> EntAt(b, o) == [])
      && (ino != 0 ==> o + 8 + b[o + 6] as int <= 1024 && EntAt(b, o) == [Ent(ino, b[o + 8..o + 8 + b[o + 6] as int], b[o + 7])])
  {
  }

  /** A scan steps by rec_len, in multiples of four, to the end of the block exactly. */
  lemma ScanIs(b: Block, o: nat)
    requires Tiled(b, o)
    ensures o == 1024 ==> Live(b, o) == []
    ensures o != 1024 ==>
      && o + 8 <= 1024
      && var n := o + b[o + 4] as int + 256 * b[o + 5] as int;
        && o + 8 <= n <= 1024 && (n - o) % 4 == 0 && EntOk(b, o) && Tiled(b, n) && Live(b, o) == EntAt(b, o) + Live(b, n)
  {
  }

  /** A directory of n blocks lists their entries in order; a hole has none. */
  lemma EntriesIs(d: Disk, ino: Inode, n: nat)
    requires DirOk(d, ino) && ino.size == 1024 * (n + 1)
    ensures n < MAXBLOCKS && DirOk(d, ino.(size := 1024 * n))
    ensures var x := Map(d, ino.ptr, n);
      Entries(d, ino) == Entries(d, ino.(size := 1024 * n)) + if 0 < x < |d| && Tiled(d[x], 0) then Live(d[x], 0) else []
  {
    hide Map, Tiled, Live;
    assert BlockOk(d, ino.ptr, n);
    assert Blocks(1024 * (n + 1)) == n + 1 && Blocks(1024 * n) == n;
  }

  lemma NoEntries(d: Disk, ino: Inode)
    requires ino.size == 0
    ensures DirOk(d, ino) && Entries(d, ino) == []
  {
  }

  /** An entry has room for another name of n bytes if what its own name does not need, or its whole span
      when it is a hole, holds eight bytes and the name, rounded up to a multiple of four. */
  lemma SlackIs(b: Block, o: nat, n: nat)
    requires Reach(b, 0, o) && EntOk(b, o)
    requires n <= 255 && b[o + 4] as int + 256 * b[o + 5] as int >= (n + 11) / 4 * 4 +
      if b[o] == b[o + 1] == b[o + 2] == b[o + 3] == 0 then 0 else (b[o + 6] as int + 11) / 4 * 4
    ensures HasSlack(b, RealLen(n))
  {
    assert Fits(b, o, RealLen(n));
  }

  /** dir_add_entry took the first entry with room in the first block with room, and wrote that block only. */
  lemma InFirstIs(d: Disk, ptr: Ptrs, n: nat, need: nat, b: nat, d': Disk)
    requires InFirst(d, ptr, n, need, b, d')
    ensures b < n && b < MAXBLOCKS && var x := Map(d, ptr, b);
      && 0 < x < |d| && HasSlack(d[x], need) && |d'| == |d| && forall y :: 0 <= y < |d| && y != x ==> d'[y] == d[y]
    ensures forall c: nat :: c < b ==> var x := Map(d, ptr, c); 0 < x < |d| ==> !HasSlack(d[x], need)
  {
    hide HasSlack, Map;
    forall c: nat | c < b ensures var x := Map(d, ptr, c); 0 < x < |d| ==> !HasSlack(d[x], need) {
      assert !SlackAt(d, ptr, c, need);
    }
  }

  lemma FirstFitIs(b: Block, o: nat, e: Ent, l: seq<Ent>, p: nat)
    requires FirstFit(b, o, e, l)
    ensures Reach(b, 0, o) && EntOk(b, o) && Tiled(b, o + Rec(b, o))
    ensures l == Pre(b, 0, o) + EntAt(b, o) + [e] + Live(b, o + Rec(b, o))
    ensures p < o && Reach(b, 0, p) && EntOk(b, p) ==>
      Rec(b, p) < RealLen(|e.name|) + (if Ino(b, p) == 0 then 0 else (NameLen(b, p) + 11) / 4 * 4)
  {
    hide Reach, Live, Pre, Tiled, EntAt, Rec, Ino, NameLen;
    assert !Fits(b, p, RealLen(|e.name|)) || o <= p;
  }

  /** A lookup answers the first entry of that name. */
  lemma {:induction false} FindIs(l: seq<Ent>, name: seq<Byte>, k: nat)
    requires k < |l| && l[k].name == name && forall j :: 0 <= j < k ==> l[j].name != name
    ensures Find(l, name) == l[k].ino
  {
    if k > 0 {
      assert l[0].name != name;
      FindIs(l[1..], name, k - 1);
    }
  }

  lemma {:induction false} FindNone(l: seq<Ent>, name: seq<Byte>)
    requires forall j :: 0 <= j < |l| ==> l[j].name != name
    ensures Find(l, name) == 0
  {
    if l != [] { FindNone(l[1..], name); }
  }

  /** The three edits of a list. */
  lemma InsertsIs(l: seq<Ent>, e: Ent, l': seq<Ent>) returns (k: nat)
    requires Inserts(l, e, l')
    ensures k <= |l| && l' == l[..k] + [e] + l[k..]
  {
    k :| InsertedAt(l, e, l', k);
  }

  lemma RemovesIs(l: seq<Ent>, e: Ent, l': seq<Ent>) returns (k: nat)
    requires Removes(l, e, l')
    ensures k < |l| && l[k] == e && l' == l[..k] + l[k + 1..] && forall j :: 0 <= j < k ==> l[j].name != e.name
  {
    k :| RemovedAt(l, e, l', k);
    assert forall j :: 0 <= j < k ==> l[..k][j] == l[j];
  }

  lemma RetargetsIs(l: seq<Ent>, name: seq<Byte>, ino: nat, l': seq<Ent>) returns (k: nat)
    requires Retargets(l, name, ino, l')
    ensures k < |l| && l[k].name == name && (forall j :: 0 <= j < k ==> l[j].name != name)
    ensures l' == l[..k] + [Ent(ino, name, l[k].ftype)] + l[k + 1..]
  {
    k :| RetargetedAt(l, name, ino, l', k);
    assert forall j :: 0 <= j < k ==> l[..k][j] == l[j];
  }

  // ----- link counts -----

  /** The places of a list that name inode i, and those that do so under a proper name. */
  function Naming(l: seq<Ent>, i: nat): set<nat> {
    set k: nat | k < |l| && l[k].ino == i
  }

  function ProperlyNaming(l: seq<Ent>, i: nat): set<nat> {
    set k: nat | k < |l| && l[k].ino == i && l[k].name != [0x2E] && l[k].name != [0x2E, 0x2E]
  }

  lemma {:induction false} OccIs(l: seq<Ent>, i: nat)
    ensures N.Occ(l, i, false) == |Naming(l, i)|
    ensures N.Occ(l, i, true) == |ProperlyNaming(l, i)|
  {
    if l != [] {
      var n := |l| - 1;
      var a, e := l[..n], l[n];
      assert l == a + [e];
      OccIs(a, i);
      N.OccConcat(a, [e], i, false);
      N.OccConcat(a, [e], i, true);
      OccOne(e, i);
      OneMore(a, e, i);
    }
  }

  lemma OccOne(e: Ent, i: nat)
    ensures N.Occ([e], i, false) == if e.ino == i then 1 else 0
    ensures N.Occ([e], i, true) == if e.ino == i && e.name != [0x2E] && e.name != [0x2E, 0x2E] then 1 else 0
  {
  }

  lemma OneMore(a: seq<Ent>, e: Ent, i: nat)
    ensures |Naming(a + [e], i)| == |Naming(a, i)| + if e.ino == i then 1 else 0
    ensures |ProperlyNaming(a + [e], i)| == |ProperlyNaming(a, i)| +
      if e.ino == i && e.name != [0x2E] && e.name != [0x2E, 0x2E] then 1 else 0
  {
    assert Naming(a + [e], i) == Naming(a, i) + if e.ino == i then {|a|} else {};
    ProperMore(a, e, i);
  }

  lemma ProperMore(a: seq<Ent>, e: Ent, i: nat)
    ensures ProperlyNaming(a + [e], i) ==
      ProperlyNaming(a, i) + if e.ino == i && e.name != [0x2E] && e.name != [0x2E, 0x2E] then {|a|} else {}
    ensures |a| !in ProperlyNaming(a, i)
  {
    var l := a + [e];
    forall k: nat ensures k in ProperlyNaming(l, i) <==>
      k in ProperlyNaming(a, i) || (k == |a| && e.ino == i && e.name != [0x2E] && e.name != [0x2E, 0x2E])
    {
      if k < |a| { assert l[k] == a[k]; }
    }
  }

  /** The namespace is in order: an entry names an allocated inode, a stored count is the number of
      entries, and a directory stands under one proper name, in the directory its ".." names. */
  lemma NamesIs(v: N.View, links: map<nat, nat>, up: map<nat, nat>, n: nat, d: nat, k: nat)
    requires N.NamesOk(v, links, up, n) && d in v && k < |v[d]|
    ensures var x := v[d][k].ino;
      && x in links && 0 < x < n && links[x] == N.Refs(v, x, n)
      && (v[d][k].name != [0x2E] && v[d][k].name != [0x2E, 0x2E] && x in v ==> x in up && up[x] == d && |ProperlyNaming(v[d], x)| == 1)
  {
    var x := v[d][k].ino;
    OccIs(v[d], x);
    assert k in Naming(v[d], x);
    assert N.Resolved(v, links, d, x) && N.Exact(v, links, n, x) && N.Parented(v, up, d, x);
    if v[d][k].name != [0x2E] && v[d][k].name != [0x2E, 0x2E] { assert k in ProperlyNaming(v[d], x); }
  }

  /** The directory numbered m adds the entries it has for i. */
  lemma RefsIs(v: N.View, i: nat, m: nat)
    ensures N.Refs(v, i, 0) == 0
    ensures N.Refs(v, i, m + 1) == N.Refs(v, i, m) + if m in v then |Naming(v[m], i)| else 0
  {
    if m in v { OccIs(v[m], i); }
  }

  // ----- what an operation leaves alone -----

  /** An inode outside s keeps every field but its link count, and its content. */
  lemma KeptIs(a: Snap, b: Snap, s: set<nat>, ok: bool, i: nat)
    requires Kept(a, b, s, ok) && i in a.t && i !in s
    ensures i in b.t && var x, y := a.t[i], b.t[i];
      && y.mode == x.mode && y.size == x.size && y.sectors == x.sectors && y.ptr == x.ptr
      && (x.size <= MAXBYTES ==> Content(b.d, y) == Content(a.d, x))
    ensures ok && Balanced(a.d, a.t, a.u) ==> Balanced(b.d, b.t, b.u)
  {
    hide Balanced;
    forall k: nat | k < MAXBYTES ensures ByteAt(b.d, b.t[i].ptr, k) == ByteAt(a.d, a.t[i].ptr, k) {
      assert FileByte(b.d, b.t, i, k) == FileByte(a.d, a.t, i, k);
    }
  }

  /** The parent directory keeps its mode, and has the link count given. */
  lemma GrownIs(t: Table, t': Table, d: nat, links: nat)
    requires Grown(t, t', d, links)
    ensures d in t && d in t' && t'[d].mode == t[d].mode && t'[d].links == links
  {
  }

  /** One more entry in the list of d, and every other list as it was. */
  lemma EnteredIs(v: N.View, d: nat, e: Ent, v': N.View) returns (k: nat)
    requires Entered(v, d, e, v')
    ensures d in v && d in v' && k <= |v[d]| && v'[d] == v[d][..k] + [e] + v[d][k..]
    ensures forall b :: b in v && b != d ==> b in v' && v'[b] == v[b]
  {
    k := InsertsIs(v[d], e, v'[d]);
  }

  /** ext2_link counts one link more, modulo 2 to the 16, on a stored inode or on a symlink. */
  lemma MoreIs(t: Table, syms: map<nat, Sym>, x: nat)
    ensures MoreOne(t, x).Keys == t.Keys && MoreSym(syms, x).Keys == syms.Keys
    ensures x in t ==> MoreOne(t, x)[x] == t[x].(links := (t[x].links + 1) % 65536)
    ensures x in syms ==> MoreSym(syms, x)[x] == Sym((syms[x].links + 1) % 65536, syms[x].target)
    ensures forall i :: i in t && i != x ==> MoreOne(t, x)[i] == t[i]
    ensures forall i :: i in syms && i != x ==> MoreSym(syms, x)[i] == syms[i]
  {
  }

  /** An unlink counts one less, and an inode with one link or none goes. */
  lemma LessIs(t: Table, syms: map<nat, Sym>, x: nat)
    ensures x in t && t[x].links > 1 ==> x in LessOne(t, x) && LessOne(t, x)[x] == t[x].(links := t[x].links - 1)
    ensures x in syms && syms[x].links > 1 ==> x in LessSym(syms, x) && LessSym(syms, x)[x] == Sym(syms[x].links - 1, syms[x].target)
    ensures x in t && t[x].links <= 1 ==> x !in LessOne(t, x) && Gone(t, x) == {x}
    ensures x in syms && syms[x].links <= 1 ==> x !in LessSym(syms, x)
    ensures forall i :: i in t && i != x ==> i in LessOne(t, x) && LessOne(t, x)[i] == t[i] && i !in Gone(t, x)
    ensures forall i :: i in syms && i != x ==> i in LessSym(syms, x) && LessSym(syms, x)[i] == syms[i]
  {
  }

  /** ext2_unlink: the first entry of that name leaves the directory, every other list stays, and the
      inode it named is gone exactly when no entry names it any more. */
  lemma UnlinksIs(a: Moment, b: Moment, d: nat, name: seq<Byte>, n: nat) returns (k: nat)
    requires Unlinks(a, b, d, name, n) && d in a.t && IsDir(a.t[d])
    ensures DirsOk(a.s.d, a.t) && DirsOk(b.s.d, b.t)
    ensures var v, v' := ViewOf(a.s.d, a.t), ViewOf(b.s.d, b.t);
      && d in v && d in v' && k < |v[d]| && v[d][k].name == name && (forall j :: 0 <= j < k ==> v[d][j].name != name)
      && v'[d] == v[d][..k] + v[d][k + 1..] && v' == v[d := v'[d]]
      && var x := v[d][k].ino;
        && b.t == LessOne(a.t, x) && b.syms == LessSym(a.syms, x)
        && (x !in LinksOf(b.t, b.syms) <==> N.Refs(v', x, n) == 0)
  {
    var v, v' := ViewOf(a.s.d, a.t), ViewOf(b.s.d, b.t);
    var x := Find(v[d], name);
    var ft :| Removes(v[d], Ent(x, name, ft), v'[d]);
    k := RemovesIs(v[d], Ent(x, name, ft), v'[d]);
  }

  /** ext2_rename: afterwards the new directory has an entry of the new name, with the inode the old name
      led to and the type given. */
  lemma RenamedIs(v: N.View, l: map<nat, nat>, od: nat, oldname: seq<Byte>, nd: nat, newname: seq<Byte>, ft: Byte,
                  v': N.View, l': map<nat, nat>)
    requires od in v && nd in v && RenamedIn(v, l, od, oldname, nd, newname, ft, v', l')
    requires |newname| <= 255 && newname != [0x2E, 0x2E] && (od == nd ==> oldname != newname)
    ensures nd in v' && Ent(Find(v[od], oldname), newname, ft) in v'[nd]
  {
    var e := Ent(Find(v[od], oldname), newname, ft);
    assert Trunc(newname) == newname;
    hide Trunc, Find, Inserts, Removes, Retargets, Ext2Rename.Cleared, N.Bumped;
    var v1, l1, a, b :|
      && Ext2Rename.Cleared(v, l, nd, newname, v1, l1) && od in v1 && nd in v1 && od in l1 && nd in l1
      && Moved(v1, l1, od, oldname, nd, e, v', l', a, b);
    hide Moved;
    MovedIs(v1, l1, od, oldname, nd, e, v', l', a, b);
  }

  lemma MovedIs(v: N.View, l: map<nat, nat>, od: nat, oldname: seq<Byte>, nd: nat, e: Ent, v': N.View, l': map<nat, nat>,
                a: seq<Ent>, b: seq<Ent>)
    requires od in v && nd in v && od in l && nd in l && Moved(v, l, od, oldname, nd, e, v', l', a, b)
    requires e.name != [0x2E, 0x2E] && (od == nd ==> oldname != e.name)
    ensures nd in v' && e in v'[nd]
  {
    hide Inserts, Removes, Retargets, N.Bumped;
    var k := InsertsIs(v[nd], e, a);
    assert a[k] == e;
    var v2 := v[nd := a][od := b];
    assert e in v2[nd] by {
      if od == nd {
        var ft' :| Removes(a, Ent(e.ino, oldname, ft'), b);
        var j := RemovesIs(a, Ent(e.ino, oldname, ft'), b);
        assert if k < j then b[k] == e else b[k - 1] == e;
      }
    }
    if e.ino in v && od != nd && e.ino == nd {
      var j := RetargetsIs(v2[nd], [0x2E, 0x2E], nd, v'[nd]);
      var i :| 0 <= i < |v2[nd]| && v2[nd][i] == e;
      assert v'[nd][i] == e;
    }
  }

  /** Only the last name of a symlink needs a harmless text. */
  lemma SafeIs(g: Geo, m: Moment, mid: State, d: nat, name: seq<Byte>)
    requires var x := Hit(m, d, name); x !in m.syms || m.syms[x].links > 1
    ensures SafeToDrop(g, m, d, name) && Clean(g, m, mid, Hit(m, d, name))
  {
    hide Hit;
  }

  /** The books after x lost a link: what it owned is free again if that was its last one. */
  lemma SettledIs(g: Geo, a: Moment, b: Moment, d: nat, x: nat)
    requires Settled(g, a, b, d, x)
    ensures GeoOk(g) && |a.s.d| == |b.s.d| == g.blocks
    ensures Used(g, b.s.d) == if x in a.t && a.t[x].links <= 1 then Used(g, a.s.d) - Owned(a.s.d, a.t[x].ptr) else Used(g, a.s.d)
    ensures Balanced(a.s.d, a.t, Used(g, a.s.d)) ==> Balanced(b.s.d, b.t, Used(g, b.s.d))
    ensures forall i :: i in a.t && i != d && (i == x ==> a.t[i].links > 1) ==>
      i in b.t && b.t[i].mode == a.t[i].mode && b.t[i].ptr == a.t[i].ptr && b.t[i].size == a.t[i].size
  {
    hide Balanced, Owned, Used;
    forall i | i in a.t && i != d && (i == x ==> a.t[i].links > 1)
      ensures i in b.t && b.t[i].mode == a.t[i].mode && b.t[i].ptr == a.t[i].ptr && b.t[i].size == a.t[i].size
    {
      assert i !in {d} + Gone(a.t, x);
    }
  }

  /** The last unlink of a symlink with a target of up to 48 bytes: the marks stay if and only if none of the
      twelve words of its text is the number of a marked block; then the invariant holds, and with balanced
      books only then. */
  lemma TextUnlinksIs(g: Geo, a: Moment, mid: State, b: Moment, d: nat, x: nat, inv: bool)
    requires TextUnlinks(g, a, mid, b, d, x, inv) && |TextOf(a.syms, x)| <= 48
    ensures GeoOk(g) && |a.s.d| == |b.s.d| == g.blocks
    ensures var clear := forall k :: 0 <= k < 12 ==> !IsMarked(g, a.s.d, TextPtrs(TextOf(a.syms, x))[k]);
      && ((forall y :: IsMarked(g, b.s.d, y) <==> IsMarked(g, a.s.d, y)) <==> clear)
      && (clear ==> inv) && (Balanced(a.s.d, a.t, Used(g, a.s.d)) && !clear ==> !inv)
  {
    hide IsMarked, Balanced, Harmless, Owned, Ext2Dir.Within, TextPtrs, Used;
  }

  /** A rename touches its two directories, and a directory that changes parents itself. */
  lemma TouchedIs(v: N.View, od: nat, nd: nat, x: nat)
    ensures x !in v || od == nd ==> Touched(v, od, nd, x) == {od, nd}
    ensures x in v && od != nd ==> Touched(v, od, nd, x) == {od, nd, x}
  {
  }

  /** Every inode keeps its mode, and only nd may have grown. */
  lemma OnlyGrewIs(t: Table, t': Table, nd: nat, i: nat)
    requires OnlyGrew(t, t', nd) && i in t
    ensures i in t' && t'[i].mode == t[i].mode
    ensures i != nd ==> t'[i] == t[i].(links := t'[i].links)
  {
  }

  /** The type an entry records: 7 for a symlink, 2 for a directory, 1 for anything else. */
  lemma TypeIs(t: Table, syms: map<nat, Sym>, x: nat)
    ensures TypeOf(t, syms, x) == if x in syms then 7 else if x in t && t[x].mode / 0x1000 == 4 then 2 else 1
  {
  }

  /** Byte j of a fast symlink's i_block[]: the text, then zeros. */
  function TextByte(target: Text, j: nat): Byte {
    if j < |target| then target[j] else 0
  }

  lemma TextIs(target: Text, k: nat)
    requires k < 15
    ensures TextPtrs(target)[k] == TextByte(target, 4 * k) as int + 256 * TextByte(target, 4 * k + 1) as int
      + 65536 * TextByte(target, 4 * k + 2) as int + 16777216 * TextByte(target, 4 * k + 3) as int
  {
  }
}
