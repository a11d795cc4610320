/** Files as byte sequences: read, write, truncate. */
module Ext2File {
  import opened Bytes
  import opened Ext2Tree
  import opened Ext2Alloc
  import opened Ext2Map
  import opened Ext2Free

  const MAXBYTES: nat := 17247252480   // MAXBLOCKS * BLOCK: what the block map can address
  const U32: nat := 0x1_0000_0000

  /** Between calls: exact counts and a consistent tree for the stored inodes. */
  ghost predicate Mounted(fs: Ext2)
    reads fs
  {
    && fs.Counts() && Consistent(fs.disk, fs.table, fs.InUse())
    && forall i :: i in fs.table ==> fs.table[i].size < U32
  }

  // ----- contents -----

  function Content(d: Disk, ino: Inode): (c: seq<Byte>)
    requires ino.size <= MAXBYTES
    ensures |c| == ino.size
  {
    seq(ino.size, k requires 0 <= k < ino.size => ByteAt(d, ino.ptr, k))
  }

  /** Stored bytes at and past i_size are zero. */
  ghost predicate TailZero(d: Disk, ino: Inode) {
    forall k: nat :: ino.size <= k < MAXBYTES ==> ByteAt(d, ino.ptr, k) == 0
  }

  /** c zero-extended to reach off + |data|, with data laid over [off, off + |data|). */
  function Splice(c: seq<Byte>, off: nat, data: seq<Byte>): (r: seq<Byte>)
    ensures |r| == if off + |data| > |c| then off + |data| else |c|
  {
    var n := if off + |data| > |c| then off + |data| else |c|;
    seq(n, k requires 0 <= k < n => if off <= k < off + |data| then data[k - off] else if k < |c| then c[k] else 0)
  }

  /** Byte k of inode i. */
  function FileByte(d: Disk, t: Table, i: nat, k: nat): Byte
    requires i in t && k < MAXBYTES
  {
    ByteAt(d, t[i].ptr, k)
  }

  // ----- rewriting a data block -----

  /** Overwriting a data block moves no slot and changes one block of one file. */
  lemma DataWrite(d: Disk, t: Table, u: set<nat>, inum: nat, b: nat, blk: Block, d': Disk)
    requires Consistent(d, t, u) && inum in t && b < MAXBLOCKS
    requires 0 < Map(d, t[inum].ptr, b) < |d| && d' == d[Map(d, t[inum].ptr, b) := blk]
    ensures Consistent(d', t, u) && (Counted(d, t) ==> Counted(d', t))
    ensures forall i: nat, k: nat :: i in t && k < MAXBYTES ==>
      FileByte(d', t, i, k) == if i == inum && k / BLOCK == b then blk[k % BLOCK] else FileByte(d, t, i, k)
  {
    DataSlots(d, t, u, inum, b, blk, d');
    forall i: nat, k: nat | i in t && k < MAXBYTES
      ensures FileByte(d', t, i, k) == if i == inum && k / BLOCK == b then blk[k % BLOCK] else FileByte(d, t, i, k)
    {
      DataByte(d, t, inum, b, i, k / BLOCK);
      assert At(d', t[i].ptr, PathOf(k / BLOCK)) == At(d, t[i].ptr, PathOf(k / BLOCK));
    }
  }

  /** The block at index b of inum is the block at index c of i only if they are the same place. */
  lemma DataByte(d: Disk, t: Table, inum: nat, b: nat, i: nat, c: nat)
    requires Exclusive(d, t) && inum in t && i in t && b < MAXBLOCKS && c < MAXBLOCKS
    requires Map(d, t[inum].ptr, b) != 0
    ensures Map(d, t[i].ptr, c) == Map(d, t[inum].ptr, b) <==> i == inum && c == b
  {
    assert Shares(d, t, i, PathOf(c), inum, PathOf(b)) ==> i == inum && PathOf(c) == PathOf(b);
    IndexOfPath(b);
    IndexOfPath(c);
  }

  /** No pointer block is a data block. */
  lemma NotALeaf(d: Disk, t: Table, inum: nat, b: nat, i: nat, r: Path)
    requires Exclusive(d, t) && inum in t && i in t && b < MAXBLOCKS && Valid(r) && !IsLeaf(r)
    requires Map(d, t[inum].ptr, b) != 0
    ensures At(d, t[i].ptr, r) != Map(d, t[inum].ptr, b)
  {
    var p := PathOf(b);
    assert Shares(d, t, i, r, inum, p) ==> r == p;
  }

  lemma DataSlots(d: Disk, t: Table, u: set<nat>, inum: nat, b: nat, blk: Block, d': Disk)
    requires Consistent(d, t, u) && inum in t && b < MAXBLOCKS
    requires 0 < Map(d, t[inum].ptr, b) < |d| && d' == d[Map(d, t[inum].ptr, b) := blk]
    ensures Consistent(d', t, u) && (Counted(d, t) ==> Counted(d', t))
    ensures forall i, q :: i in t && Valid(q) ==> At(d', t[i].ptr, q) == At(d, t[i].ptr, q)
    ensures forall i :: i in t ==> Owned(d', t[i].ptr) == Owned(d, t[i].ptr)
  {
    forall i, q | i in t && Valid(q)
      ensures At(d', t[i].ptr, q) == At(d, t[i].ptr, q)
    {
      forall r | Valid(r) && !IsLeaf(r)
        ensures At(d, t[i].ptr, r) != Map(d, t[inum].ptr, b)
      {
        NotALeaf(d, t, inum, b, i, r);
      }
      AtFrame(d, d', t[i].ptr, q);
    }
    SameSlots(d, d', t, u);
  }

  // ----- read -----

  /** ext2_read: the requested slice, clamped to i_size; -1 for an inode that does not exist. */
  method Read(fs: Ext2, inum: nat, off: nat, buf: array<Byte>, len0: nat) returns (n: int)
    requires Mounted(fs) && len0 <= buf.Length
    modifies buf
    ensures n == -1 <==> inum !in fs.table
    ensures inum in fs.table ==>
      var c := Content(fs.disk, fs.table[inum]);
      && n == (if off >= |c| then 0 else if off + len0 > |c| then |c| - off else len0)
      && buf[..n] == if n == 0 then [] else c[off..off + n]
    ensures buf[if n < 0 then 0 else n..] == old(buf[if n < 0 then 0 else n..])
  {
    hide Consistent, CountsOk, PathOf, At;
    if inum !in fs.table { return -1; }
    var ino := fs.table[inum];
    if off >= ino.size { return 0; }
    var len := len0;
    if off + len > ino.size { len := ino.size - off; }
    var done := 0;
    while done < len
      invariant done <= len
      invariant forall j :: 0 <= j < done ==> buf[j] == ByteAt(fs.disk, ino.ptr, off + j)
      invariant forall j :: done <= j < buf.Length ==> buf[j] == old(buf[j])
    {
      var pos := off + done;
      var bi, boff := pos / BLOCK, pos % BLOCK;
      var m := BLOCK - boff;
      if m > len - done { m := len - done; }
      var phys := Bmap(fs, ino, bi);
      if phys == 0 {
        for i := 0 to m
          invariant forall j :: 0 <= j < done + i ==> buf[j] == ByteAt(fs.disk, ino.ptr, off + j)
          invariant forall j :: done + i <= j < buf.Length ==> buf[j] == old(buf[j])
        {
          SameBlock(pos, i);
          buf[done + i] := 0;
        }
      } else {
        InDisk(fs.disk, fs.table, fs.InUse(), inum, bi);
        var blk := fs.disk[phys];
        for i := 0 to m
          invariant forall j :: 0 <= j < done + i ==> buf[j] == ByteAt(fs.disk, ino.ptr, off + j)
          invariant forall j :: done + i <= j < buf.Length ==> buf[j] == old(buf[j])
        {
          SameBlock(pos, i);
          buf[done + i] := blk[boff + i];
        }
      }
      done := done + m;
    }
    return done;
  }

  lemma InDisk(d: Disk, t: Table, u: set<nat>, inum: nat, b: nat)
    requires Consistent(d, t, u) && inum in t && b < MAXBLOCKS
    ensures Map(d, t[inum].ptr, b) == 0 || 0 < Map(d, t[inum].ptr, b) < |d|
  {
    assert Held(d, t, u, inum, PathOf(b));
  }

  /** A byte that stays inside pos's block shares its block index. */
  lemma SameBlock(pos: nat, i: nat)
    requires i < BLOCK - pos % BLOCK
    ensures (pos + i) / BLOCK == pos / BLOCK && (pos + i) % BLOCK == pos % BLOCK + i
  {
  }

  // ----- write -----

  /** What the bytes of every file are once the first done bytes of data are in place. */
  ghost predicate Written(d: Disk, t: Table, d': Disk, t': Table, inum: nat, off: nat, data: seq<Byte>) {
    && t'.Keys == t.Keys
    && forall i: nat, k: nat :: i in t && k < MAXBYTES ==>
         FileByte(d', t', i, k) ==
           if i == inum && off <= k < off + |data| then data[k - off] else FileByte(d, t, i, k)
  }

  /** One turn of the write loop, on byte sequences. */
  lemma WriteTurn(d0: Disk, t0: Table, d: Disk, t: Table, d': Disk, inum: nat, off: nat,
                  data: seq<Byte>, done: nat, m: nat, old_: Block, blk: Block)
    requires done + m <= |data| && inum in t0 && Written(d0, t0, d, t, inum, off, data[..done])
    requires off + |data| <= MAXBYTES && m <= BLOCK - (off + done) % BLOCK
    requires forall k: nat :: k < MAXBYTES && k / BLOCK == (off + done) / BLOCK ==>
      FileByte(d, t, inum, k) == old_[k % BLOCK]
    requires forall i: nat, k: nat :: i in t && k < MAXBYTES ==>
      FileByte(d', t, i, k) == if i == inum && k / BLOCK == (off + done) / BLOCK then blk[k % BLOCK] else FileByte(d, t, i, k)
    requires forall i :: 0 <= i < BLOCK ==>
      blk[i] == if 0 <= i - (off + done) % BLOCK < m then data[done + i - (off + done) % BLOCK] else old_[i]
    ensures Written(d0, t0, d', t, inum, off, data[..done + m])
  {
    var pos := off + done;
    forall i: nat, k: nat | i in t0 && k < MAXBYTES
      ensures FileByte(d', t, i, k) ==
        if i == inum && off <= k < off + done + m then data[..done + m][k - off] else FileByte(d0, t0, i, k)
    {
      if i == inum {
        if pos <= k < pos + m {
          SameBlock(pos, k - pos);
        } else if k / BLOCK == pos / BLOCK {
          assert k % BLOCK - pos % BLOCK == k - pos;
        }
      }
    }
  }

  /** One turn of the write loop: map the block, then read-modify-write the slice that falls in
      it. Returns the bytes written, 0 when no block could be allocated. */
  method WriteChunk(fs: Ext2, inum: nat, ino0: Inode, off: nat, data: seq<Byte>, done: nat, ghost d0: Disk)
    returns (ino: Inode, m: nat)
    requires inum in fs.table && Ready(fs, inum, ino0)
    requires done < |data| && off + |data| <= MAXBYTES
    requires Written(d0, fs.table, fs.disk, fs.table[inum := ino0], inum, off, data[..done])
    modifies fs`disk, fs`gfree, fs`sfree
    ensures Ready(fs, inum, ino)
    ensures ino == ino0.(ptr := ino.ptr, sectors := ino.sectors)
    ensures m == 0 ==> fs.sfree == 0
    ensures done + m <= |data|
    ensures Written(d0, fs.table, fs.disk, fs.table[inum := ino], inum, off, data[..done + m])
    ensures Counted(old(fs.disk), fs.table[inum := ino0]) ==> Counted(fs.disk, fs.table[inum := ino])
  {
    hide Consistent, CountsOk, Written, Counted, Extends, FileByte, At, PathOf, Owned, Used, Map;
    var pos := off + done;
    var bi, boff := pos / BLOCK, pos % BLOCK;
    m := BLOCK - boff;
    if m > |data| - done { m := |data| - done; }
    ghost var t0: Table, d1, u1 := fs.table, fs.disk, fs.InUse();
    ghost var t1: Table := t0[inum := ino0];
    var phys;
    ino, phys := BmapAlloc(fs, inum, ino0, bi);
    GrowKeepsBytes(d0, t0, d1, ino0, u1, fs.disk, ino, fs.InUse(), inum, off, data[..done], PathOf(bi));
    ExtendsSectors(d1, t0[inum := ino0], u1, fs.disk, ino, fs.InUse(), inum, PathOf(bi));
    assert t1[inum := ino] == t0[inum := ino];
    ExtendsInode(d1, t0[inum := ino0], u1, fs.disk, ino, fs.InUse(), inum, PathOf(bi));
    if phys == 0 { return ino, 0; }
    InDisk(fs.disk, t0[inum := ino], fs.InUse(), inum, bi);
    DataNotMeta(fs, t0[inum := ino], inum, bi);
    ghost var d2 := fs.disk;
    BlockBytes(d2, t0[inum := ino], inum, bi);
    var blk: Block := fs.disk[phys];
    blk := CopyInto(blk, boff, data, done, m);
    WriteKeepsCounts(fs.geo, d2, fs.gfree, fs.sfree, phys, blk);
    fs.disk := fs.disk[phys := blk];
    DataWrite(d2, t0[inum := ino], fs.InUse(), inum, bi, blk, fs.disk);
    WriteTurn(d0, t0, d2, t0[inum := ino], fs.disk, inum, off, data, done, m, d2[phys], blk);
  }

  lemma BlockBytes(d: Disk, t: Table, inum: nat, b: nat)
    requires inum in t && b < MAXBLOCKS && 0 < Map(d, t[inum].ptr, b) < |d|
    ensures forall k: nat :: k < MAXBYTES && k / BLOCK == b ==>
      FileByte(d, t, inum, k) == d[Map(d, t[inum].ptr, b)][k % BLOCK]
  {
  }

  lemma ExtendsInode(d: Disk, t: Table, u: set<nat>, d': Disk, ino': Inode, u': set<nat>, inum: nat, p: Path)
    requires inum in t && Extends(d, t, u, d', ino', u', inum, p)
    ensures |d'| == |d| && ino' == t[inum].(ptr := ino'.ptr, sectors := ino'.sectors)
  {
  }

  /** ext2_write: returns the bytes written, fewer than asked only when the disk is full. */
  method Write(fs: Ext2, inum: nat, off: nat, data: seq<Byte>) returns (n: int)
    requires Mounted(fs) && off + |data| <= MAXBYTES
    modifies fs`disk, fs`gfree, fs`sfree, fs`table
    ensures n == -1 <==> inum !in old(fs.table)
    ensures inum !in old(fs.table) ==> fs.disk == old(fs.disk) && fs.table == old(fs.table)
    ensures inum in old(fs.table) ==>
      && 0 <= n <= |data| && (n < |data| ==> fs.sfree == 0)
      && Mounted(fs) && inum in fs.table
      && Written(old(fs.disk), old(fs.table), fs.disk, fs.table, inum, off, data[..n])
      && (Counted(old(fs.disk), old(fs.table)) ==> Counted(fs.disk, fs.table))
      && fs.table == old(fs.table)[inum := fs.table[inum]]
      && fs.table[inum].size == (if off + n > old(fs.table)[inum].size then (off + n) % U32 else old(fs.table)[inum].size)
  {
    hide Consistent, CountsOk, Written, Counted;
    if inum !in fs.table { return -1; }
    var ino := fs.table[inum];
    ghost var d0, t0 := fs.disk, fs.table;
    assert t0[inum := ino] == t0;
    WrittenRefl(d0, t0, inum, off, data);
    var done := 0;
    while done < |data|
      invariant done <= |data| && fs.table == t0
      invariant Ready(fs, inum, ino)
      invariant ino == t0[inum].(ptr := ino.ptr, sectors := ino.sectors)
      invariant Written(d0, t0, fs.disk, t0[inum := ino], inum, off, data[..done])
      invariant Counted(d0, t0) ==> Counted(fs.disk, t0[inum := ino])
    {
      var m;
      ino, m := WriteChunk(fs, inum, ino, off, data, done, d0);
      if m == 0 { break; }
      done := done + m;
    }
    ghost var grown := ino;
    if off + done > ino.size { ino := ino.(size := (off + done) % U32); }
    fs.table := fs.table[inum := ino];
    SamePtrs(fs.disk, t0[inum := grown], fs.table, fs.InUse());
    SameFileBytes(d0, t0, fs.disk, t0[inum := grown], fs.table, inum, off, data[..done]);
    return done;
  }

  /** The slice of data laid over a block, byte by byte. */
  method CopyInto(blk0: Block, boff: nat, data: seq<Byte>, done: nat, m: nat) returns (blk: Block)
    requires boff + m <= BLOCK && done + m <= |data|
    ensures forall i :: 0 <= i < BLOCK ==> blk[i] == if 0 <= i - boff < m then data[done + i - boff] else blk0[i]
  {
    blk := blk0;
    for i := 0 to m
      invariant forall j :: 0 <= j < BLOCK ==> blk[j] == if 0 <= j - boff < i then data[done + j - boff] else blk0[j]
    {
      blk := blk[boff + i := data[done + i]];
    }
  }

  lemma NotMeta(fs: Ext2, t: Table, inum: nat, p: Path)
    requires fs.Counts() && Consistent(fs.disk, t, fs.InUse()) && inum in t && Valid(p)
    ensures At(fs.disk, t[inum].ptr, p) != 0 ==> At(fs.disk, t[inum].ptr, p) !in fs.geo.meta
  {
    assert Held(fs.disk, t, fs.InUse(), inum, p);
  }

  lemma DataNotMeta(fs: Ext2, t: Table, inum: nat, b: nat)
    requires fs.Counts() && Consistent(fs.disk, t, fs.InUse()) && inum in t && b < MAXBLOCKS
    ensures Map(fs.disk, t[inum].ptr, b) != 0 ==> Map(fs.disk, t[inum].ptr, b) !in fs.geo.meta
  {
    NotMeta(fs, t, inum, PathOf(b));
  }

  /** Growing the tree leaves every byte as the writes so far left it. */
  lemma GrowKeepsBytes(d0: Disk, t0: Table, d1: Disk, ino1: Inode, u1: set<nat>, d2: Disk, ino2: Inode, u2: set<nat>,
                       inum: nat, off: nat, data: seq<Byte>, p: Path)
    requires inum in t0 && Written(d0, t0, d1, t0[inum := ino1], inum, off, data)
    requires Extends(d1, t0[inum := ino1], u1, d2, ino2, u2, inum, p)
    requires Consistent(d2, t0[inum := ino2], u2)
    ensures Written(d0, t0, d2, t0[inum := ino2], inum, off, data)
  {
    var t1, t2 := t0[inum := ino1], t0[inum := ino2];
    assert t1[inum := ino2] == t2;
    forall i: nat, k: nat | i in t0 && k < MAXBYTES
      ensures FileByte(d2, t2, i, k) == FileByte(d1, t1, i, k)
    {
      ExtendsBytes(d1, t1, u1, d2, ino2, u2, inum, p, i, k);
    }
  }

  lemma WrittenRefl(d: Disk, t: Table, inum: nat, off: nat, data: seq<Byte>)
    ensures Written(d, t, d, t, inum, off, data[..0])
  {
  }

  lemma SameFileBytes(d0: Disk, t0: Table, d: Disk, a: Table, b: Table, inum: nat, off: nat, data: seq<Byte>)
    requires Written(d0, t0, d, a, inum, off, data)
    requires a.Keys == b.Keys && forall i :: i in a ==> a[i].ptr == b[i].ptr
    ensures Written(d0, t0, d, b, inum, off, data)
  {
    forall i: nat, k: nat | i in t0 && k < MAXBYTES
      ensures FileByte(d, b, i, k) == FileByte(d, a, i, k)
    {
    }
  }

  /** Consistency does not look at i_size. */
  lemma SamePtrs(d: Disk, a: Table, b: Table, u: set<nat>)
    requires a.Keys == b.Keys
    requires forall i :: i in a ==> a[i].ptr == b[i].ptr
    ensures Consistent(d, a, u) ==> Consistent(d, b, u)
    ensures Counted(d, a) && (forall i :: i in a ==> a[i].sectors == b[i].sectors) ==> Counted(d, b)
  {
    if Consistent(d, a, u) {
      forall i, p ensures Held(d, b, u, i, p) { assert Held(d, a, u, i, p); }
      forall i, p, j, q | Shares(d, b, i, p, j, q) ensures i == j && p == q { assert Shares(d, a, i, p, j, q); }
    }
  }

  /** The file after a write that stays below 4 GiB: the old content, zero-extended, with the
      written bytes laid over it; the tail stays zero. */
  lemma WriteContent(d: Disk, t: Table, d': Disk, t': Table, inum: nat, off: nat, data: seq<Byte>)
    requires inum in t && inum in t' && Written(d, t, d', t', inum, off, data)
    requires t[inum].size < U32 && TailZero(d, t[inum]) && off + |data| < U32
    requires t'[inum].size == if off + |data| > t[inum].size then off + |data| else t[inum].size
    ensures Content(d', t'[inum]) == Splice(Content(d, t[inum]), off, data)
    ensures TailZero(d', t'[inum])
  {
    forall k: nat | k < MAXBYTES
      ensures k >= t[inum].size ==> FileByte(d, t, inum, k) == 0
      ensures ByteAt(d', t'[inum].ptr, k) == FileByte(d', t', inum, k)
      ensures ByteAt(d', t'[inum].ptr, k) ==
        if off <= k < off + |data| then data[k - off] else ByteAt(d, t[inum].ptr, k)
    {
      if k >= t[inum].size { assert ByteAt(d, t[inum].ptr, k) == 0; }
    }
  }

  /** Reading back what was written gives the data, and two adjoining writes are one. */
  lemma SpliceReads(c: seq<Byte>, off: nat, a: seq<Byte>, b: seq<Byte>)
    ensures Splice(c, off, a)[off..off + |a|] == a
    ensures Splice(Splice(c, off, a), off + |a|, b) == Splice(c, off, a + b)
  {
    assert forall k :: 0 <= k < |a| ==> Splice(c, off, a)[off + k] == a[k];
  }

  /** i_size has 32 bits: a write that ends at or past 4 GiB does not produce the spliced file. */
  lemma WriteWraps(d: Disk, t: Table, d': Disk, t': Table, inum: nat, off: nat, data: seq<Byte>)
    requires inum in t && inum in t' && t[inum].size < U32 && t'[inum].size < U32
    requires off + |data| >= U32
    ensures Content(d', t'[inum]) != Splice(Content(d, t[inum]), off, data)
  {
    assert |Splice(Content(d, t[inum]), off, data)| >= U32;
  }

  /** One byte written to the last place i_size can count: the byte is there, and the file is empty. */
  lemma LastByteLost(d: Disk, t: Table, d': Disk, t': Table, inum: nat, c: Byte)
    requires inum in t && inum in t' && t[inum].size < U32 && Written(d, t, d', t', inum, U32 - 1, [c])
    requires t'[inum].size == (U32 - 1 + |[c]|) % U32
    ensures FileByte(d', t', inum, U32 - 1) == c && Content(d', t'[inum]) == []
  {
  }

  /** Every other file keeps its content. */
  lemma WriteOthers(d: Disk, t: Table, d': Disk, t': Table, inum: nat, off: nat, data: seq<Byte>, i: nat)
    requires Written(d, t, d', t', inum, off, data) && i in t && i in t' && i != inum && t'[i] == t[i] && t[i].size < U32
    ensures Content(d', t'[i]) == Content(d, t[i])
    ensures TailZero(d, t[i]) ==> TailZero(d', t'[i])
  {
    forall k: nat | k < MAXBYTES
      ensures ByteAt(d', t'[i].ptr, k) == ByteAt(d, t[i].ptr, k)
    {
      assert FileByte(d', t', i, k) == FileByte(d, t, i, k);
    }
    assert Content(d', t'[i]) == Content(d, t[i]);
  }

  // ----- truncate -----

  /** ext2_truncate (and the release half of unlink at zero links): the inode keeps its number
      and loses its blocks, every other file is untouched, and the free count grows by exactly
      the blocks given back. */
  method Truncate(fs: Ext2, inum: nat) returns (r: int)
    requires Mounted(fs)
    modifies fs`disk, fs`gfree, fs`sfree, fs`table, fs`log
    ensures r == (if inum in old(fs.table) then 0 else -1)
    ensures inum !in old(fs.table) ==> fs.disk == old(fs.disk) && fs.table == old(fs.table)
    ensures inum in old(fs.table) ==>
      && Mounted(fs) && inum in fs.table
      && fs.table == old(fs.table)[inum := fs.table[inum]] && fs.table[inum].size == fs.table[inum].sectors == 0
      && (Counted(old(fs.disk), old(fs.table)) ==> Counted(fs.disk, fs.table))
      && Owned(fs.disk, fs.table[inum].ptr) == {} && TailZero(fs.disk, fs.table[inum])
      && fs.InUse() == old(fs.InUse()) - Owned(old(fs.disk), old(fs.table)[inum].ptr)
      && fs.sfree == old(fs.sfree) + |Owned(old(fs.disk), old(fs.table)[inum].ptr)|
      && forall i: nat, k: nat :: i in fs.table && i != inum && k < MAXBYTES ==>
           FileByte(fs.disk, fs.table, i, k) == FileByte(old(fs.disk), fs.table, i, k)
  {
    if inum !in fs.table { return -1; }
    var ino := fs.table[inum];
    ghost var d, t, gf, sf := fs.disk, fs.table, fs.gfree, fs.sfree;
    assert t[inum := ino] == t;
    ghost var calls;
    ino, calls := FreeInodeBlocks(fs, inum, ino);
    ino := ino.(size := 0, sectors := 0);
    ReleaseKeeps(fs.geo, d, gf, sf, fs.disk, fs.gfree, fs.sfree, t, inum, ino);
    fs.table := fs.table[inum := ino];
    ReleasedBytes(fs.geo, d, fs.disk, t, fs.table, Used(fs.geo, d), inum);
    return 0;
  }

  lemma ReleasedBytes(g: Geo, d: Disk, d': Disk, t: Table, t': Table, u: set<nat>, inum: nat)
    requires GeoOk(g) && |d| == |d'| == g.blocks && inum in t && inum in t' && t' == t[inum := t'[inum]] && Consistent(d, t, u)
    requires forall x :: x in u ==> x !in g.meta
    requires forall y :: 0 <= y < |d| && y !in g.bitmap ==> d'[y] == d[y]
    requires forall i, p :: i in t && i != inum && Valid(p) ==> At(d', t[i].ptr, p) == At(d, t[i].ptr, p)
    requires Empty(t'[inum].ptr)
    ensures TailZero(d', t'[inum])
    ensures forall i: nat, k: nat :: i in t' && i != inum && k < MAXBYTES ==> FileByte(d', t', i, k) == FileByte(d, t, i, k)
  {
    forall k: nat | k < MAXBYTES
      ensures ByteAt(d', t'[inum].ptr, k) == 0
    {
      NoSlots(d', t'[inum].ptr, PathOf(k / BLOCK));
    }
    forall i: nat, k: nat | i in t' && i != inum && k < MAXBYTES
      ensures FileByte(d', t', i, k) == FileByte(d, t, i, k)
    {
      assert Held(d, t, u, i, PathOf(k / BLOCK));
    }
  }
}
