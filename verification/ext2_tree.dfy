/** The block map of an ext2 inode as a tree of slots.

    A slot is named by its path: an i_block[] index, then one index per pointer block. The
    block map, ownership and file contents are all functions of (disk, i_block), so a change
    to the disk is understood by which slots it changes. */
module Ext2Tree {
  import opened Bytes

  const BLOCK: nat := 1024
  const PTRS: nat := 256
  const NDIR: nat := 12
  const IND: nat := 12
  const DIND: nat := 13
  const TIND: nat := 14
  const NSLOTS: nat := 15
  const MAXBLOCKS: nat := 12 + 256 + 65536 + 16777216

  type Block = b: seq<Byte> | |b| == 1024 witness seq(1024, _ => 0)
  type Disk = seq<Block>
  type Ptrs = p: seq<nat> | |p| == 15 witness seq(15, _ => 0)

  /** i_links_count has 16 bits. */
  type U16 = n: nat | n < 0x1_0000

  /** The inode fields the driver uses; sectors is i_blocks, in 512-byte units. */
  datatype Inode = Inode(mode: nat, links: U16, size: nat, sectors: nat, ptr: Ptrs)

  type Table = map<nat, Inode>

  function Zeros(): Block {
    seq(1024, _ => 0)
  }

  // ----- pointer blocks -----

  function Entry(b: Block, i: nat): nat
    requires i < PTRS
  {
    Le32(b, 4 * i)
  }

  function PutEntry(b: Block, i: nat, v: nat): Block
    requires i < PTRS && v < 0x1_0000_0000
  {
    PutLe32(b, 4 * i, v)
  }

  lemma EntryOfPut(b: Block, i: nat, v: nat, j: nat)
    requires i < PTRS && j < PTRS && v < 0x1_0000_0000
    ensures Entry(PutEntry(b, i, v), j) == if i == j then v else Entry(b, j)
  {
  }

  // ----- paths -----

  datatype Path = Root(slot: nat) | Child(parent: Path, idx: nat)

  function Slot(p: Path): nat {
    match p
    case Root(s) => s
    case Child(q, _) => Slot(q)
  }

  function Depth(p: Path): nat {
    match p
    case Root(_) => 0
    case Child(q, _) => Depth(q) + 1
  }

  /** How many pointer blocks lie between i_block[slot] and the data. */
  function Levels(slot: nat): nat {
    if slot < NDIR then 0 else slot - 11
  }

  predicate Valid(p: Path): (v: bool)
    ensures v ==> Slot(p) < NSLOTS && Depth(p) <= Levels(Slot(p))
  {
    match p
    case Root(s) => s < NSLOTS
    case Child(q, i) => Valid(q) && i < PTRS && Depth(q) < Levels(Slot(q))
  }

  predicate IsLeaf(p: Path) {
    Valid(p) && Depth(p) == Levels(Slot(p))
  }

  /** The block number stored in slot p, 0 for a hole or below one. A pointer past the end of
      the disk cannot be read and counts as a hole. */
  function At(d: Disk, ptr: Ptrs, p: Path): nat
    requires Valid(p)
  {
    match p
    case Root(s) => ptr[s]
    case Child(q, i) =>
      var x := At(d, ptr, q);
      if 0 < x < |d| then Entry(d[x], i) else 0
  }

  /** The slot of file block b. */
  function PathOf(b: nat): (p: Path)
    requires b < MAXBLOCKS
    ensures IsLeaf(p)
  {
    if b < 12 then Root(b)
    else if b < 268 then Child(Root(IND), b - 12)
    else if b < 65804 then Child(Child(Root(DIND), (b - 268) / 256), (b - 268) % 256)
    else
      var c := b - 65804;
      var root := Root(TIND);
      var top := Child(root, c / 65536);
      assert Valid(root) && Slot(root) == TIND && Depth(root) == 0;
      assert Valid(top) && Slot(top) == TIND && Depth(top) == 1;
      var mid := Child(top, c / 256 % 256);
      assert Valid(mid) && Slot(mid) == TIND && Depth(mid) == 2;
      Child(mid, c % 256)
  }

  /** The file block of a data slot: the inverse of PathOf. */
  function IndexOf(p: Path): nat
    requires IsLeaf(p)
  {
    match p
    case Root(s) => s
    case Child(Root(s), i) => 12 + i
    case Child(Child(Root(s), i), j) => 268 + 256 * i + j
    case Child(Child(Child(q, i), j), k) => 65804 + 65536 * i + 256 * j + k
  }

  lemma Digits(i: nat, j: nat, k: nat)
    requires j < 256 && k < 256
    ensures var x := 65536 * i + 256 * j + k;
      x / 65536 == i && x / 256 % 256 == j && x % 256 == k
  {
    var x := 65536 * i + 256 * j + k;
    assert x / 256 == 256 * i + j;
  }

  /** The block map is one-to-one ... */
  lemma IndexOfPath(b: nat)
    requires b < MAXBLOCKS
    ensures IndexOf(PathOf(b)) == b
  {
    if b >= 65804 {
      var c := b - 65804;
      assert c == 256 * (c / 256) + c % 256 && c / 256 == 256 * (c / 65536) + c / 256 % 256;
    }
  }

  /** ... and onto the data slots. */
  lemma PathOfIndex(p: Path)
    requires IsLeaf(p)
    ensures IndexOf(p) < MAXBLOCKS && PathOf(IndexOf(p)) == p
  {
    match p {
      case Root(s) =>
      case Child(Root(s), i) =>
      case Child(Child(Root(s), i), j) =>
        assert Valid(p.parent) && Slot(p.parent) == s && Depth(p) == 2;
      case Child(Child(Child(q, i), j), k) =>
        assert Valid(p.parent) && j < PTRS;
        assert Valid(p.parent.parent) && i < PTRS;
        assert Levels(Slot(p)) <= 3;
        assert q == Root(TIND);
        Digits(i, j, k);
    }
  }

  function Map(d: Disk, ptr: Ptrs, b: nat): nat
    requires b < MAXBLOCKS
  {
    At(d, ptr, PathOf(b))
  }

  // ----- file contents -----

  /** Byte k of the file: holes read as zero. */
  function ByteAt(d: Disk, ptr: Ptrs, k: nat): Byte
    requires k < MAXBLOCKS * BLOCK
  {
    var x := Map(d, ptr, k / BLOCK);
    if 0 < x < |d| then d[x][k % BLOCK] else 0
  }

  // ----- ownership -----

  ghost predicate Owns(d: Disk, ptr: Ptrs, x: nat) {
    exists p :: Valid(p) && At(d, ptr, p) == x
  }

  /** Every block, data or pointer, that the inode reaches. */
  ghost function Owned(d: Disk, ptr: Ptrs): set<nat> {
    set x | 0 < x < |d| && Owns(d, ptr, x)
  }

  /** Slot p of inode i holds nothing or an allocated block. */
  ghost predicate Held(d: Disk, t: Table, used: set<nat>, i: nat, p: Path) {
    i in t && Valid(p) ==> At(d, t[i].ptr, p) == 0 || At(d, t[i].ptr, p) in used
  }

  /** Every pointer is a hole or an allocated block. */
  ghost predicate Grounded(d: Disk, t: Table, used: set<nat>) {
    forall i, p :: Held(d, t, used, i, p)
  }

  /** Slot p of inode i and slot q of inode j hold the same block. */
  ghost predicate Shares(d: Disk, t: Table, i: nat, p: Path, j: nat, q: Path) {
    && i in t && j in t && Valid(p) && Valid(q)
    && At(d, t[i].ptr, p) == At(d, t[j].ptr, q) != 0
  }

  /** No block hangs from two slots, of one inode or of two. */
  ghost predicate Exclusive(d: Disk, t: Table) {
    forall i, p, j, q :: Shares(d, t, i, p, j, q) ==> i == j && p == q
  }

  /** i_blocks counts two sectors for each block the inode reaches. */
  ghost predicate Counted(d: Disk, t: Table) {
    forall i :: i in t ==> t[i].sectors == 2 * |Owned(d, t[i].ptr)|
  }

  ghost predicate Consistent(d: Disk, t: Table, used: set<nat>) {
    && (forall x :: x in used ==> 0 < x < |d|)
    && Grounded(d, t, used)
    && Exclusive(d, t)
  }

  ghost predicate HasOwner(d: Disk, t: Table, x: nat) {
    exists i :: i in t && x in Owned(d, t[i].ptr)
  }

  /** The books are closed: i_blocks is exact, and a used block has an owner. Consistent is the other
      half, an owned block is used. */
  ghost predicate Balanced(d: Disk, t: Table, used: set<nat>) {
    Counted(d, t) && forall x :: x in used ==> HasOwner(d, t, x)
  }

  /** Balance is a matter of owned sets and sector counts. */
  lemma SameBalanced(d: Disk, t: Table, d': Disk, t': Table, used: set<nat>)
    requires Balanced(d, t, used) && t'.Keys == t.Keys
    requires forall i :: i in t ==> t'[i].sectors == t[i].sectors && Owned(d', t'[i].ptr) == Owned(d, t[i].ptr)
    ensures Balanced(d', t', used)
  {
    hide Owned;
    forall x | x in used ensures HasOwner(d', t', x) {
      assert HasOwner(d, t, x);
      var i :| i in t && x in Owned(d, t[i].ptr);
      assert i in t' && x in Owned(d', t'[i].ptr);
    }
  }

  lemma SlotHeld(d: Disk, t: Table, used: set<nat>, i: nat, p: Path)
    requires Consistent(d, t, used) && i in t && Valid(p)
    ensures var x := At(d, t[i].ptr, p); x == 0 || (x in used && 0 < x < |d|)
  {
    assert Held(d, t, used, i, p);
  }

  /** Slots depend only on the pointer blocks above them. */
  lemma {:induction false} AtFrame(d: Disk, d': Disk, ptr: Ptrs, p: Path)
    requires Valid(p) && |d| == |d'|
    requires forall q :: Valid(q) && !IsLeaf(q) && 0 < At(d, ptr, q) < |d| ==> d'[At(d, ptr, q)] == d[At(d, ptr, q)]
    ensures At(d', ptr, p) == At(d, ptr, p)
  {
    match p
    case Root(_) =>
    case Child(q, _) => AtFrame(d, d', ptr, q);
  }

  /** A write that misses every used block changes no slot, no owner and no byte of any file. */
  lemma FrameAll(d: Disk, d': Disk, t: Table, used: set<nat>)
    requires Consistent(d, t, used) && |d| == |d'|
    requires forall x :: x in used ==> d'[x] == d[x]
    ensures forall i, p :: i in t && Valid(p) ==> At(d', t[i].ptr, p) == At(d, t[i].ptr, p)
    ensures Consistent(d', t, used)
  {
    forall i, p | i in t && Valid(p)
      ensures At(d', t[i].ptr, p) == At(d, t[i].ptr, p)
    {
      forall q | Valid(q) && 0 < At(d, t[i].ptr, q) < |d|
        ensures d'[At(d, t[i].ptr, q)] == d[At(d, t[i].ptr, q)]
      {
        assert Held(d, t, used, i, q);
      }
      AtFrame(d, d', t[i].ptr, p);
    }
    SameSlots(d, d', t, used);
  }

  /** Consistency is a matter of what the slots hold. */
  lemma SameSlots(d: Disk, d': Disk, t: Table, used: set<nat>)
    requires Consistent(d, t, used) && |d| == |d'|
    requires forall i, p :: i in t && Valid(p) ==> At(d', t[i].ptr, p) == At(d, t[i].ptr, p)
    ensures Consistent(d', t, used)
    ensures forall i :: i in t ==> Owned(d', t[i].ptr) == Owned(d, t[i].ptr)
    ensures Counted(d, t) ==> Counted(d', t)
  {
    forall i | i in t
      ensures Owned(d', t[i].ptr) == Owned(d, t[i].ptr)
    {
      SameOwned(d, d', t[i].ptr, t[i].ptr);
    }
    forall i, p, j, q | Shares(d', t, i, p, j, q)
      ensures i == j && p == q
    {
      assert Shares(d, t, i, p, j, q);
    }
    forall i, p
      ensures Held(d', t, used, i, p)
    {
      assert Held(d, t, used, i, p);
    }
  }

  lemma SameOwned(d: Disk, d': Disk, ptr: Ptrs, ptr': Ptrs)
    requires |d| == |d'|
    requires forall p :: Valid(p) ==> At(d', ptr', p) == At(d, ptr, p)
    ensures Owned(d', ptr') == Owned(d, ptr)
  {
    forall x
      ensures Owns(d, ptr, x) <==> Owns(d', ptr', x)
    {
      if Owns(d, ptr, x) {
        var p :| Valid(p) && At(d, ptr, p) == x;
        assert At(d', ptr', p) == x;
      }
      if Owns(d', ptr', x) {
        var p :| Valid(p) && At(d', ptr', p) == x;
        assert At(d, ptr, p) == x;
      }
    }
  }

  // ----- hanging a fresh block from an empty slot -----

  /** (d', ptr') is (d, ptr) with block nb stored in the empty slot p. */
  predicate Hangs(d: Disk, ptr: Ptrs, p: Path, nb: nat, d': Disk, ptr': Ptrs)
    requires Valid(p) && nb < 0x1_0000_0000
  {
    match p
    case Root(s) => d' == d && ptr' == ptr[s := nb]
    case Child(q, i) =>
      var x := At(d, ptr, q);
      0 < x < |d| && ptr' == ptr && d' == d[x := PutEntry(d[x], i, nb)]
  }

  /** Storing a zeroed, unowned block in an empty slot fills that slot and no other. */
  lemma {:induction false} HangSlot(d: Disk, t: Table, inum: nat, p: Path, nb: nat, d': Disk, ptr': Ptrs, q: Path)
    requires inum in t && Valid(p) && Valid(q) && 0 < nb < |d| <= 0x1_0000_0000
    requires At(d, t[inum].ptr, p) == 0 && d[nb] == Zeros()
    requires forall r :: Valid(r) ==> At(d, t[inum].ptr, r) != nb
    requires Exclusive(d, t)
    requires Hangs(d, t[inum].ptr, p, nb, d', ptr')
    ensures At(d', ptr', q) == if q == p then nb else At(d, t[inum].ptr, q)
  {
    var ptr := t[inum].ptr;
    match q
    case Root(_) =>
    case Child(r, j) =>
      HangSlot(d, t, inum, p, nb, d', ptr', r);
      var y := At(d, ptr, r);
      if r != p && p.Child? && 0 < y < |d| {
        if y == At(d, ptr, p.parent) {
          assert Shares(d, t, inum, r, inum, p.parent);
          EntryOfPut(d[y], p.idx, nb, j);
        }
      }
  }

  /** What filling slot p of inum with nb does to the slots of the whole table. */
  ghost predicate Filled(d: Disk, t: Table, inum: nat, p: Path, nb: nat, d': Disk, ino': Inode)
    requires inum in t && Valid(p)
  {
    && (forall q :: Valid(q) ==> At(d', ino'.ptr, q) == if q == p then nb else At(d, t[inum].ptr, q))
    && (forall i, q :: i in t && i != inum && Valid(q) ==> At(d', t[i].ptr, q) == At(d, t[i].ptr, q))
  }

  lemma FilledOwned(d: Disk, t: Table, inum: nat, p: Path, nb: nat, d': Disk, ino': Inode)
    requires inum in t && Valid(p) && |d| == |d'| && 0 < nb < |d|
    requires At(d, t[inum].ptr, p) == 0
    requires Filled(d, t, inum, p, nb, d', ino')
    ensures Owned(d', ino'.ptr) == Owned(d, t[inum].ptr) + {nb}
    ensures forall i :: i in t && i != inum ==> Owned(d', t[i].ptr) == Owned(d, t[i].ptr)
  {
    var ptr := t[inum].ptr;
    forall x | 0 < x < |d|
      ensures Owns(d', ino'.ptr, x) <==> x == nb || Owns(d, ptr, x)
    {
      if x == nb {
        assert At(d', ino'.ptr, p) == x;
      } else if Owns(d, ptr, x) {
        var q :| Valid(q) && At(d, ptr, q) == x;
        assert At(d', ino'.ptr, q) == x;
      } else {
        forall q | Valid(q)
          ensures At(d', ino'.ptr, q) != x
        {
          assert At(d, ptr, q) != x;
        }
      }
    }
    forall i | i in t && i != inum
      ensures Owned(d', t[i].ptr) == Owned(d, t[i].ptr)
    {
      SameOwned(d, d', t[i].ptr, t[i].ptr);
    }
  }

  lemma FilledExclusive(d: Disk, t: Table, used: set<nat>, inum: nat, p: Path, nb: nat, d': Disk, ino': Inode)
    requires inum in t && Valid(p) && nb != 0 && nb !in used
    requires Filled(d, t, inum, p, nb, d', ino')
    requires Grounded(d, t, used) && Exclusive(d, t)
    ensures Grounded(d', t[inum := ino'], used + {nb}) && Exclusive(d', t[inum := ino'])
  {
    var t' := t[inum := ino'];
    forall i, q
      ensures Held(d', t', used + {nb}, i, q)
    {
      assert Held(d, t, used, i, q);
    }
    forall i, q, j, r | Shares(d', t', i, q, j, r)
      ensures i == j && q == r
    {
      assert Held(d, t, used, i, q) && Held(d, t, used, j, r);
      if !(i == inum && q == p) && !(j == inum && r == p) {
        assert Shares(d, t, i, q, j, r);
      }
    }
  }

  /** The step bmap_alloc repeats: it keeps the tree consistent, fills one slot, and leaves
      every other slot of every inode as it was. */
  lemma Hang(d: Disk, t: Table, used: set<nat>, inum: nat, p: Path, nb: nat, d': Disk, ino': Inode)
    requires Consistent(d, t, used) && inum in t && Valid(p)
    requires 0 < nb < |d| <= 0x1_0000_0000 && nb !in used
    requires At(d, t[inum].ptr, p) == 0 && d[nb] == Zeros()
    requires Hangs(d, t[inum].ptr, p, nb, d', ino'.ptr)
    ensures Filled(d, t, inum, p, nb, d', ino')
    ensures Owned(d', ino'.ptr) == Owned(d, t[inum].ptr) + {nb}
    ensures nb !in Owned(d, t[inum].ptr)
    ensures Consistent(d', t[inum := ino'], used + {nb})
  {
    assert Filled(d, t, inum, p, nb, d', ino') by {
      HangHere(d, t, used, inum, p, nb, d', ino'.ptr);
      HangElsewhere(d, t, used, inum, p, nb, d', ino'.ptr);
    }
    assert nb !in Owned(d, t[inum].ptr) by { HangHere(d, t, used, inum, p, nb, d', ino'.ptr); }
    FilledOwned(d, t, inum, p, nb, d', ino');
    FilledExclusive(d, t, used, inum, p, nb, d', ino');
  }

  lemma HangHere(d: Disk, t: Table, used: set<nat>, inum: nat, p: Path, nb: nat, d': Disk, ptr': Ptrs)
    requires inum in t && Valid(p) && 0 < nb < |d| <= 0x1_0000_0000 && nb !in used
    requires At(d, t[inum].ptr, p) == 0 && d[nb] == Zeros()
    requires Grounded(d, t, used) && Exclusive(d, t)
    requires Hangs(d, t[inum].ptr, p, nb, d', ptr')
    ensures forall q :: Valid(q) ==> At(d', ptr', q) == if q == p then nb else At(d, t[inum].ptr, q)
    ensures nb !in Owned(d, t[inum].ptr)
  {
    forall r | Valid(r)
      ensures At(d, t[inum].ptr, r) != nb
    {
      assert Held(d, t, used, inum, r);
    }
    forall q | Valid(q)
      ensures At(d', ptr', q) == if q == p then nb else At(d, t[inum].ptr, q)
    {
      HangSlot(d, t, inum, p, nb, d', ptr', q);
    }
  }

  lemma HangElsewhere(d: Disk, t: Table, used: set<nat>, inum: nat, p: Path, nb: nat, d': Disk, ptr': Ptrs)
    requires inum in t && Valid(p) && nb < 0x1_0000_0000
    requires Exclusive(d, t)
    requires Hangs(d, t[inum].ptr, p, nb, d', ptr')
    ensures forall i, q :: i in t && i != inum && Valid(q) ==> At(d', t[i].ptr, q) == At(d, t[i].ptr, q)
  {
    forall i, q | i in t && i != inum && Valid(q)
      ensures At(d', t[i].ptr, q) == At(d, t[i].ptr, q)
    {
      forall r | Valid(r) && 0 < At(d, t[i].ptr, r) < |d|
        ensures d'[At(d, t[i].ptr, r)] == d[At(d, t[i].ptr, r)]
      {
        assert p.Child? && Shares(d, t, i, r, inum, p.parent) ==> i == inum;
      }
      AtFrame(d, d', t[i].ptr, q);
    }
  }
}
