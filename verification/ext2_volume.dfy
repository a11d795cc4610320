/** create, symlink, link, unlink and rename over the disk. */
module Ext2Volume {
  import opened Bytes
  import opened Ext2Tree
  import opened Ext2Alloc
  import opened Ext2Map
  import opened Ext2Free
  import opened Ext2File
  import opened Ext2DirBlock
  import opened Ext2Dir
  import N = Ext2Namespace

  const MODE_REG: nat := 0x81A4
  const MODE_DIR: nat := 0x41ED
  const FT_REG: Byte := 1
  const FT_DIR: Byte := 2
  const FT_SYMLINK: Byte := 7

  predicate IsDir(ino: Inode) {
    ino.mode / 0x1000 == 4
  }

  /** A fast symlink: its i_block[] holds the target text, so it is kept apart from the inodes
      whose i_block[] holds block numbers. */
  datatype Sym = Sym(links: U16, target: Text)

  /** i_block[] holds at most 60 bytes of text. */
  type Text = t: seq<Byte> | |t| <= 60

  // ----- the namespace a disk stands for -----

  ghost predicate DirsOk(d: Disk, t: Table) {
    forall i :: i in t && IsDir(t[i]) ==> DirOk(d, t[i]) && t[i].size > 0
  }

  ghost function ViewOf(d: Disk, t: Table): N.View
    requires DirsOk(d, t)
  {
    map i | i in t && IsDir(t[i]) :: Entries(d, t[i])
  }

  ghost function UpOf(d: Disk, t: Table): map<nat, nat>
    requires DirsOk(d, t)
  {
    map i | i in t && IsDir(t[i]) :: Find(Head(d, t[i]), N.DOTDOT)
  }

  ghost function LinksOf(t: Table, syms: map<nat, Sym>): map<nat, nat> {
    (map i | i in t :: t[i].links) + (map i | i in syms :: syms[i].links)
  }

  class Volume {
    const fs: Ext2
    const firstIno: nat
    const icount: nat
    var syms: map<nat, Sym>

    constructor (fs: Ext2, firstIno: nat, icount: nat, syms: map<nat, Sym>)
      ensures this.fs == fs && this.firstIno == firstIno && this.icount == icount && this.syms == syms
    {
      this.fs, this.firstIno, this.icount, this.syms := fs, firstIno, icount, syms;
    }

    /** Tiled directories and exact link counts, whatever the bitmaps say. */
    ghost predicate Named()
      reads this, fs
    {
      && DirsOk(fs.disk, fs.table) && fs.table.Keys !! syms.Keys && 1 <= firstIno && icount < U32
      && N.NamesOk(ViewOf(fs.disk, fs.table), LinksOf(fs.table, syms), UpOf(fs.disk, fs.table), icount + 1)
    }

    /** ... and exact block accounting. */
    ghost predicate Inv()
      reads this, fs
    {
      Mounted(fs) && Named()
    }

    ghost function Links(): map<nat, nat>
      reads this, fs
    {
      LinksOf(fs.table, syms)
    }

    /** alloc_inode: the lowest free number from the first non-reserved one on, 0 if there is none. */
    method AllocInode() returns (r: nat)
      ensures r != 0 ==> firstIno <= r <= icount && r !in Links() && forall i :: firstIno <= i < r ==> i in Links()
      ensures r == 0 && firstIno > 0 ==> forall i :: firstIno <= i <= icount ==> i in Links()
    {
      var i := firstIno;
      while i <= icount
        invariant forall j :: firstIno <= j < i ==> j in Links()
      {
        if i !in fs.table && i !in syms { return i; }
        i := i + 1;
      }
      return 0;
    }
  }

  // ----- one inode changed -----

  /** The table with inode inum's directory rewritten (or added, if it is new): its entries are
      the new ones, every other directory reads as before. */
  lemma OneChanged(d: Disk, t: Table, d': Disk, t': Table, inum: nat)
    requires DirsOk(d, t - {inum}) && OthersKept(d, t, d', t', inum)
    requires inum in t && IsDir(t'[inum]) && DirOk(d', t'[inum]) && t'[inum].size > 0
    ensures DirsOk(d', t')
    ensures ViewOf(d', t') == ViewOf(d, t - {inum})[inum := Entries(d', t'[inum])]
    ensures UpOf(d', t') == UpOf(d, t - {inum})[inum := Find(Head(d', t'[inum]), N.DOTDOT)]
  {
    OthersSame(d, t, d', t', inum);
    forall i | i in t' && IsDir(t'[i])
      ensures DirOk(d', t'[i]) && t'[i].size > 0
    {
      if i != inum { assert (t - {inum})[i] == t[i]; }
    }
    ViewChanged(d, t, d', t', inum);
    UpChanged(d, t, d', t', inum);
  }

  lemma ViewChanged(d: Disk, t: Table, d': Disk, t': Table, inum: nat)
    requires DirsOk(d, t - {inum}) && DirsOk(d', t') && OthersKept(d, t, d', t', inum) && inum in t && IsDir(t'[inum])
    ensures ViewOf(d', t') == ViewOf(d, t - {inum})[inum := Entries(d', t'[inum])]
  {
    OthersSame(d, t, d', t', inum);
  }

  lemma UpChanged(d: Disk, t: Table, d': Disk, t': Table, inum: nat)
    requires DirsOk(d, t - {inum}) && DirsOk(d', t') && OthersKept(d, t, d', t', inum) && inum in t && IsDir(t'[inum])
    ensures UpOf(d', t') == UpOf(d, t - {inum})[inum := Find(Head(d', t'[inum]), N.DOTDOT)]
  {
    OthersSame(d, t, d', t', inum);
  }

  /** Leaving out an inode that is not a directory leaves the namespace as it is. */
  lemma WithoutFile(d: Disk, t: Table, inum: nat)
    requires inum in t && !IsDir(t[inum]) && (DirsOk(d, t) || DirsOk(d, t - {inum}))
    ensures DirsOk(d, t) && DirsOk(d, t - {inum})
    ensures ViewOf(d, t - {inum}) == ViewOf(d, t) && UpOf(d, t - {inum}) == UpOf(d, t)
  {
    forall i | i in t && IsDir(t[i])
      ensures DirOk(d, t[i]) && t[i].size > 0
    {
      if i != inum { assert (t - {inum})[i] == t[i]; }
    }
  }

  /** Replacing a directory's list leaves it out first. */
  lemma WithoutDir(d: Disk, t: Table, inum: nat)
    requires inum in t && DirsOk(d, t)
    ensures DirsOk(d, t - {inum})
    ensures ViewOf(d, t - {inum}) == ViewOf(d, t) - {inum} && UpOf(d, t - {inum}) == UpOf(d, t) - {inum}
  {
  }

  lemma OthersSame(d: Disk, t: Table, d': Disk, t': Table, inum: nat)
    requires OthersKept(d, t, d', t', inum)
    ensures t'.Keys == t.Keys && forall i :: i in t && i != inum ==> t'[i] == t[i]
    ensures forall i :: i in t && i != inum && DirOk(d, t[i]) ==>
      t'[i] == t[i] && DirOk(d', t'[i]) && Entries(d', t'[i]) == Entries(d, t[i])
        && (t[i].size > 0 ==> Head(d', t'[i]) == Head(d, t[i]))
  {
    forall i | i in t && i != inum && DirOk(d, t[i])
      ensures t'[i] == t[i] && DirOk(d', t'[i]) && Entries(d', t'[i]) == Entries(d, t[i])
      ensures t[i].size > 0 ==> Head(d', t'[i]) == Head(d, t[i])
    {
      forall b: nat | b < Blocks(t[i].size)
        ensures SameBlockAt(d, t[i].ptr, d', t[i].ptr, b)
      {
      }
      SameDir(d, t[i], d', t[i]);
    }
  }

  /** The other inodes keep their lists whatever happened to inum. */
  lemma RestKept(d: Disk, t: Table, d': Disk, t': Table, inum: nat)
    requires DirsOk(d, t - {inum}) && OthersKept(d, t, d', t', inum)
    ensures DirsOk(d', t' - {inum})
    ensures ViewOf(d', t' - {inum}) == ViewOf(d, t - {inum}) && UpOf(d', t' - {inum}) == UpOf(d, t - {inum})
  {
    OthersSame(d, t, d', t', inum);
  }
}
