/** The block allocator: one bitmap per group, cached free counts, low-first search. */
module Ext2Alloc {
  import opened Bytes
  import opened Ext2Tree

  /** Superblock and group-descriptor geometry. meta holds the blocks mke2fs laid down
      (superblock, descriptors, bitmaps, inode tables): they are never data. */
  datatype Geo = Geo(first: nat, bpg: nat, ngroups: nat, blocks: nat, bitmap: seq<nat>, meta: set<nat>)

  ghost predicate GeoOk(g: Geo) {
    && 1 <= g.first < g.blocks <= 0x8000_0000
    && 1 <= g.bpg <= 8 * BLOCK
    && |g.bitmap| == g.ngroups
    && g.blocks <= g.first + Base(g.ngroups, g.bpg)
    && (forall x :: x in g.meta ==> g.first <= x < g.blocks)
    && (forall k :: 0 <= k < g.ngroups ==> g.bitmap[k] in g.meta)
    && (forall k, l :: 0 <= k < l < g.ngroups ==> g.bitmap[k] != g.bitmap[l])
  }

  // ----- bitmap positions -----
  // Multiplication and division by the group size, by counting groups.

  function Base(k: nat, n: nat): nat {
    if k == 0 then 0 else Base(k - 1, n) + n
  }

  function Group(r: nat, n: nat): nat
    requires n > 0
    decreases r
  {
    if r < n then 0 else Group(r - n, n) + 1
  }

  function Offset(r: nat, n: nat): (b: nat)
    requires n > 0
    ensures b < n
    decreases r
  {
    if r < n then r else Offset(r - n, n)
  }

  lemma {:induction false} BaseIsProduct(k: nat, n: nat)
    ensures Base(k, n) == k * n
  {
    if k > 0 {
      BaseIsProduct(k - 1, n);
      assert (k - 1) * n + n == k * n;
    }
  }

  lemma {:induction false} BaseSplit(r: nat, n: nat)
    requires n > 0
    ensures Base(Group(r, n), n) + Offset(r, n) == r
    decreases r
  {
    if r >= n { BaseSplit(r - n, n); }
  }

  lemma {:induction false} BaseJoin(k: nat, n: nat, b: nat)
    requires b < n
    ensures Group(Base(k, n) + b, n) == k && Offset(Base(k, n) + b, n) == b
  {
    if k > 0 { BaseJoin(k - 1, n, b); }
  }

  lemma {:induction false} BaseStep(k: nat, l: nat, n: nat)
    requires k <= l
    ensures k < l ==> Base(k, n) + n <= Base(l, n)
    ensures Base(k, n) <= Base(l, n)
  {
    if k < l { BaseStep(k, l - 1, n); }
  }

  lemma ProductStep(k: nat, l: nat, n: nat)
    requires k < l
    ensures k * n + n <= l * n
  {
    BaseStep(k, l, n);
    BaseIsProduct(k, n);
    BaseIsProduct(l, n);
  }

  lemma QuotientUnique(r: nat, n: nat, k: nat, b: nat)
    requires b < n && r == k * n + b
    ensures r / n == k && r % n == b
  {
    var q := r / n;
    assert r == q * n + r % n;
    if q < k { ProductStep(q, k, n); }
    if q > k { ProductStep(k, q, n); }
  }

  lemma GroupIsQuotient(r: nat, n: nat)
    requires n > 0
    ensures Group(r, n) == r / n && Offset(r, n) == r % n
  {
    BaseSplit(r, n);
    BaseIsProduct(Group(r, n), n);
    QuotientUnique(r, n, Group(r, n), Offset(r, n));
  }

  function Number(g: Geo, k: nat, bit: nat): nat {
    Base(k, g.bpg) + g.first + bit
  }

  /** The block a bitmap position stands for, as the driver computes it. */
  function BlockNumber(g: Geo, k: nat, bit: nat): (r: nat)
    ensures r == Number(g, k, bit)
  {
    BaseIsProduct(k, g.bpg);
    k * g.bpg + g.first + bit
  }

  predicate InGroups(g: Geo, x: nat) {
    g.first <= x < g.first + Base(g.ngroups, g.bpg)
  }

  lemma GroupBound(g: Geo, x: nat)
    requires g.bpg > 0 && InGroups(g, x)
    ensures Group(x - g.first, g.bpg) < g.ngroups
    ensures Number(g, Group(x - g.first, g.bpg), Offset(x - g.first, g.bpg)) == x
  {
    BaseSplit(x - g.first, g.bpg);
    if Group(x - g.first, g.bpg) >= g.ngroups {
      BaseStep(g.ngroups, Group(x - g.first, g.bpg), g.bpg);
    }
  }

  lemma NumberInGroups(g: Geo, k: nat, bit: nat)
    requires k < g.ngroups && bit < g.bpg
    ensures InGroups(g, Number(g, k, bit))
    ensures Group(Number(g, k, bit) - g.first, g.bpg) == k && Offset(Number(g, k, bit) - g.first, g.bpg) == bit
  {
    BaseStep(k, g.ngroups, g.bpg);
    BaseJoin(k, g.bpg, bit);
  }

  /** The bit of block x in its group's bitmap. */
  ghost predicate Marked(g: Geo, d: Disk, x: nat)
    requires GeoOk(g) && |d| == g.blocks && InGroups(g, x)
  {
    GroupBound(g, x);
    BitAt(d[g.bitmap[Group(x - g.first, g.bpg)]], Offset(x - g.first, g.bpg))
  }

  /** Blocks in use as data or pointer blocks. */
  ghost function Used(g: Geo, d: Disk): set<nat>
    requires GeoOk(g) && |d| == g.blocks
  {
    set x | g.first <= x < g.blocks && x !in g.meta && Marked(g, d, x)
  }

  // ----- free counts -----

  /** Clear bits among the first n of a bitmap. */
  function Clear(bm: seq<Byte>, n: nat): (c: nat)
    requires n <= 8 * |bm|
    ensures c <= n
  {
    if n == 0 then 0 else Clear(bm, n - 1) + if BitAt(bm, n - 1) then 0 else 1
  }

  function Sum(s: seq<nat>): nat {
    if s == [] then 0 else s[0] + Sum(s[1..])
  }

  lemma {:induction false} NoneClear(bm: seq<Byte>, n: nat)
    requires n <= 8 * |bm|
    ensures Clear(bm, n) == 0 <==> forall j: nat :: j < n ==> BitAt(bm, j)
  {
    if n > 0 { NoneClear(bm, n - 1); }
  }

  /** Flipping one bit moves the count by one. */
  lemma {:induction false} ClearFlip(bm: seq<Byte>, bm': seq<Byte>, i: nat, n: nat)
    requires n <= 8 * |bm| && |bm'| == |bm| && i < 8 * |bm|
    requires !BitAt(bm, i) && BitAt(bm', i)
    requires forall j: nat :: j < 8 * |bm| && j != i ==> BitAt(bm', j) == BitAt(bm, j)
    ensures Clear(bm, n) == Clear(bm', n) + if i < n then 1 else 0
  {
    if n > 0 { ClearFlip(bm, bm', i, n - 1); }
  }

  lemma {:induction false} SumUpdate(s: seq<nat>, i: nat, v: nat)
    requires i < |s|
    ensures Sum(s[i := v]) == Sum(s) - s[i] + v
    ensures s[i] <= Sum(s)
  {
    var s' := s[i := v];
    if i > 0 {
      assert s'[1..] == s[1..][i - 1 := v];
      SumUpdate(s[1..], i - 1, v);
    } else {
      assert s'[1..] == s[1..];
    }
  }

  lemma {:induction false} SumZero(s: seq<nat>)
    requires forall k :: 0 <= k < |s| ==> s[k] == 0
    ensures Sum(s) == 0
  {
    if s != [] { SumZero(s[1..]); }
  }

  /** The bits past the last block, and those of the metadata, are set. */
  ghost predicate Pinned(g: Geo, d: Disk)
    requires GeoOk(g) && |d| == g.blocks
  {
    forall x: nat :: InGroups(g, x) && (x >= g.blocks || x in g.meta) ==> Marked(g, d, x)
  }

  ghost predicate GroupCounts(g: Geo, d: Disk, gfree: seq<nat>)
    requires GeoOk(g) && |d| == g.blocks
  {
    && |gfree| == g.ngroups
    && forall k :: 0 <= k < g.ngroups ==> gfree[k] == Clear(d[g.bitmap[k]], g.bpg)
  }

  /** Each cached group count is the number of clear bits and the superblock count is their sum. */
  ghost predicate Tally(g: Geo, d: Disk, gfree: seq<nat>, sfree: nat) {
    GeoOk(g) && |d| == g.blocks && GroupCounts(g, d, gfree) && sfree == Sum(gfree)
  }

  /** ... and the marks of metadata are in place. */
  ghost predicate CountsOk(g: Geo, d: Disk, gfree: seq<nat>, sfree: nat) {
    Tally(g, d, gfree, sfree) && Pinned(g, d)
  }

  /** d' differs from d at most in the bitmap blocks, and there only in the bit of block x. */
  ghost predicate OnlyBit(g: Geo, d: Disk, d': Disk, x: nat)
    requires GeoOk(g) && |d| == g.blocks
  {
    && |d'| == |d|
    && (forall y :: 0 <= y < |d| && y !in g.bitmap ==> d'[y] == d[y])
    && (forall y: nat :: InGroups(g, y) && y != x ==> Marked(g, d', y) == Marked(g, d, y))
  }

  /** Rewriting one bit of one bitmap flips the mark of exactly one block. */
  lemma OneBit(g: Geo, d: Disk, k: nat, bit: nat, bm: Block)
    requires GeoOk(g) && |d| == g.blocks && k < g.ngroups && bit < g.bpg
    requires forall j: nat :: j < 8 * BLOCK && j != bit ==> BitAt(bm, j) == BitAt(d[g.bitmap[k]], j)
    ensures InGroups(g, Number(g, k, bit))
    ensures OnlyBit(g, d, d[g.bitmap[k] := bm], Number(g, k, bit))
    ensures Marked(g, d[g.bitmap[k] := bm], Number(g, k, bit)) == BitAt(bm, bit)
    ensures Marked(g, d, Number(g, k, bit)) == BitAt(d[g.bitmap[k]], bit)
  {
    var d' := d[g.bitmap[k] := bm];
    NumberInGroups(g, k, bit);
    forall y: nat | InGroups(g, y) && y != Number(g, k, bit)
      ensures Marked(g, d', y) == Marked(g, d, y)
    {
      GroupBound(g, y);
    }
  }

  /** The mounted file system: the disk, the cached counts and the inode table. */
  class Ext2 {
    const geo: Geo
    var disk: Disk
    var gfree: seq<nat>
    var sfree: nat
    var table: Table
    /** Every number handed to free_block, in order. */
    ghost var log: seq<nat>

    ghost predicate Counts()
      reads this
    {
      CountsOk(geo, disk, gfree, sfree)
    }

    ghost function InUse(): set<nat>
      requires Counts()
      reads this
    {
      Used(geo, disk)
    }

    constructor (g: Geo, d: Disk, gf: seq<nat>, sf: nat, t: Table)
      ensures geo == g && disk == d && gfree == gf && sfree == sf && table == t
    {
      geo, disk, gfree, sfree, table, log := g, d, gf, sf, t, [];
    }

    /** First clear bit among nbits, or -1. */
    static method BitmapFindFree(bm: seq<Byte>, nbits: nat) returns (r: int)
      requires nbits <= 8 * |bm|
      ensures -1 <= r < nbits
      ensures r >= 0 ==> !BitAt(bm, r) && forall j: nat :: j < r ==> BitAt(bm, j)
      ensures r < 0 ==> forall j: nat :: j < nbits ==> BitAt(bm, j)
    {
      for i := 0 to nbits
        invariant forall j: nat :: j < i ==> BitAt(bm, j)
      {
        if !BitAt(bm, i) { return i; }
      }
      return -1;
    }

    /** Claim the lowest free block; 0 exactly when every block is taken. */
    method AllocBlock() returns (r: nat)
      requires Counts()
      modifies this`disk, this`gfree, this`sfree
      ensures Counts()
      ensures r == 0 <==> old(sfree) == 0
      ensures r == 0 ==> disk == old(disk) && gfree == old(gfree) && sfree == 0
      ensures r != 0 ==> Claimed(geo, old(disk), disk, r) && sfree == old(sfree) - 1
    {
      hide Claimed, Pinned, Base, BlockNumber;
      for g := 0 to geo.ngroups
        invariant disk == old(disk) && gfree == old(gfree) && sfree == old(sfree)
        invariant forall k :: 0 <= k < g ==> gfree[k] == 0
      {
        if gfree[g] == 0 { continue; }
        var bm: Block := disk[geo.bitmap[g]];
        var bit := BitmapFindFree(bm, geo.bpg);
        if bit < 0 {
          NoneClear(bm, geo.bpg);
          continue;
        }
        var bm': Block := SetAt(bm, bit);
        r := BlockNumber(geo, g, bit);
        Claim(geo, disk, gfree, sfree, g, bit, disk[geo.bitmap[g] := bm']);
        disk := disk[geo.bitmap[g] := bm'];
        gfree := gfree[g := gfree[g] - 1];
        sfree := sfree - 1;
        return r;
      }
      SumZero(gfree);
      return 0;
    }

    /** Release block b, whatever it is: its mark goes, and the counts follow. A number outside the
        groups, or of a block that is free already, is left alone. */
    method FreeBlock(b: nat)
      requires Tally(geo, disk, gfree, sfree)
      modifies this`disk, this`gfree, this`sfree, this`log
      ensures log == old(log) + [b]
      ensures Tally(geo, disk, gfree, sfree) && Dropped(geo, old(disk), disk, b)
      ensures IsMarked(geo, old(disk), b) ==> sfree == old(sfree) + 1
      ensures !IsMarked(geo, old(disk), b) ==> disk == old(disk) && gfree == old(gfree) && sfree == old(sfree)
    {
      hide Base, Clear, Dropped;
      DroppedRefl(geo, disk, b);
      log := log + [b];
      if b < geo.first { return; }
      var rel := b - geo.first;
      var g, bit := rel / geo.bpg, rel % geo.bpg;
      assert g == Group(rel, geo.bpg) && bit == Offset(rel, geo.bpg) by { GroupIsQuotient(rel, geo.bpg); }
      GroupInside(geo, b);
      if g >= geo.ngroups { return; }
      GroupBound(geo, b);
      var bm: Block := disk[geo.bitmap[g]];
      if !BitAt(bm, bit) { return; }
      var bm': Block := ClearAt(bm, bit);
      Release(geo, disk, gfree, sfree, g, bit, disk[geo.bitmap[g] := bm']);
      disk := disk[geo.bitmap[g] := bm'];
      gfree := gfree[g := gfree[g] + 1];
      sfree := sfree + 1;
    }
  }

  /** x lies inside the groups and its bit is set. */
  ghost predicate IsMarked(g: Geo, d: Disk, x: nat)
    requires GeoOk(g) && |d| == g.blocks
  {
    InGroups(g, x) && Marked(g, d, x)
  }

  /** d' is d with the mark of b taken away, if it had one. */
  ghost predicate Dropped(g: Geo, d: Disk, d': Disk, b: nat)
    requires GeoOk(g) && |d| == g.blocks
  {
    && |d'| == |d|
    && (forall y :: 0 <= y < |d| && y !in g.bitmap ==> d'[y] == d[y])
    && forall y: nat :: IsMarked(g, d', y) <==> IsMarked(g, d, y) && y != b
  }

  lemma DroppedRefl(g: Geo, d: Disk, b: nat)
    requires GeoOk(g) && |d| == g.blocks
    ensures !IsMarked(g, d, b) ==> Dropped(g, d, d, b)
  {
  }

  lemma GroupInside(g: Geo, x: nat)
    requires g.bpg > 0 && g.first <= x
    ensures InGroups(g, x) <==> Group(x - g.first, g.bpg) < g.ngroups
  {
    BaseSplit(x - g.first, g.bpg);
    if Group(x - g.first, g.bpg) < g.ngroups {
      NumberInGroups(g, Group(x - g.first, g.bpg), Offset(x - g.first, g.bpg));
    } else {
      BaseStep(g.ngroups, Group(x - g.first, g.bpg), g.bpg);
    }
  }

  /** When the groups before g are full and bit is the first clear bit of g, every block below
      that bit's block is taken. */
  lemma LowFirst(g: Geo, d: Disk, gfree: seq<nat>, k: nat, bit: nat)
    requires GeoOk(g) && |d| == g.blocks && |gfree| == g.ngroups && k < g.ngroups && bit < g.bpg
    requires forall l :: 0 <= l < g.ngroups ==> gfree[l] == Clear(d[g.bitmap[l]], g.bpg)
    requires forall l :: 0 <= l < k ==> gfree[l] == 0
    requires forall j: nat :: j < bit ==> BitAt(d[g.bitmap[k]], j)
    ensures forall x: nat :: g.first <= x < Number(g, k, bit) ==> InGroups(g, x) && Marked(g, d, x)
  {
    NumberInGroups(g, k, bit);
    forall x: nat | g.first <= x < Number(g, k, bit)
      ensures InGroups(g, x) && Marked(g, d, x)
    {
      var l := Group(x - g.first, g.bpg);
      GroupBound(g, x);
      if l > k { BaseStep(k, l, g.bpg); }
      if l < k { NoneClear(d[g.bitmap[l]], g.bpg); }
    }
  }

  lemma PinnedStep(g: Geo, d: Disk, d': Disk, x: nat)
    requires GeoOk(g) && |d| == g.blocks && Pinned(g, d) && OnlyBit(g, d, d', x)
    requires InGroups(g, x) && (Marked(g, d', x) || (x < g.blocks && x !in g.meta))
    ensures Pinned(g, d')
  {
    forall y: nat | InGroups(g, y) && (y >= g.blocks || y in g.meta)
      ensures Marked(g, d', y)
    {
      if y != x { assert Marked(g, d, y); }
    }
  }

  /** Flipping one bit and adjusting its group's count keeps the counts exact. */
  lemma CountStep(g: Geo, d: Disk, gfree: seq<nat>, k: nat, bit: nat, bm: Block, gf': nat)
    requires GeoOk(g) && |d| == g.blocks && GroupCounts(g, d, gfree) && k < g.ngroups && bit < g.bpg
    requires forall j: nat :: j < 8 * BLOCK && j != bit ==> BitAt(bm, j) == BitAt(d[g.bitmap[k]], j)
    requires BitAt(bm, bit) != BitAt(d[g.bitmap[k]], bit)
    requires gf' as int == gfree[k] as int + (if BitAt(bm, bit) then -1 else 1)
    ensures GroupCounts(g, d[g.bitmap[k] := bm], gfree[k := gf'])
  {
    if BitAt(bm, bit) {
      ClearFlip(d[g.bitmap[k]], bm, bit, g.bpg);
    } else {
      ClearFlip(bm, d[g.bitmap[k]], bit, g.bpg);
    }
  }

  /** Setting the first clear bit of the first group with room claims the lowest free block. */
  lemma Claim(g: Geo, d: Disk, gfree: seq<nat>, sfree: nat, k: nat, bit: nat, d': Disk)
    requires CountsOk(g, d, gfree, sfree) && k < g.ngroups && bit < g.bpg
    requires forall l :: 0 <= l < k ==> gfree[l] == 0
    requires !BitAt(d[g.bitmap[k]], bit) && forall j: nat :: j < bit ==> BitAt(d[g.bitmap[k]], j)
    requires d' == d[g.bitmap[k] := SetAt(d[g.bitmap[k]], bit)]
    ensures gfree[k] > 0 && sfree > 0
    ensures InGroups(g, Number(g, k, bit))
    ensures Claimed(g, d, d', Number(g, k, bit))
    ensures CountsOk(g, d', gfree[k := gfree[k] - 1], sfree - 1)
  {
    var bm, r := d[g.bitmap[k]], Number(g, k, bit);
    var bm' := SetAt(bm, bit);
    assert OnlyBit(g, d, d', r) && InGroups(g, r) && !Marked(g, d, r) && Marked(g, d', r) by {
      SetAtBits(bm, bit);
      OneBit(g, d, k, bit, bm');
    }
    assert gfree[k] > 0 by { NoneClear(bm, g.bpg); }
    assert GroupCounts(g, d', gfree[k := gfree[k] - 1]) by {
      SetAtBits(bm, bit);
      CountStep(g, d, gfree, k, bit, bm', gfree[k] - 1);
    }
    SumUpdate(gfree, k, gfree[k] - 1);
    LowFirst(g, d, gfree, k, bit);
    assert r < g.blocks && r !in g.meta;
    PinnedStep(g, d, d', r);
  }

  /** r was the lowest free block; only its mark changed. */
  ghost predicate Claimed(g: Geo, d: Disk, d': Disk, r: nat)
    requires GeoOk(g) && |d| == g.blocks
  {
    && g.first <= r < g.blocks && r !in g.meta
    && OnlyBit(g, d, d', r)
    && !Marked(g, d, r) && Marked(g, d', r)
    && forall x: nat :: g.first <= x < r ==> Marked(g, d, x)
  }

  /** Clearing a set bit gives the block back. */
  lemma Release(g: Geo, d: Disk, gfree: seq<nat>, sfree: nat, k: nat, bit: nat, d': Disk)
    requires Tally(g, d, gfree, sfree) && k < g.ngroups && bit < g.bpg
    requires BitAt(d[g.bitmap[k]], bit)
    requires d' == d[g.bitmap[k] := ClearAt(d[g.bitmap[k]], bit)]
    ensures IsMarked(g, d, Number(g, k, bit)) && Dropped(g, d, d', Number(g, k, bit))
    ensures Tally(g, d', gfree[k := gfree[k] + 1], sfree + 1)
  {
    var bm, r := d[g.bitmap[k]], Number(g, k, bit);
    var bm' := ClearAt(bm, bit);
    ClearAtBits(bm, bit);
    hide BitAt, ClearAt;
    OneBit(g, d, k, bit, bm');
    CountStep(g, d, gfree, k, bit, bm', gfree[k] + 1);
    SumUpdate(gfree, k, gfree[k] + 1);
    BitDropped(g, d, d', r);
  }

  lemma BitDropped(g: Geo, d: Disk, d': Disk, r: nat)
    requires GeoOk(g) && |d| == g.blocks && InGroups(g, r) && OnlyBit(g, d, d', r) && !Marked(g, d', r)
    ensures Dropped(g, d, d', r)
  {
    hide Marked;
  }
}
