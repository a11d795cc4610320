/** Unlinking a fast symlink. ext2_unlink hands the inode to free_inode_blocks whatever its mode, so
    at the last name the target text is walked as if it were block numbers. */
module Ext2Symlink {
  import opened Bytes
  import opened Ext2Tree
  import opened Ext2Alloc
  import opened Ext2Map
  import opened Ext2Free
  import opened Ext2File
  import opened Ext2Dir
  import opened Ext2Volume
  import opened Ext2Steps
  import N = Ext2Namespace

  const MODE_LNK: nat := 0xA1FF

  /** A fast symlink's i_block[], read as the block numbers unlink takes it for. */
  function TextPtrs(target: Text): Ptrs {
    var text := target + seq(60 - |target|, _ => 0);
    seq(NSLOTS, k requires 0 <= k < NSLOTS => Le32(text, 4 * k))
  }

  /** None of the numbers the walk meets has a mark to lose. */
  ghost predicate Harmless(g: Geo, d: Disk, target: Text)
    requires GeoOk(g) && |d| == g.blocks
  {
    Idle(g, d, SlotCalls(d, TextPtrs(target), NSLOTS))
  }

  ghost predicate SameMarks(g: Geo, d: Disk, d': Disk)
    requires GeoOk(g) && |d| == g.blocks && |d'| == |d|
  {
    forall y :: IsMarked(g, d', y) <==> IsMarked(g, d, y)
  }

  // ----- targets of up to 48 bytes: direct slots only -----

  lemma {:induction false} DirectCalls(d: Disk, ptr: Ptrs, n: nat, y: nat)
    requires n <= NDIR
    ensures y in SlotCalls(d, ptr, n) <==> y != 0 && exists k :: 0 <= k < n && ptr[k] == y
  {
    if n > 0 { DirectCalls(d, ptr, n - 1, y); }
  }

  lemma OnlyDirect(d: Disk, ptr: Ptrs)
    requires ptr[IND] == ptr[DIND] == ptr[TIND] == 0
    ensures SlotCalls(d, ptr, NSLOTS) == SlotCalls(d, ptr, NDIR)
  {
    assert SlotCalls(d, ptr, 13) == SlotCalls(d, ptr, 12) + [];
    assert SlotCalls(d, ptr, 14) == SlotCalls(d, ptr, 13) + [];
    assert SlotCalls(d, ptr, 15) == SlotCalls(d, ptr, 14) + [];
  }

  ghost predicate WordsClear(g: Geo, d: Disk, target: Text)
    requires GeoOk(g) && |d| == g.blocks
  {
    forall k :: 0 <= k < NDIR ==> !IsMarked(g, d, TextPtrs(target)[k])
  }

  /** A target of up to 48 bytes does no harm if and only if none of its words is the number of a
      marked block. */
  lemma ShortText(g: Geo, d: Disk, target: Text)
    requires GeoOk(g) && |d| == g.blocks && |target| <= 48
    ensures Harmless(g, d, target) <==> WordsClear(g, d, target)
  {
    hide IsMarked;
    var ptr := TextPtrs(target);
    TailIsEmpty(target);
    OnlyDirect(d, ptr);
    NoZero(g, d);
    forall y ensures y in SlotCalls(d, ptr, NSLOTS) <==> y != 0 && exists k :: 0 <= k < NDIR && ptr[k] == y {
      DirectCalls(d, ptr, NDIR, y);
    }
  }

  lemma NoZero(g: Geo, d: Disk)
    requires GeoOk(g) && |d| == g.blocks
    ensures !IsMarked(g, d, 0)
  {
  }

  lemma TailIsEmpty(target: Text)
    requires |target| <= 48
    ensures TextPtrs(target)[IND] == TextPtrs(target)[DIND] == TextPtrs(target)[TIND] == 0
  {
  }

  /** The target "a": its last unlink hands 97 to free_block, so whatever block 97 holds loses its
      mark. */
  lemma LetterA(g: Geo, d: Disk)
    requires GeoOk(g) && |d| == g.blocks
    ensures TextPtrs([0x61])[0] == 97
    ensures Harmless(g, d, [0x61]) <==> !IsMarked(g, d, 97)
  {
    hide IsMarked;
    ShortText(g, d, [0x61]);
    NoZero(g, d);
    forall k | 0 <= k < NSLOTS ensures TextPtrs([0x61])[k] == if k == 0 then 97 else 0 {}
  }

  /** An edit of an inode's own blocks moves no mark. */
  lemma EditMarks(g: Geo, d: Disk, t: Table, i: nat, m: Disk)
    requires GeoOk(g) && |d| == g.blocks && Consistent(d, t, Used(g, d)) && i in t && Within(d, m, Owned(d, t[i].ptr))
    ensures SameMarks(g, d, m)
  {
    Grounds(d, t, Used(g, d), i);
    hide Owned, Consistent;
    forall y: nat | InGroups(g, y) ensures Marked(g, m, y) == Marked(g, d, y) { GroupBound(g, y); }
  }

  /** Harmless whatever the blocks of s hold. */
  ghost predicate Safe(g: Geo, d: Disk, s: set<nat>, target: Text)
    requires GeoOk(g) && |d| == g.blocks
  {
    forall m :: Within(d, m, s) ==> Harmless(g, m, target)
  }

  lemma ShortIsSafe(g: Geo, d: Disk, t: Table, i: nat, target: Text)
    requires GeoOk(g) && |d| == g.blocks && Consistent(d, t, Used(g, d)) && i in t && |target| <= 48
    ensures Safe(g, d, Owned(d, t[i].ptr), target) <==> WordsClear(g, d, target)
  {
    hide Harmless, Owned, Consistent, IsMarked;
    ShortText(g, d, target);
    assert Within(d, d, Owned(d, t[i].ptr));
    forall m | Within(d, m, Owned(d, t[i].ptr)) && WordsClear(g, d, target) ensures Harmless(g, m, target) {
      EditMarks(g, d, t, i, m);
      ShortText(g, m, target);
    }
  }

  // ----- what the walk over the text leaves -----

  /** Nothing but bitmap blocks was written: every file and every directory reads as before. x is any
      number without a stored inode, such as the symlink's. */
  lemma BitmapsOnly(g: Geo, d: Disk, d': Disk, t: Table, x: nat)
    requires GeoOk(g) && |d| == |d'| == g.blocks && Consistent(d, t, Used(g, d)) && DirsOk(d, t) && x !in t
    requires forall y :: 0 <= y < |d| && y !in g.bitmap ==> d'[y] == d[y]
    ensures DirsOk(d', t) && ViewOf(d', t) == ViewOf(d, t) && UpOf(d', t) == UpOf(d, t)
    ensures FilesKept(d, t, d', t, {}) && Consistent(d', t, Used(g, d))
    ensures forall i :: i in t ==> Owned(d', t[i].ptr) == Owned(d, t[i].ptr)
  {
    hide DirsOk, ViewOf, UpOf, Owned, Consistent;
    assert t - {x} == t;
    OffBitmaps(g, d, d', t);
    BitmapsOthers(g, d, d', t, x);
    RestKept(d, t, d', t, x);
    KeptOthers(d, t, d', t, x);
    SameSlots(d, d', t, Used(g, d));
  }

  lemma OffBitmaps(g: Geo, d: Disk, d': Disk, t: Table)
    requires GeoOk(g) && |d| == |d'| == g.blocks && Consistent(d, t, Used(g, d))
    requires forall y :: 0 <= y < |d| && y !in g.bitmap ==> d'[y] == d[y]
    ensures forall i, p :: i in t && Valid(p) ==> At(d', t[i].ptr, p) == At(d, t[i].ptr, p)
  {
    hide Consistent;
    FrameAll(d, d', t, Used(g, d));
  }

  lemma BitmapsOthers(g: Geo, d: Disk, d': Disk, t: Table, x: nat)
    requires GeoOk(g) && |d| == |d'| == g.blocks && Consistent(d, t, Used(g, d))
    requires forall y :: 0 <= y < |d| && y !in g.bitmap ==> d'[y] == d[y]
    requires forall i, p :: i in t && Valid(p) ==> At(d', t[i].ptr, p) == At(d, t[i].ptr, p)
    ensures OthersKept(d, t, d', t, x)
  {
    forall j: nat, b: nat | j in t && j != x && b < MAXBLOCKS
      ensures SameBlockAt(d, t[j].ptr, d', t[j].ptr, b)
    {
      SlotHeld(d, t, Used(g, d), j, PathOf(b));
      assert At(d', t[j].ptr, PathOf(b)) == At(d, t[j].ptr, PathOf(b));
    }
  }

  /** The marks survive the walk if and only if it was harmless, and then nothing was written. */
  lemma MarksSurvive(g: Geo, s: State, s': State, target: Text, calls: seq<nat>)
    requires CountsOk(g, s.d, s.gfree, s.sfree)
    requires var list := SlotCalls(s.d, TextPtrs(target), NSLOTS); Walked(g, s, s', calls, list, Quiet(g, list))
    ensures SameMarks(g, s.d, s'.d) <==> Harmless(g, s.d, target)
    ensures Harmless(g, s.d, target) ==> s' == s
  {
    hide Marked, GroupCounts, SlotCalls;
    var list := SlotCalls(s.d, TextPtrs(target), NSLOTS);
    forall y | y in g.bitmap ensures IsMarked(g, s.d, y) { assert y in g.meta && InGroups(g, y); }
    if Harmless(g, s.d, target) { assert Quiet(g, list); }
  }

  /** A mark that is lost was a metadata block's, or a block's that some file owns: with balanced books
      there is no third kind, so the accounts break. */
  lemma LostMark(g: Geo, s: State, s': State, t: Table, calls: seq<nat>)
    requires CountsOk(g, s.d, s.gfree, s.sfree) && Consistent(s.d, t, Used(g, s.d)) && Balanced(s.d, t, Used(g, s.d))
    requires |s'.d| == |s.d| && Handed(g, s.d, s'.d, calls) && !SameMarks(g, s.d, s'.d)
    requires forall i :: i in t ==> Owned(s'.d, t[i].ptr) == Owned(s.d, t[i].ptr)
    ensures !(CountsOk(g, s'.d, s'.gfree, s'.sfree) && Consistent(s'.d, t, Used(g, s'.d)))
  {
    hide Marked, GroupCounts, Owned;
    var y :| IsMarked(g, s.d, y) && !IsMarked(g, s'.d, y);
    if CountsOk(g, s'.d, s'.gfree, s'.sfree) && Consistent(s'.d, t, Used(g, s'.d)) {
      assert y in Used(g, s.d) && y !in Used(g, s'.d);
      var i :| i in t && y in Owned(s.d, t[i].ptr);
      Grounds(s'.d, t, Used(g, s'.d), i);
      assert false;
    }
  }

  /** The last name of a symlink is gone: the walk over its text, then free_inode. */
  method FreeText(vol: Volume, x: nat) returns (ghost calls: seq<nat>)
    requires Sane(vol.fs) && x in vol.syms && x !in vol.fs.table
    modifies vol`syms, vol.fs`disk, vol.fs`gfree, vol.fs`sfree, vol.fs`log
    ensures vol.syms == old(vol.syms) - {x} && vol.fs.log == old(vol.fs.log) + calls
    ensures Tallied(vol.fs) && DirsOk(vol.fs.disk, vol.fs.table) && V(vol.fs) == old(V(vol.fs)) && U(vol.fs) == old(U(vol.fs))
    ensures FilesKept(old(vol.fs.disk), vol.fs.table, vol.fs.disk, vol.fs.table, {})
    ensures var g, d, target := vol.fs.geo, old(vol.fs.disk), old(vol.syms)[x].target;
      && (SameMarks(g, d, vol.fs.disk) <==> Harmless(g, d, target))
      && (Harmless(g, d, target) ==> old(Now(vol.fs)) == Now(vol.fs) && Sane(vol.fs) && Shot(vol.fs) == old(Shot(vol.fs)))
      && (!Harmless(g, d, target) && old(Squared(Shot(vol.fs))) ==> !Mounted(vol.fs))
  {
    hide Walked, SlotCalls, DirsOk, ViewOf, UpOf, FilesKept, Balanced, Consistent, Owned, Harmless, SameMarks, GroupCounts, Pinned, Quiet;
    var fs, target := vol.fs, vol.syms[x].target;
    ghost var s0, a := Now(fs), Shot(fs);
    vol.syms := vol.syms - {x};
    var ino := Inode(MODE_LNK, 0, |target|, 0, TextPtrs(target));
    ino, calls := FreeInodeBlocks(fs, x, ino);
    AfterText(fs.geo, s0, Now(fs), fs.table, x, target, calls);
  }

  lemma AfterText(g: Geo, s: State, s': State, t: Table, x: nat, target: Text, calls: seq<nat>)
    requires CountsOk(g, s.d, s.gfree, s.sfree) && Consistent(s.d, t, Used(g, s.d)) && DirsOk(s.d, t) && x !in t
    requires var list := SlotCalls(s.d, TextPtrs(target), NSLOTS); Walked(g, s, s', calls, list, Quiet(g, list))
    ensures |s'.d| == |s.d| && DirsOk(s'.d, t) && ViewOf(s'.d, t) == ViewOf(s.d, t) && UpOf(s'.d, t) == UpOf(s.d, t)
    ensures FilesKept(s.d, t, s'.d, t, {})
    ensures SameMarks(g, s.d, s'.d) <==> Harmless(g, s.d, target)
    ensures Harmless(g, s.d, target) ==> s' == s
    ensures !Harmless(g, s.d, target) && Balanced(s.d, t, Used(g, s.d)) ==>
      !(CountsOk(g, s'.d, s'.gfree, s'.sfree) && Consistent(s'.d, t, Used(g, s'.d)))
  {
    hide IsMarked, DirsOk, ViewOf, UpOf, FilesKept, Balanced, Consistent, Owned, SlotCalls, GroupCounts, Pinned, Harmless, SameMarks;
    BitmapsOnly(g, s.d, s'.d, t, x);
    MarksSurvive(g, s, s', target, calls);
    if !Harmless(g, s.d, target) && Balanced(s.d, t, Used(g, s.d)) { LostMark(g, s, s', t, calls); }
  }
}
