/** One directory block: packed entries chained by rec_len, edited in place. */
module Ext2DirBlock {
  import opened Bytes
  import opened Ext2Tree

  /** A live entry. */
  datatype Ent = Ent(ino: nat, name: seq<Byte>, ftype: Byte)

  /** Header length plus name, rounded up to four bytes. */
  function RealLen(nameLen: nat): (r: nat)
    ensures 8 + nameLen <= r < 12 + nameLen && r % 4 == 0
  {
    (8 + nameLen + 3) / 4 * 4
  }

  // ----- the fields of the entry at offset o -----

  function Ino(b: Block, o: nat): nat requires o + 8 <= BLOCK { Le32(b, o) }
  function Rec(b: Block, o: nat): nat requires o + 8 <= BLOCK { Le16(b, o + 4) }
  function NameLen(b: Block, o: nat): nat requires o + 8 <= BLOCK { b[o + 6] }

  /** The entry fits, is aligned, and spans at least its own name if it is live. */
  predicate EntOk(b: Block, o: nat) {
    && o + 8 <= BLOCK && Rec(b, o) % 4 == 0 && 8 <= Rec(b, o) && o + Rec(b, o) <= BLOCK
    && (Ino(b, o) != 0 ==> RealLen(NameLen(b, o)) <= Rec(b, o))
  }

  /** From o the block is covered exactly, up to its end. */
  predicate Tiled(b: Block, o: nat)
    decreases BLOCK - o
  {
    o == BLOCK || (EntOk(b, o) && Tiled(b, o + Rec(b, o)))
  }

  /** Scanning from a by rec_len arrives at o. */
  predicate Reach(b: Block, a: nat, o: nat)
    decreases BLOCK - a
  {
    a == o || (EntOk(b, a) && a + Rec(b, a) <= o && Reach(b, a + Rec(b, a), o))
  }

  /** The entry at o as a list: empty for a hole. */
  function EntAt(b: Block, o: nat): seq<Ent>
    requires EntOk(b, o)
  {
    if Ino(b, o) == 0 then [] else [Ent(Ino(b, o), b[o + 8..o + 8 + NameLen(b, o)], b[o + 7])]
  }

  /** The live entries met from o to the end. */
  function Live(b: Block, o: nat): seq<Ent>
    requires Tiled(b, o)
    decreases BLOCK - o
  {
    if o == BLOCK then [] else EntAt(b, o) + Live(b, o + Rec(b, o))
  }

  /** name_len is a byte, so no entry has a longer name. */
  ghost predicate ShortNames(l: seq<Ent>) {
    forall k :: 0 <= k < |l| ==> |l[k].name| <= 255
  }

  lemma {:induction false} LiveShort(b: Block, o: nat)
    requires Tiled(b, o)
    ensures ShortNames(Live(b, o))
    decreases BLOCK - o
  {
    if o != BLOCK { LiveShort(b, o + Rec(b, o)); }
  }

  /** The live entries met from a up to o. */
  function Pre(b: Block, a: nat, o: nat): seq<Ent>
    requires Reach(b, a, o)
    decreases BLOCK - a
  {
    if a == o then [] else EntAt(b, a) + Pre(b, a + Rec(b, a), o)
  }

  // ----- scanning -----

  lemma TiledStep(b: Block, o: nat)
    requires Tiled(b, o) && o < BLOCK
    ensures EntOk(b, o) && Tiled(b, o + Rec(b, o)) && Live(b, o) == EntAt(b, o) + Live(b, o + Rec(b, o))
  {
  }

  lemma LiveEnd(b: Block)
    ensures Live(b, BLOCK) == []
  {
  }

  lemma LiveStep(b: Block, o: nat)
    requires EntOk(b, o) && Tiled(b, o + Rec(b, o))
    ensures Tiled(b, o) && Live(b, o) == EntAt(b, o) + Live(b, o + Rec(b, o))
  {
  }

  lemma {:induction false} Extend(b: Block, a: nat, o: nat)
    requires Reach(b, a, o) && EntOk(b, o)
    ensures Reach(b, a, o + Rec(b, o))
    ensures Pre(b, a, o + Rec(b, o)) == Pre(b, a, o) + EntAt(b, o)
    decreases BLOCK - a
  {
    hide Ino, Rec, EntAt, RealLen;
    var n := o + Rec(b, o);
    if a == o {
      assert Pre(b, n, n) == [];
      assert Pre(b, a, n) == EntAt(b, o) + [];
    } else {
      var c := a + Rec(b, a);
      Extend(b, c, o);
      assert Pre(b, a, n) == EntAt(b, a) + (Pre(b, c, o) + EntAt(b, o));
    }
  }

  lemma {:induction false} Glue(b: Block, a: nat, o: nat)
    requires Reach(b, a, o) && Tiled(b, o)
    ensures Tiled(b, a) && Live(b, a) == Pre(b, a, o) + Live(b, o)
    decreases BLOCK - a
  {
    hide Ino, Rec, EntAt, RealLen;
    if a == o {
      assert Live(b, a) == [] + Live(b, o);
    } else {
      var c := a + Rec(b, a);
      Glue(b, c, o);
      assert Live(b, a) == EntAt(b, a) + (Pre(b, c, o) + Live(b, o));
    }
  }

  /** The blocks agree on [lo, hi). */
  predicate Same(b: Block, b': Block, lo: nat, hi: nat)
    requires hi <= BLOCK
  {
    forall k :: lo <= k < hi ==> b'[k] == b[k]
  }

  /** An entry is determined by the bytes it spans. */
  lemma SameEntry(b: Block, b': Block, o: nat)
    requires EntOk(b, o) && Same(b, b', o, o + Rec(b, o))
    ensures EntOk(b', o) && Rec(b', o) == Rec(b, o) && EntAt(b', o) == EntAt(b, o)
  {
    if Ino(b, o) != 0 {
      assert b'[o + 8..o + 8 + NameLen(b, o)] == b[o + 8..o + 8 + NameLen(b, o)];
    }
  }

  lemma {:induction false} PrefixFrame(b: Block, b': Block, a: nat, o: nat)
    requires Reach(b, a, o) && o <= BLOCK && Same(b, b', 0, o)
    ensures Reach(b', a, o) && Pre(b', a, o) == Pre(b, a, o)
    decreases BLOCK - a
  {
    if a < o {
      SameEntry(b, b', a);
      PrefixFrame(b, b', a + Rec(b, a), o);
    }
  }

  lemma {:induction false} SuffixFrame(b: Block, b': Block, o: nat)
    requires Tiled(b, o) && Same(b, b', o, BLOCK)
    ensures Tiled(b', o) && Live(b', o) == Live(b, o)
    decreases BLOCK - o
  {
    if o < BLOCK {
      SameEntry(b, b', o);
      SuffixFrame(b, b', o + Rec(b, o));
    }
  }

  // ----- editing -----

  /** name_eq: an entry name against a NUL-terminated name. */
  method NameEq(ename: seq<Byte>, name: seq<Byte>) returns (r: bool)
    ensures r == (ename == name)
  {
    var i := 0;
    while i < |ename|
      invariant i <= |ename| && i <= |name| && ename[..i] == name[..i]
    {
      if i >= |name| || name[i] != ename[i] { return false; }
      i := i + 1;
    }
    return |name| == |ename|;
  }

  /** The entry at o is live and has that name. */
  method NameAt(b: Block, o: nat, name: seq<Byte>) returns (r: bool)
    requires EntOk(b, o)
    ensures r <==> EntAt(b, o) == [Ent(Ino(b, o), name, b[o + 7])]
    ensures r ==> Ino(b, o) != 0
    ensures !r ==> Absent(EntAt(b, o), name)
  {
    hide Ino, Rec;
    if Ino(b, o) == 0 { return false; }
    r := NameEq(b[o + 8..o + 8 + NameLen(b, o)], name);
  }

  function PutRec(b: Block, o: nat, rec: nat): (b': Block)
    requires o + 8 <= BLOCK && rec < 0x1_0000
    ensures Rec(b', o) == rec && Ino(b', o) == Ino(b, o) && NameLen(b', o) == NameLen(b, o) && b'[o + 7] == b[o + 7]
    ensures Same(b, b', 0, o) && Same(b, b', o + 6, BLOCK)
  {
    PutLe16(b, o + 4, rec)
  }

  function PutIno(b: Block, o: nat, ino: nat): (b': Block)
    requires o + 8 <= BLOCK && ino < 0x1_0000_0000
    ensures Rec(b', o) == Rec(b, o) && Ino(b', o) == ino
    ensures Same(b, b', 0, o) && Same(b, b', o + 4, BLOCK)
  {
    PutLe32(b, o, ino)
  }

  /** The entry e, spanning rec bytes, is stored at o. */
  predicate Stored(b: Block, o: nat, e: Ent, rec: nat) {
    && o + 8 + |e.name| <= BLOCK
    && Ino(b, o) == e.ino && Rec(b, o) == rec && NameLen(b, o) == |e.name| && b[o + 7] == e.ftype
    && b[o + 8..o + 8 + |e.name|] == e.name
  }

  /** Store an entry at o: its header and its name, nothing else. */
  method PutEnt(b0: Block, o: nat, e: Ent, rec: nat) returns (b: Block)
    requires o + 8 + |e.name| <= BLOCK && |e.name| <= 255 && rec < 0x1_0000 && e.ino < 0x1_0000_0000
    ensures Stored(b, o, e, rec)
    ensures Same(b0, b, 0, o) && Same(b0, b, o + 8 + |e.name|, BLOCK)
  {
    b := PutLe32(b0, o, e.ino);
    b := PutLe16(b, o + 4, rec);
    b := b[o + 6 := |e.name|][o + 7 := e.ftype];
    ghost var h := b;
    assert Ino(h, o) == e.ino && Rec(h, o) == rec;
    for i := 0 to |e.name|
      invariant forall k :: 0 <= k < BLOCK ==> b[k] == if o + 8 <= k < o + 8 + i then e.name[k - o - 8] else h[k]
    {
      b := b[o + 8 + i := e.name[i]];
    }
  }

  /** A stored entry followed by a tiled rest is a tiled stretch that starts with it. */
  lemma StoredLive(b: Block, o: nat, e: Ent, rec: nat)
    requires Stored(b, o, e, rec) && e.ino != 0 && RealLen(|e.name|) <= rec && rec % 4 == 0 && o + rec <= BLOCK
    requires Tiled(b, o + rec)
    ensures Tiled(b, o) && Live(b, o) == [e] + Live(b, o + rec)
  {
    hide Ino, Rec, Live, Tiled;
    assert EntOk(b, o) && EntAt(b, o) == [e];
    LiveStep(b, o);
  }

  /** Taking over a hole that is long enough. */
  lemma FillHole(b: Block, b': Block, o: nat, e: Ent)
    requires Reach(b, 0, o) && Tiled(b, o) && EntOk(b, o) && Ino(b, o) == 0
    requires e.ino != 0 && RealLen(|e.name|) <= Rec(b, o)
    requires Stored(b', o, e, Rec(b, o)) && Same(b, b', 0, o) && Same(b, b', o + 8 + |e.name|, BLOCK)
    ensures Tiled(b', 0) && Live(b', 0) == Pre(b, 0, o) + [e] + Live(b, o)
  {
    hide Ino, Rec, Live, Tiled, Reach, Pre;
    var n := o + Rec(b, o);
    TiledStep(b, o);
    SuffixFrame(b, b', n);
    StoredLive(b', o, e, Rec(b, o));
    PrefixFrame(b, b', 0, o);
    Glue(b', 0, o);
    assert Pre(b, 0, o) + ([e] + Live(b, n)) == Pre(b, 0, o) + [e] + Live(b, o);
  }

  /** Shrinking a live entry to its real length and placing e in the freed tail. */
  lemma SplitSlot(b: Block, b': Block, o: nat, used: nat, e: Ent)
    requires Reach(b, 0, o) && Tiled(b, o) && EntOk(b, o) && Ino(b, o) != 0 && used == RealLen(NameLen(b, o))
    requires e.ino != 0 && used + RealLen(|e.name|) <= Rec(b, o)
    requires Stored(b', o + used, e, Rec(b, o) - used)
    requires var b1 := PutRec(b, o, used); Same(b1, b', 0, o + used) && Same(b1, b', o + used + 8 + |e.name|, BLOCK)
    ensures Tiled(b', 0) && Live(b', 0) == Pre(b, 0, o) + EntAt(b, o) + [e] + Live(b, o + Rec(b, o))
  {
    hide Ino, Rec, PutRec, Live, Tiled, Reach, Pre, EntAt, Stored;
    var b1 := PutRec(b, o, used);
    var m, n := o + used, o + Rec(b, o);
    TiledStep(b, o);
    SuffixFrame(b, b', n);
    assert m + (Rec(b, o) - used) == n;
    StoredLive(b', m, e, Rec(b, o) - used);
    Renamed(b, b1, o);
    SameEntry(b1, b', o);
    LiveStep(b', o);
    PrefixFrame(b, b', 0, o);
    Glue(b', 0, o);
    assert Pre(b, 0, o) + (EntAt(b, o) + ([e] + Live(b, n))) == Pre(b, 0, o) + EntAt(b, o) + [e] + Live(b, n);
  }

  /** Changing only the span of an entry keeps the entry. */
  lemma Renamed(b: Block, b1: Block, o: nat)
    requires EntOk(b, o) && o + 8 <= BLOCK && Same(b, b1, o + 6, BLOCK) && Ino(b1, o) == Ino(b, o)
    requires Rec(b1, o) % 4 == 0 && 8 <= Rec(b1, o) && o + Rec(b1, o) <= BLOCK
    requires Ino(b, o) != 0 ==> RealLen(NameLen(b, o)) <= Rec(b1, o)
    ensures EntOk(b1, o) && EntAt(b1, o) == EntAt(b, o)
  {
    hide Ino, Rec;
    if Ino(b, o) != 0 {
      assert b1[o + 8..o + 8 + NameLen(b, o)] == b[o + 8..o + 8 + NameLen(b, o)];
    }
  }

  /** The previous entry absorbing the span of the one at o. */
  lemma Absorb(b: Block, b': Block, p: nat, o: nat)
    requires Reach(b, 0, p) && EntOk(b, p) && o == p + Rec(b, p) && EntOk(b, o) && Tiled(b, o + Rec(b, o))
    requires b' == PutRec(b, p, Rec(b, p) + Rec(b, o))
    ensures Tiled(b', 0) && Live(b', 0) == Pre(b, 0, p) + EntAt(b, p) + Live(b, o + Rec(b, o))
  {
    hide Ino, Rec, PutRec, Live, Tiled, Reach, Pre, EntAt, RealLen;
    var n := o + Rec(b, o);
    SuffixFrame(b, b', n);
    Renamed(b, b', p);
    LiveStep(b', p);
    PrefixFrame(b, b', 0, p);
    Glue(b', 0, p);
    assert Pre(b, 0, p) + (EntAt(b, p) + Live(b, n)) == Pre(b, 0, p) + EntAt(b, p) + Live(b, n);
  }

  /** Zeroing the inode of the first entry leaves a hole. */
  lemma Vacate(b: Block, b': Block)
    requires Tiled(b, 0) && b' == PutIno(b, 0, 0)
    ensures Tiled(b', 0) && Live(b', 0) == Live(b, Rec(b, 0))
  {
    hide Ino, Rec, PutIno;
    var n := Rec(b, 0);
    SuffixFrame(b, b', n);
    assert EntOk(b', 0) && Rec(b', 0) == n;
    assert Live(b', 0) == [] + Live(b', n);
  }

  ghost predicate InsertedAt(l: seq<Ent>, e: Ent, l': seq<Ent>, k: nat) {
    k <= |l| && l' == l[..k] + [e] + l[k..]
  }

  /** l' is l with e inserted somewhere. */
  ghost predicate Inserts(l: seq<Ent>, e: Ent, l': seq<Ent>) {
    exists k :: InsertedAt(l, e, l', k)
  }

  /** The scan meets an entry at o with room for need bytes beside what it uses itself. */
  ghost predicate Fits(b: Block, o: nat, need: nat) {
    Reach(b, 0, o) && EntOk(b, o) && Span(b, o) + need <= Rec(b, o)
  }

  /** Bytes an entry needs: none for a hole. */
  function Span(b: Block, o: nat): nat
    requires o + 8 <= BLOCK
  {
    if Ino(b, o) == 0 then 0 else RealLen(NameLen(b, o))
  }

  /** The entries with e behind the entry at o, or in its place if that is a hole. */
  function Placed(b: Block, o: nat, e: Ent): seq<Ent>
    requires Reach(b, 0, o) && EntOk(b, o) && Tiled(b, o + Rec(b, o))
  {
    Pre(b, 0, o) + EntAt(b, o) + [e] + Live(b, o + Rec(b, o))
  }

  ghost predicate HasSlack(b: Block, need: nat) {
    exists o :: Fits(b, o, need)
  }

  /** e went to the first entry with room for it, at o. */
  ghost predicate FirstFit(b: Block, o: nat, e: Ent, l: seq<Ent>) {
    && Fits(b, o, RealLen(|e.name|)) && (forall p :: Fits(b, p, RealLen(|e.name|)) ==> o <= p)
    && Tiled(b, o + Rec(b, o)) && l == Placed(b, o, e)
  }

  /** The scan skips nothing. */
  lemma {:induction false} ReachNext(b: Block, a: nat, o: nat, p: nat)
    requires Reach(b, a, o) && Reach(b, a, p) && o < p && EntOk(b, o)
    ensures o + Rec(b, o) <= p
    decreases BLOCK - a
  {
    hide Rec, Ino, RealLen;
    if a == o { ReachPast(b, o, p); } else { ReachNext(b, a + Rec(b, a), o, p); }
  }

  lemma ReachPast(b: Block, o: nat, p: nat)
    requires Reach(b, o, p) && o < p
    ensures EntOk(b, o) && o + Rec(b, o) <= p
  {
  }

  /** The scan of dir_add_entry over one block: the first entry with enough slack takes the new
      entry, and the block is left alone exactly if there is none. */
  method AddInBlock(b0: Block, e: Ent) returns (ok: bool, b: Block)
    requires Tiled(b0, 0) && e.ino != 0 && e.ino < 0x1_0000_0000 && |e.name| <= 255
    ensures ok <==> HasSlack(b0, RealLen(|e.name|))
    ensures !ok ==> b == b0
    ensures ok ==> Tiled(b, 0) && Inserts(Live(b0, 0), e, Live(b, 0))
    ensures ok ==> exists o :: FirstFit(b0, o, e, Live(b, 0))
  {
    hide Ino, Rec, PutRec, PutIno, Pre, Live, Stored, Fits, RealLen, EntAt;
    b := b0;
    var need := RealLen(|e.name|);
    var o := 0;
    while o < BLOCK
      invariant o <= BLOCK && Reach(b0, 0, o) && Tiled(b0, o)
      invariant forall p :: Fits(b0, p, need) ==> o <= p
      decreases BLOCK - o
    {
      if Rec(b0, o) == 0 { break; }
      var used := if Ino(b0, o) == 0 then 0 else RealLen(NameLen(b0, o));
      var slack := Rec(b0, o) - used;
      FitsHere(b0, o, need);
      if slack >= need {
        Glue(b0, 0, o);
        TiledStep(b0, o);
        if Ino(b0, o) == 0 {
          b := PutEnt(b0, o, e, Rec(b0, o));
          FillHole(b0, b, o, e);
          InsertsAt(Pre(b0, 0, o), Live(b0, o), e);
          HolePlaced(b0, o, e);
        } else {
          b := PutRec(b0, o, used);
          b := PutEnt(b, o + used, e, slack);
          SplitSlot(b0, b, o, used, e);
          assert Live(b0, 0) == (Pre(b0, 0, o) + EntAt(b0, o)) + Live(b0, o + Rec(b0, o));
          InsertsAt(Pre(b0, 0, o) + EntAt(b0, o), Live(b0, o + Rec(b0, o)), e);
        }
        assert FirstFit(b0, o, e, Live(b, 0));
        return true, b;
      }
      forall p | Fits(b0, p, need) ensures o + Rec(b0, o) <= p { FitsLater(b0, o, p, need); }
      Extend(b0, 0, o);
      o := o + Rec(b0, o);
    }
    forall p ensures !Fits(b0, p, need) { FitsInside(b0, p, need); }
    return false, b0;
  }

  lemma FitsHere(b: Block, o: nat, need: nat)
    requires Reach(b, 0, o) && Tiled(b, o) && o < BLOCK
    ensures EntOk(b, o) && (Fits(b, o, need) <==> Span(b, o) + need <= Rec(b, o))
  {
  }

  lemma FitsLater(b: Block, o: nat, p: nat, need: nat)
    requires Reach(b, 0, o) && EntOk(b, o) && !Fits(b, o, need) && Fits(b, p, need) && o <= p
    ensures o + Rec(b, o) <= p
  {
    hide Rec, Ino, RealLen, Span;
    ReachNext(b, 0, o, p);
  }

  lemma FitsInside(b: Block, p: nat, need: nat)
    ensures Fits(b, p, need) ==> p < BLOCK
  {
    hide Reach, Rec, Ino;
  }

  lemma HolePlaced(b: Block, o: nat, e: Ent)
    requires Reach(b, 0, o) && Tiled(b, o) && o < BLOCK && Ino(b, o) == 0
    ensures Tiled(b, o + Rec(b, o)) && Placed(b, o, e) == Pre(b, 0, o) + [e] + Live(b, o)
  {
    hide Rec, Pre, Reach;
    assert EntAt(b, o) == [] && Live(b, o) == Live(b, o + Rec(b, o));
  }

  lemma InsertsAt(a: seq<Ent>, c: seq<Ent>, e: Ent)
    ensures Inserts(a + c, e, a + [e] + c)
  {
    assert (a + c)[..|a|] == a && (a + c)[|a|..] == c;
    assert InsertedAt(a + c, e, a + [e] + c, |a|);
  }

  // ----- looking names up -----

  /** The inode of the first entry of that name, 0 if there is none. */
  function Find(l: seq<Ent>, name: seq<Byte>): nat {
    if l == [] then 0 else if l[0].name == name then l[0].ino else Find(l[1..], name)
  }

  /** A name that is found is the name of an entry. */
  lemma {:induction false} FindShort(l: seq<Ent>, name: seq<Byte>)
    requires ShortNames(l) && Find(l, name) != 0
    ensures |name| <= 255
  {
    if l[0].name != name {
      assert forall k :: 0 <= k < |l[1..]| ==> l[1..][k] == l[k + 1];
      FindShort(l[1..], name);
    }
  }

  predicate Absent(l: seq<Ent>, name: seq<Byte>) {
    forall k :: 0 <= k < |l| ==> l[k].name != name
  }

  lemma {:induction false} FindConcat(a: seq<Ent>, c: seq<Ent>, name: seq<Byte>)
    ensures Absent(a, name) ==> Find(a + c, name) == Find(c, name)
    ensures !Absent(a, name) ==> Find(a + c, name) == Find(a, name)
  {
    if a == [] {
      assert a + c == c;
    } else {
      FindConcat(a[1..], c, name);
      assert (a + c)[1..] == a[1..] + c;
      assert Absent(a, name) <==> a[0].name != name && Absent(a[1..], name);
    }
  }

  lemma {:induction false} FindAbsent(l: seq<Ent>, name: seq<Byte>)
    requires Absent(l, name)
    ensures Find(l, name) == 0
  {
    if l != [] { FindAbsent(l[1..], name); }
  }

  ghost predicate RemovedAt(l: seq<Ent>, e: Ent, l': seq<Ent>, k: nat) {
    k < |l| && l[k] == e && Absent(l[..k], e.name) && l' == l[..k] + l[k + 1..]
  }

  /** l' is l without its first entry of that name, which was e. */
  ghost predicate Removes(l: seq<Ent>, e: Ent, l': seq<Ent>) {
    exists k :: RemovedAt(l, e, l', k)
  }

  /** The scan of dir_unlink_entry over one block. Returns the inode removed, 0 if the name is
      not in the block. */
  method RemoveInBlock(b0: Block, name: seq<Byte>) returns (ino: nat, ftype: Byte, b: Block)
    requires Tiled(b0, 0)
    ensures ino == 0 ==> b == b0 && Absent(Live(b0, 0), name)
    ensures ino != 0 ==> Tiled(b, 0) && Removes(Live(b0, 0), Ent(ino, name, ftype), Live(b, 0))
  {
    hide Ino, Rec, PutRec, PutIno, RealLen, Live, Tiled, Removes, EntAt;
    var o, havePrev, prev: nat := 0, false, 0;
    while o < BLOCK
      invariant o <= BLOCK && Reach(b0, 0, o) && Tiled(b0, o)
      invariant Absent(Pre(b0, 0, o), name)
      invariant havePrev == (o > 0)
      invariant havePrev ==> Precedes(b0, prev, o)
      decreases BLOCK - o
    {
      TiledStep(b0, o);
      if Rec(b0, o) == 0 { break; }
      var same := NameAt(b0, o, name);
      if same {
        ino, ftype := Ino(b0, o), b0[o + 7];
        ghost var e := Ent(ino, name, ftype);
        ghost var n := o + Rec(b0, o);
        Glue(b0, 0, o);
        if havePrev {
          b := PutRec(b0, prev, Rec(b0, prev) + Rec(b0, o));
          Absorb(b0, b, prev, o);
        } else {
          b := PutIno(b0, o, 0);
          Vacate(b0, b);
          assert Live(b, 0) == Pre(b0, 0, o) + Live(b0, n);
        }
        RemovesAt(Pre(b0, 0, o), e, Live(b0, n));
        return;
      }
      Extend(b0, 0, o);
      AbsentConcat(Pre(b0, 0, o), EntAt(b0, o), name);
      prev, havePrev := o, true;
      o := o + Rec(b0, o);
    }
    Glue(b0, 0, o);
    LiveEnd(b0);
    assert Live(b0, 0) == Pre(b0, 0, o);
    return 0, 0, b0;
  }

  /** p is the entry just before o on the scan. */
  ghost predicate Precedes(b: Block, p: nat, o: nat) {
    && Reach(b, 0, o) && Reach(b, 0, p) && EntOk(b, p) && o == p + Rec(b, p)
    && Pre(b, 0, o) == Pre(b, 0, p) + EntAt(b, p)
  }

  lemma RemovesAt(a: seq<Ent>, e: Ent, c: seq<Ent>)
    requires Absent(a, e.name)
    ensures Removes(a + ([e] + c), e, a + c)
  {
    var l := a + ([e] + c);
    assert l[..|a|] == a && l[|a|] == e && l[|a| + 1..] == c;
    assert RemovedAt(l, e, a + c, |a|);
  }

  ghost predicate RetargetedAt(l: seq<Ent>, name: seq<Byte>, ino: nat, l': seq<Ent>, k: nat) {
    k < |l| && l[k].name == name && Absent(l[..k], name) && l' == l[k := l[k].(ino := ino)]
  }

  /** l' is l with its first entry of that name pointing at ino instead. */
  ghost predicate Retargets(l: seq<Ent>, name: seq<Byte>, ino: nat, l': seq<Ent>) {
    exists k :: RetargetedAt(l, name, ino, l', k)
  }

  /** Pointing the live entry at o elsewhere. */
  lemma Repoint(b: Block, b': Block, o: nat, ino: nat)
    requires Reach(b, 0, o) && Tiled(b, o) && o < BLOCK && EntOk(b, o) && Ino(b, o) != 0
    requires ino != 0 && ino < 0x1_0000_0000 && b' == PutIno(b, o, ino)
    ensures Tiled(b', 0)
    ensures Live(b', 0) == Pre(b, 0, o) + [EntAt(b, o)[0].(ino := ino)] + Live(b, o + Rec(b, o))
  {
    hide Ino, Rec, PutIno, Live, Tiled, Reach, Pre, RealLen;
    var n := o + Rec(b, o);
    TiledStep(b, o);
    SuffixFrame(b, b', n);
    assert EntOk(b', o);
    assert EntAt(b', o) == [EntAt(b, o)[0].(ino := ino)] by {
      assert b'[o + 8..o + 8 + NameLen(b, o)] == b[o + 8..o + 8 + NameLen(b, o)];
    }
    LiveStep(b', o);
    PrefixFrame(b, b', 0, o);
    Glue(b', 0, o);
    assert Pre(b, 0, o) + (EntAt(b', o) + Live(b, n)) == Pre(b, 0, o) + EntAt(b', o) + Live(b, n);
  }

  /** The scan of update_dotdot: point the first entry of that name at ino. */
  method RetargetInBlock(b0: Block, name: seq<Byte>, ino: nat) returns (ok: bool, b: Block)
    requires Tiled(b0, 0) && ino != 0 && ino < 0x1_0000_0000
    ensures ok <==> !Absent(Live(b0, 0), name)
    ensures !ok ==> b == b0
    ensures ok ==> Tiled(b, 0) && Retargets(Live(b0, 0), name, ino, Live(b, 0))
  {
    hide Ino, Rec, RealLen, Tiled, Live, EntAt, PutIno;
    var o := 0;
    while o < BLOCK
      invariant o <= BLOCK && Reach(b0, 0, o) && Tiled(b0, o)
      invariant Absent(Pre(b0, 0, o), name)
      decreases BLOCK - o
    {
      TiledStep(b0, o);
      if Rec(b0, o) == 0 { break; }
      var same := NameAt(b0, o, name);
      if same {
        Glue(b0, 0, o);
        b := PutIno(b0, o, ino);
        Repoint(b0, b, o, ino);
        RetargetsAt(Pre(b0, 0, o), EntAt(b0, o)[0], Live(b0, o + Rec(b0, o)), ino);
        assert EntAt(b0, o) == [EntAt(b0, o)[0]];
        assert Live(b0, 0) == Pre(b0, 0, o) + [EntAt(b0, o)[0]] + Live(b0, o + Rec(b0, o));
        assert Live(b0, 0)[|Pre(b0, 0, o)|].name == name;
        return true, b;
      }
      Extend(b0, 0, o);
      AbsentConcat(Pre(b0, 0, o), EntAt(b0, o), name);
      o := o + Rec(b0, o);
    }
    Glue(b0, 0, o);
    LiveEnd(b0);
    assert Live(b0, 0) == Pre(b0, 0, o) + [];
    return false, b0;
  }

  lemma RetargetsAt(a: seq<Ent>, e: Ent, c: seq<Ent>, ino: nat)
    requires Absent(a, e.name)
    ensures Retargets(a + [e] + c, e.name, ino, a + [e.(ino := ino)] + c)
  {
    var l := a + [e] + c;
    assert l[..|a|] == a;
    assert RetargetedAt(l, e.name, ino, a + [e.(ino := ino)] + c, |a|);
  }

  /** The scan of ext2_lookup over one block. */
  method LookupInBlock(b: Block, name: seq<Byte>) returns (ino: nat)
    requires Tiled(b, 0)
    ensures ino == Find(Live(b, 0), name)
    ensures ino == 0 <==> Absent(Live(b, 0), name)
  {
    hide Ino, Rec, RealLen, Tiled, Live, EntAt;
    var o := 0;
    while o < BLOCK
      invariant o <= BLOCK && Reach(b, 0, o) && Tiled(b, o)
      invariant Absent(Pre(b, 0, o), name)
      decreases BLOCK - o
    {
      TiledStep(b, o);
      if Rec(b, o) == 0 { break; }
      var same := NameAt(b, o, name);
      if same {
        Glue(b, 0, o);
        FindConcat(Pre(b, 0, o), Live(b, o), name);
        assert Live(b, o)[0] == EntAt(b, o)[0];
        assert Live(b, 0)[|Pre(b, 0, o)|].name == name;
        return Ino(b, o);
      }
      Extend(b, 0, o);
      AbsentConcat(Pre(b, 0, o), EntAt(b, o), name);
      o := o + Rec(b, o);
    }
    Glue(b, 0, o);
    LiveEnd(b);
    assert Live(b, 0) == Pre(b, 0, o) + [];
    FindAbsent(Live(b, 0), name);
    return 0;
  }

  /** Adding an absent name changes the name map at that name only. */
  lemma InsertFind(l: seq<Ent>, e: Ent, l': seq<Ent>, name: seq<Byte>)
    requires Inserts(l, e, l') && Absent(l, e.name)
    ensures Find(l', name) == if name == e.name then e.ino else Find(l, name)
    ensures name != e.name ==> (Absent(l', name) <==> Absent(l, name))
  {
    var k: nat :| InsertedAt(l, e, l', k);
    var a, c := l[..k], l[k..];
    assert l == a + c && l' == a + ([e] + c);
    FindConcat(a, c, name);
    FindConcat(a, [e] + c, name);
    FindConcat([e], c, name);
    if name != e.name {
      AbsentConcat(a, c, name);
      AbsentConcat([e], c, name);
      AbsentConcat(a, [e] + c, name);
    }
  }

  /** Adding an entry, whether or not its name is new, hides no other name. */
  lemma InsertOther(l: seq<Ent>, e: Ent, l': seq<Ent>, name: seq<Byte>)
    requires Inserts(l, e, l') && name != e.name
    ensures Find(l', name) == Find(l, name)
  {
    var k: nat :| InsertedAt(l, e, l', k);
    var a, c := l[..k], l[k..];
    assert l == a + c && l' == a + ([e] + c);
    FindConcat(a, c, name);
    FindConcat(a, [e] + c, name);
    FindConcat([e], c, name);
  }

  lemma AbsentConcat(a: seq<Ent>, c: seq<Ent>, name: seq<Byte>)
    ensures Absent(a + c, name) <==> Absent(a, name) && Absent(c, name)
  {
    if Absent(a + c, name) {
      forall k | 0 <= k < |c| ensures c[k].name != name { assert (a + c)[|a| + k] == c[k]; }
      forall k | 0 <= k < |a| ensures a[k].name != name { assert (a + c)[k] == a[k]; }
    }
  }

  /** No two entries share a name. */
  ghost predicate Distinct(l: seq<Ent>) {
    forall i, j :: 0 <= i < j < |l| ==> l[i].name != l[j].name
  }

  /** Removing a name changes the name map at that name only, and there it leaves nothing when
      names were distinct. */
  lemma RemoveFind(l: seq<Ent>, e: Ent, l': seq<Ent>, name: seq<Byte>)
    requires Removes(l, e, l')
    ensures name != e.name ==> Find(l', name) == Find(l, name)
    ensures Find(l, e.name) == e.ino
    ensures Distinct(l) ==> Absent(l', e.name) && Distinct(l')
  {
    var k: nat :| RemovedAt(l, e, l', k);
    var a, c := l[..k], l[k + 1..];
    assert l == a + ([e] + c);
    hide Distinct;
    FindConcat(a, [e] + c, e.name);
    FindConcat(a, c, name);
    FindConcat(a, [e] + c, name);
    FindConcat([e], c, name);
    if Distinct(l) { RemoveDistinct(l, k); }
  }

  lemma RemoveDistinct(l: seq<Ent>, k: nat)
    requires k < |l| && Distinct(l)
    ensures Absent(l[..k] + l[k + 1..], l[k].name) && Distinct(l[..k] + l[k + 1..])
  {
  }

  /** Adding an absent name keeps names distinct. */
  lemma InsertDistinct(l: seq<Ent>, e: Ent, l': seq<Ent>)
    requires Inserts(l, e, l') && Absent(l, e.name) && Distinct(l)
    ensures Distinct(l')
  {
  }
}
