/** Link counts: the namespace as a map from directories to entry lists. */
module Ext2Namespace {
  import opened Bytes
  import opened Ext2DirBlock

  type View = map<nat, seq<Ent>>

  const DOT: seq<Byte> := [0x2E]
  const DOTDOT: seq<Byte> := [0x2E, 0x2E]

  /** A name other than "." and "..". */
  predicate IsName(name: seq<Byte>) {
    name != DOT && name != DOTDOT
  }

  // ----- counting entries -----

  predicate Hit(e: Ent, i: nat, proper: bool) {
    e.ino == i && (proper ==> IsName(e.name))
  }

  /** Entries pointing at inode i: all of them, or only those under a proper name. */
  function Occ(l: seq<Ent>, i: nat, proper: bool): nat {
    if l == [] then 0 else Occ(l[1..], i, proper) + if Hit(l[0], i, proper) then 1 else 0
  }

  lemma {:induction false} OccConcat(a: seq<Ent>, b: seq<Ent>, i: nat, proper: bool)
    ensures Occ(a + b, i, proper) == Occ(a, i, proper) + Occ(b, i, proper)
  {
    if a == [] {
      assert a + b == b;
    } else {
      OccConcat(a[1..], b, i, proper);
      assert (a + b)[1..] == a[1..] + b;
    }
  }

  lemma OccInsert(l: seq<Ent>, e: Ent, l': seq<Ent>, i: nat, proper: bool)
    requires Inserts(l, e, l')
    ensures Occ(l', i, proper) == Occ(l, i, proper) + if Hit(e, i, proper) then 1 else 0
  {
    var k: nat :| InsertedAt(l, e, l', k);
    assert l == l[..k] + l[k..] && l' == l[..k] + ([e] + l[k..]);
    OccConcat(l[..k], l[k..], i, proper);
    OccConcat(l[..k], [e] + l[k..], i, proper);
    OccConcat([e], l[k..], i, proper);
  }

  lemma OccRemove(l: seq<Ent>, e: Ent, l': seq<Ent>, i: nat, proper: bool)
    requires Removes(l, e, l')
    ensures Occ(l, i, proper) == Occ(l', i, proper) + if Hit(e, i, proper) then 1 else 0
  {
    var k: nat :| RemovedAt(l, e, l', k);
    assert l == l[..k] + ([e] + l[k + 1..]);
    OccConcat(l[..k], l[k + 1..], i, proper);
    OccConcat(l[..k], [e] + l[k + 1..], i, proper);
    OccConcat([e], l[k + 1..], i, proper);
  }

  /** Pointing the first ".." elsewhere moves one reference and no proper name. */
  lemma OccRetarget(l: seq<Ent>, ino: nat, l': seq<Ent>, i: nat, proper: bool)
    requires Retargets(l, DOTDOT, ino, l')
    ensures Occ(l', i, proper) + (if !proper && Find(l, DOTDOT) == i then 1 else 0)
         == Occ(l, i, proper) + (if !proper && ino == i then 1 else 0)
  {
    var k: nat :| RetargetedAt(l, DOTDOT, ino, l', k);
    var a, e, c := l[..k], l[k], l[k + 1..];
    assert l == a + ([e] + c) && l' == a + ([e.(ino := ino)] + c);
    OccConcat(a, [e] + c, i, proper);
    OccConcat([e], c, i, proper);
    OccConcat(a, [e.(ino := ino)] + c, i, proper);
    OccConcat([e.(ino := ino)], c, i, proper);
    FindConcat(a, [e] + c, DOTDOT);
    FindConcat([e], c, DOTDOT);
  }

  /** A name that is found is an entry pointing at what was found. */
  lemma {:induction false} FindOcc(l: seq<Ent>, name: seq<Byte>)
    requires Find(l, name) != 0
    ensures Occ(l, Find(l, name), false) > 0
    ensures IsName(name) ==> Occ(l, Find(l, name), true) > 0
  {
    if l[0].name != name { FindOcc(l[1..], name); }
  }

  // ----- references in the whole namespace -----

  /** Entries pointing at i, over the directories numbered below n. */
  function Refs(v: View, i: nat, n: nat): nat {
    if n == 0 then 0 else Refs(v, i, n - 1) + if n - 1 in v then Occ(v[n - 1], i, false) else 0
  }

  function OccIn(v: View, d: nat, i: nat): nat {
    if d in v then Occ(v[d], i, false) else 0
  }

  lemma {:induction false} RefsSet(v: View, d: nat, l: seq<Ent>, i: nat, n: nat)
    ensures d < n ==> Refs(v[d := l], i, n) + OccIn(v, d, i) == Refs(v, i, n) + Occ(l, i, false)
    ensures d >= n ==> Refs(v[d := l], i, n) == Refs(v, i, n)
  {
    if n > 0 { RefsSet(v, d, l, i, n - 1); }
  }

  lemma {:induction false} RefsHas(v: View, d: nat, i: nat, n: nat)
    requires d < n
    ensures OccIn(v, d, i) <= Refs(v, i, n)
  {
    if d < n - 1 { RefsHas(v, d, i, n - 1); }
  }

  lemma {:induction false} RefsNone(v: View, i: nat, n: nat)
    requires forall d :: d in v ==> Occ(v[d], i, false) == 0
    ensures Refs(v, i, n) == 0
  {
    if n > 0 { RefsNone(v, i, n - 1); }
  }

  /** Directory d names inode i only if it is allocated. */
  ghost predicate Resolved(v: View, links: map<nat, nat>, d: nat, i: nat) {
    d in v && i !in links ==> Occ(v[d], i, false) == 0
  }

  /** i_links_count of i is the number of entries that name it. */
  ghost predicate Exact(v: View, links: map<nat, nat>, n: nat, i: nat) {
    i in links ==> 0 < i < n && links[i] == Refs(v, i, n)
  }

  /** Directory d names directory c properly at most once, and only if c's ".." points at d. */
  ghost predicate Parented(v: View, up: map<nat, nat>, d: nat, c: nat) {
    d in v && c in v && c in up ==> Occ(v[d], c, true) <= if up[c] == d then 1 else 0
  }

  ghost predicate UpIn(v: View, up: map<nat, nat>, c: nat) {
    c in up ==> up[c] in v
  }

  /** Every entry names an allocated inode, every link count is exact, and a directory is properly
      named at most once, in the directory its ".." names. n bounds the inode numbers; up is what ".."
      finds in each directory. */
  ghost predicate NamesOk(v: View, links: map<nat, nat>, up: map<nat, nat>, n: nat) {
    && v.Keys == up.Keys && v.Keys <= links.Keys
    && (forall c :: UpIn(v, up, c))
    && (forall d, i :: Resolved(v, links, d, i))
    && (forall i :: Exact(v, links, n, i))
    && (forall d, c :: Parented(v, up, d, c))
  }

  // ----- what each operation does to the namespace -----

  /** A further name for an inode that is not a directory: link, or the first half of rename. */
  lemma NameAdded(v: View, links: map<nat, nat>, up: map<nat, nat>, n: nat, d: nat, e: Ent, l: seq<Ent>)
    requires NamesOk(v, links, up, n) && d in v && e.ino in links && e.ino !in v && Inserts(v[d], e, l)
    ensures NamesOk(v[d := l], links[e.ino := links[e.ino] + 1], up, n)
  {
    var v', links' := v[d := l], links[e.ino := links[e.ino] + 1];
    forall i ensures Exact(v', links', n, i) {
      assert Exact(v, links, n, i) && Exact(v, links, n, d);
      RefsSet(v, d, l, i, n);
      OccInsert(v[d], e, l, i, false);
    }
    forall b, i ensures Resolved(v', links', b, i) {
      assert Resolved(v, links, b, i);
      OccInsert(v[d], e, l, i, false);
    }
    forall b, c ensures Parented(v', up, b, c) {
      assert Parented(v, up, b, c);
      OccInsert(v[d], e, l, c, true);
    }
    forall c ensures UpIn(v', up, c) { assert UpIn(v, up, c); }
  }

  /** i_links_count as it is stored: 16 bits, unchecked. */
  function Bumped(links: nat): (r: nat)
    ensures r < 0x1_0000
  {
    (links + 1) % 0x1_0000
  }

  /** A count is right in one way only. */
  lemma OneCountFits(v: View, links: map<nat, nat>, up: map<nat, nat>, n: nat, i: nat, k: nat)
    requires NamesOk(v, links, up, n) && i in links
    ensures NamesOk(v, links[i := k], up, n) <==> k == links[i]
  {
    if k == links[i] {
      assert links[i := k] == links;
    } else {
      assert Exact(v, links, n, i);
      assert !Exact(v, links[i := k], n, i);
    }
  }

  /** One more name keeps the stored count exact if and only if it was below 65535. */
  lemma NameAddedExactly(v: View, links: map<nat, nat>, up: map<nat, nat>, n: nat, d: nat, e: Ent, l: seq<Ent>)
    requires NamesOk(v, links, up, n) && d in v && e.ino in links && e.ino !in v && Inserts(v[d], e, l)
    requires links[e.ino] <= 65535
    ensures NamesOk(v[d := l], links[e.ino := Bumped(links[e.ino])], up, n) <==> links[e.ino] < 65535
  {
    NameAdded(v, links, up, n, d, e, l);
    var exact := links[e.ino := links[e.ino] + 1];
    OneCountFits(v[d := l], exact, up, n, e.ino, Bumped(links[e.ino]));
    assert exact[e.ino := Bumped(links[e.ino])] == links[e.ino := Bumped(links[e.ino])];
  }

  /** k names for inode 3 in the root directory. */
  function Crowd(k: nat): seq<Ent>
    ensures |Crowd(k)| == 2 + k
  {
    if k == 0 then [Ent(2, DOT, 2), Ent(2, DOTDOT, 2)] else [Ent(3, [0x61], 1)] + Crowd(k - 1)
  }

  lemma {:induction false} CrowdOcc(k: nat, i: nat, p: bool)
    ensures Occ(Crowd(k), i, p) == (if i == 3 then k else 0) + if i == 2 && !p then 2 else 0
  {
    if k == 0 {
      assert Crowd(0) == [Ent(2, DOT, 2)] + [Ent(2, DOTDOT, 2)];
      OccConcat([Ent(2, DOT, 2)], [Ent(2, DOTDOT, 2)], i, p);
    } else {
      assert Crowd(k)[1..] == Crowd(k - 1);
      CrowdOcc(k - 1, i, p);
    }
  }

  lemma CrowdOk(k: nat)
    ensures NamesOk(map[2 := Crowd(k)], map[2 := 2, 3 := k], map[2 := 2], 4)
  {
    var v, links, up := map[2 := Crowd(k)], map[2 := 2, 3 := k], map[2 := 2];
    forall i, p ensures Occ(v[2], i, p) == (if i == 3 then k else 0) + if i == 2 && !p then 2 else 0 { CrowdOcc(k, i, p); }
    hide Crowd, Occ;
    forall i ensures Exact(v, links, 4, i) { RefsOf(v, i); }
  }

  /** References in a namespace of the root directory alone. */
  lemma RefsOf(v: View, i: nat)
    requires v.Keys == {2}
    ensures Refs(v, i, 4) == Occ(v[2], i, false)
  {
    hide Occ;
    assert Refs(v, i, 0) == 0;
    assert Refs(v, i, 1) == Refs(v, i, 0);
    assert Refs(v, i, 2) == Refs(v, i, 1);
    assert Refs(v, i, 3) == Refs(v, i, 2) + Occ(v[2], i, false);
    assert Refs(v, i, 4) == Refs(v, i, 3);
  }

  /** An inode with 65535 names, all counted, gets one more: the stored count is 0. */
  lemma CountLost(e: Ent, l: seq<Ent>)
    requires e.ino == 3 && Inserts(Crowd(65535), e, l)
    ensures NamesOk(map[2 := Crowd(65535)], map[2 := 2, 3 := 65535], map[2 := 2], 4)
    ensures Bumped(65535) == 0 && !NamesOk(map[2 := l], map[2 := 2, 3 := 0], map[2 := 2], 4)
  {
    hide Crowd, Inserts;
    CrowdOk(65535);
    NameAddedExactly(map[2 := Crowd(65535)], map[2 := 2, 3 := 65535], map[2 := 2], 4, 2, e, l);
    assert map[2 := Crowd(65535)][2 := l] == map[2 := l];
    var links: map<nat, nat> := map[2 := 2, 3 := 65535];
    assert links[3 := Bumped(65535)] == map[2 := 2, 3 := 0];
  }

  /** No entry names an inode that is not allocated. */
  lemma Unnamed(v: View, links: map<nat, nat>, up: map<nat, nat>, n: nat, i: nat)
    requires NamesOk(v, links, up, n) && i !in links
    ensures Refs(v, i, n) == 0 && i !in v
    ensures forall d :: d in v ==> Occ(v[d], i, false) == 0
  {
    forall d | d in v ensures Occ(v[d], i, false) == 0 { assert Resolved(v, links, d, i); }
    RefsNone(v, i, n);
  }

  /** The first name of a new inode that is not a directory: create of a file, symlink. */
  lemma FileNamed(v: View, links: map<nat, nat>, up: map<nat, nat>, n: nat, d: nat, e: Ent, l: seq<Ent>)
    requires NamesOk(v, links, up, n) && d in v && e.ino !in links && 0 < e.ino < n && Inserts(v[d], e, l)
    ensures NamesOk(v[d := l], links[e.ino := 1], up, n)
  {
    Unnamed(v, links, up, n, e.ino);
    var links0 := links[e.ino := 0];
    forall i ensures Exact(v, links0, n, i) { assert Exact(v, links, n, i); }
    forall b, i ensures Resolved(v, links0, b, i) { assert Resolved(v, links, b, i); }
    NameAdded(v, links0, up, n, d, e, l);
    assert links0[e.ino := 1] == links[e.ino := 1];
  }

  lemma OwnOcc(own: seq<Ent>, x: nat, d: nat, i: nat, p: bool)
    requires |own| == 2 && own[0].ino == x && own[0].name == DOT && own[1].ino == d && own[1].name == DOTDOT
    ensures Occ(own, i, p) == if p then 0 else (if i == x then 1 else 0) + (if i == d then 1 else 0)
  {
    assert own == [own[0]] + [own[1]];
    OccConcat([own[0]], [own[1]], i, p);
  }

  /** A new directory: two entries of its own, one in its parent. */
  lemma DirNamed(v: View, links: map<nat, nat>, up: map<nat, nat>, n: nat, d: nat, e: Ent, l: seq<Ent>, own: seq<Ent>)
    requires NamesOk(v, links, up, n) && d in v && e.ino !in links && 0 < e.ino < n && Inserts(v[d], e, l) && IsName(e.name)
    requires |own| == 2 && own[0].ino == e.ino && own[0].name == DOT && own[1].ino == d && own[1].name == DOTDOT
    ensures d in links && NamesOk(v[e.ino := own][d := l], links[e.ino := 2][d := links[d] + 1], up[e.ino := d], n)
  {
    var x := e.ino;
    Unnamed(v, links, up, n, x);
    var v1 := v[x := own];
    var v', links', up' := v1[d := l], links[x := 2][d := links[d] + 1], up[x := d];
    forall i ensures Exact(v', links', n, i) {
      assert Exact(v, links, n, i) && Exact(v, links, n, d);
      RefsSet(v, x, own, i, n);
      RefsSet(v1, d, l, i, n);
      OccInsert(v[d], e, l, i, false);
      OwnOcc(own, x, d, i, false);
    }
    forall b, i ensures Resolved(v', links', b, i) {
      assert Resolved(v, links, b, i);
      OccInsert(v[d], e, l, i, false);
      OwnOcc(own, x, d, i, false);
    }
    forall b, c ensures Parented(v', up', b, c) {
      assert Parented(v, up, b, c);
      OccInsert(v[d], e, l, c, true);
      OwnOcc(own, x, d, c, true);
      if c == x && b in v { ProperOcc(v[b], x); }
    }
    forall c ensures UpIn(v', up', c) { assert UpIn(v, up, c); }
  }

  /** mkdir keeps its parent's stored count exact if and only if it was below 65535. */
  lemma DirNamedExactly(v: View, links: map<nat, nat>, up: map<nat, nat>, n: nat, d: nat, e: Ent, l: seq<Ent>, own: seq<Ent>)
    requires NamesOk(v, links, up, n) && d in v && e.ino !in links && 0 < e.ino < n && Inserts(v[d], e, l) && IsName(e.name)
    requires |own| == 2 && own[0].ino == e.ino && own[0].name == DOT && own[1].ino == d && own[1].name == DOTDOT
    requires d in links && links[d] <= 65535
    ensures NamesOk(v[e.ino := own][d := l], links[e.ino := 2][d := Bumped(links[d])], up[e.ino := d], n) <==> links[d] < 65535
  {
    DirNamed(v, links, up, n, d, e, l, own);
    var exact := links[e.ino := 2][d := links[d] + 1];
    OneCountFits(v[e.ino := own][d := l], exact, up[e.ino := d], n, d, Bumped(links[d]));
    assert exact[d := Bumped(links[d])] == links[e.ino := 2][d := Bumped(links[d])];
  }

  lemma {:induction false} ProperOcc(l: seq<Ent>, i: nat)
    ensures Occ(l, i, true) <= Occ(l, i, false)
  {
    if l != [] { ProperOcc(l[1..], i); }
  }

  /** The links after one name of i is gone: the inode goes with its last name. */
  function Unlinked(links: map<nat, nat>, i: nat): map<nat, nat>
    requires i in links
  {
    if links[i] <= 1 then links - {i} else links[i := links[i] - 1]
  }

  /** Dropping a name of an inode that is not a directory: it had at least one name, and it is
      freed exactly when no entry names it any more. */
  lemma NameDropped(v: View, links: map<nat, nat>, up: map<nat, nat>, n: nat, d: nat, e: Ent, l: seq<Ent>)
    requires NamesOk(v, links, up, n) && d in v && e.ino !in v && Removes(v[d], e, l)
    ensures e.ino in links && links[e.ino] > 0
    ensures NamesOk(v[d := l], Unlinked(links, e.ino), up, n)
    ensures e.ino !in Unlinked(links, e.ino) <==> Refs(v[d := l], e.ino, n) == 0
  {
    var x := e.ino;
    OccRemove(v[d], e, l, x, false);
    assert Resolved(v, links, d, x) && Exact(v, links, n, x) && Exact(v, links, n, d);
    RefsHas(v, d, x, n);
    var v', links' := v[d := l], Unlinked(links, x);
    RefsSet(v, d, l, x, n);
    forall i ensures Exact(v', links', n, i) {
      assert Exact(v, links, n, i);
      RefsSet(v, d, l, i, n);
      OccRemove(v[d], e, l, i, false);
    }
    forall b, i ensures Resolved(v', links', b, i) {
      assert Resolved(v, links, b, i) && Exact(v, links, n, b);
      OccRemove(v[d], e, l, i, false);
      if i == x && b in v { RefsHas(v', b, i, n); }
    }
    forall b, c ensures Parented(v', up, b, c) {
      assert Parented(v, up, b, c);
      OccRemove(v[d], e, l, c, true);
    }
    forall c ensures UpIn(v', up, c) { assert UpIn(v, up, c); }
  }

  /** Renaming a directory inside its parent: one proper name in, one out. */
  lemma DirRenamed(v: View, links: map<nat, nat>, up: map<nat, nat>, n: nat, d: nat, e: Ent, l1: seq<Ent>, o: Ent, l2: seq<Ent>)
    requires NamesOk(v, links, up, n) && d in v && e.ino in v && e.ino == o.ino && IsName(o.name) && IsName(e.name)
    requires Inserts(v[d], e, l1) && Removes(l1, o, l2)
    ensures NamesOk(v[d := l2], links, up, n)
  {
    var v' := v[d := l2];
    forall i ensures Exact(v', links, n, i) {
      assert Exact(v, links, n, i);
      SameOcc(v[d], e, l1, o, l2, i, false);
      RefsSet(v, d, l2, i, n);
    }
    forall b, i ensures Resolved(v', links, b, i) {
      assert Resolved(v, links, b, i);
      SameOcc(v[d], e, l1, o, l2, i, false);
    }
    forall b, c ensures Parented(v', up, b, c) {
      assert Parented(v, up, b, c);
      SameOcc(v[d], e, l1, o, l2, c, true);
    }
    forall c ensures UpIn(v', up, c) { assert UpIn(v, up, c); }
  }

  lemma SameOcc(l: seq<Ent>, e: Ent, l1: seq<Ent>, o: Ent, l2: seq<Ent>, i: nat, p: bool)
    requires Inserts(l, e, l1) && Removes(l1, o, l2) && e.ino == o.ino && IsName(o.name) && IsName(e.name)
    ensures Occ(l2, i, p) == Occ(l, i, p)
  {
    OccInsert(l, e, l1, i, p);
    OccRemove(l1, o, l2, i, p);
  }

  /** What a move does to the three directories it touches. */
  ghost predicate Moves(v: View, od: nat, nd: nat, e: Ent, o: Ent, l1: seq<Ent>, l2: seq<Ent>, l3: seq<Ent>) {
    && od in v && nd in v && od != nd && e.ino in v && e.ino == o.ino && IsName(o.name) && IsName(e.name)
    && Inserts(v[nd], e, l1) && Removes(v[od], o, l2)
    && Retargets(v[nd := l1][od := l2][e.ino], DOTDOT, nd, l3)
  }

  /** Entries naming i (all, or proper ones) in directory b after a move. */
  lemma MovedOcc(v: View, od: nat, nd: nat, e: Ent, o: Ent, l1: seq<Ent>, l2: seq<Ent>, l3: seq<Ent>, b: nat, i: nat, p: bool)
    requires Moves(v, od, nd, e, o, l1, l2, l3) && b in v
    ensures var v2 := v[nd := l1][od := l2];
      var old_ := Find(v2[e.ino], DOTDOT);
      Occ(v2[e.ino := l3][b], i, p)
        + (if b == od && i == e.ino then 1 else 0) + (if b == e.ino && !p && i == old_ then 1 else 0)
      == Occ(v[b], i, p)
        + (if b == nd && i == e.ino then 1 else 0) + (if b == e.ino && !p && i == nd then 1 else 0)
  {
    OccInsert(v[nd], e, l1, i, p);
    OccRemove(v[od], o, l2, i, p);
    OccRetarget(v[nd := l1][od := l2][e.ino], nd, l3, i, p);
  }

  /** Moving a directory to another parent: its entry, its ".." and both parents' counts. */
  lemma DirMoved(v: View, links: map<nat, nat>, up: map<nat, nat>, n: nat, od: nat, nd: nat,
                 e: Ent, o: Ent, l1: seq<Ent>, l2: seq<Ent>, l3: seq<Ent>)
    requires NamesOk(v, links, up, n) && Moves(v, od, nd, e, o, l1, l2, l3)
    requires Find(v[nd := l1][od := l2][e.ino], DOTDOT) == up[e.ino]
    ensures up[e.ino] == od && od in links && nd in links && links[od] > 0
    ensures NamesOk(v[nd := l1][od := l2][e.ino := l3], links[od := links[od] - 1][nd := links[nd] + 1], up[e.ino := nd], n)
  {
    var x := e.ino;
    OccRemove(v[od], o, l2, x, true);
    assert Parented(v, up, od, x);
    assert up[x] == od;
    var v1 := v[nd := l1];
    var v2 := v1[od := l2];
    var v', up' := v2[x := l3], up[x := nd];
    assert Exact(v, links, n, od) && Exact(v, links, n, nd) && Exact(v, links, n, x);
    DirMovedRefs(v, n, od, nd, e, o, l1, l2, l3, od);
    var links' := links[od := links[od] - 1][nd := links[nd] + 1];
    forall i ensures Exact(v', links', n, i) {
      assert Exact(v, links, n, i);
      DirMovedRefs(v, n, od, nd, e, o, l1, l2, l3, i);
    }
    forall b, i ensures Resolved(v', links', b, i) {
      assert Resolved(v, links, b, i);
      if b in v { MovedOcc(v, od, nd, e, o, l1, l2, l3, b, i, false); }
    }
    forall b, c ensures Parented(v', up', b, c) {
      assert Parented(v, up, b, c) && Parented(v, up, od, c) && Parented(v, up, nd, c);
      if b in v { MovedOcc(v, od, nd, e, o, l1, l2, l3, b, c, true); }
    }
    forall c ensures UpIn(v', up', c) { assert UpIn(v, up, c); }
  }

  /** A move keeps the new parent's stored count exact if and only if it was below 65535. */
  lemma DirMovedExactly(v: View, links: map<nat, nat>, up: map<nat, nat>, n: nat, od: nat, nd: nat,
                        e: Ent, o: Ent, l1: seq<Ent>, l2: seq<Ent>, l3: seq<Ent>)
    requires NamesOk(v, links, up, n) && Moves(v, od, nd, e, o, l1, l2, l3)
    requires Find(v[nd := l1][od := l2][e.ino], DOTDOT) == up[e.ino]
    requires nd in links && links[nd] <= 65535
    ensures up[e.ino] == od && od in links && links[od] > 0
    ensures NamesOk(v[nd := l1][od := l2][e.ino := l3], links[od := links[od] - 1][nd := Bumped(links[nd])], up[e.ino := nd], n)
      <==> links[nd] < 65535
  {
    DirMoved(v, links, up, n, od, nd, e, o, l1, l2, l3);
    var v' := v[nd := l1][od := l2][e.ino := l3];
    var less: map<nat, nat> := links[od := links[od] - 1];
    OneCountFits(v', less[nd := links[nd] + 1], up[e.ino := nd], n, nd, Bumped(links[nd]));
    assert less[nd := links[nd] + 1][nd := Bumped(links[nd])] == less[nd := Bumped(links[nd])];
  }

  lemma DirMovedRefs(v: View, n: nat, od: nat, nd: nat, e: Ent, o: Ent, l1: seq<Ent>, l2: seq<Ent>, l3: seq<Ent>, i: nat)
    requires Moves(v, od, nd, e, o, l1, l2, l3) && od < n && nd < n && e.ino < n
    requires Find(v[nd := l1][od := l2][e.ino], DOTDOT) == od
    ensures var v' := v[nd := l1][od := l2][e.ino := l3];
      Refs(v', i, n) + (if i == od then 1 else 0) == Refs(v, i, n) + (if i == nd then 1 else 0)
  {
    var v1 := v[nd := l1];
    var v2 := v1[od := l2];
    RefsSet(v, nd, l1, i, n);
    RefsSet(v1, od, l2, i, n);
    RefsSet(v2, e.ino, l3, i, n);
    OccInsert(v[nd], e, l1, i, false);
    OccRemove(v[od], o, l2, i, false);
    OccRetarget(v2[e.ino], nd, l3, i, false);
  }
}
