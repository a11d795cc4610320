/** What the operations on names look like to ext2_lookup: the namespace as a map from a directory
    and a name to an inode number. */
module Ext2Lookups {
  import opened Bytes
  import opened Ext2DirBlock
  import opened Ext2Names
  import opened Ext2Unlink
  import opened Ext2Rename
  import N = Ext2Namespace

  /** What ext2_lookup answers: 0 when the name is not there. */
  function Look(v: N.View, d: nat, name: seq<Byte>): (r: nat)
    ensures d !in v ==> r == 0
  {
    if d in v then Find(v[d], name) else 0
  }

  /** A list in which no name occurs twice and no entry is dead. */
  ghost predicate Clean(l: seq<Ent>) {
    Distinct(l) && forall k :: 0 <= k < |l| ==> l[k].ino != 0
  }

  ghost predicate AllClean(v: N.View) {
    forall d :: d in v ==> Clean(v[d])
  }

  lemma {:induction false} NotFound(l: seq<Ent>, name: seq<Byte>)
    requires Clean(l)
    ensures Find(l, name) == 0 <==> Absent(l, name)
  {
    if l != [] && l[0].name != name {
      assert Clean(l[1..]);
      NotFound(l[1..], name);
    }
  }

  lemma InsertClean(l: seq<Ent>, e: Ent, l': seq<Ent>)
    requires Clean(l) && Inserts(l, e, l') && Find(l, e.name) == 0 && e.ino != 0
    ensures Clean(l') && forall nm :: Find(l', nm) == if nm == e.name then e.ino else Find(l, nm)
  {
    NotFound(l, e.name);
    InsertDistinct(l, e, l');
    forall nm ensures Find(l', nm) == if nm == e.name then e.ino else Find(l, nm) { InsertFind(l, e, l', nm); }
  }

  lemma RemoveClean(l: seq<Ent>, e: Ent, l': seq<Ent>)
    requires Clean(l) && Removes(l, e, l')
    ensures Clean(l') && Find(l, e.name) == e.ino && forall nm :: Find(l', nm) == if nm == e.name then 0 else Find(l, nm)
  {
    RemoveFind(l, e, l', e.name);
    NotFound(l', e.name);
    forall nm ensures Find(l', nm) == if nm == e.name then 0 else Find(l, nm) { RemoveFind(l, e, l', nm); }
  }

  lemma RetargetClean(l: seq<Ent>, name: seq<Byte>, ino: nat, l': seq<Ent>)
    requires Clean(l) && Retargets(l, name, ino, l') && ino != 0
    ensures Clean(l') && forall nm :: Find(l', nm) == if nm == name then ino else Find(l, nm)
  {
    var k: nat :| RetargetedAt(l, name, ino, l', k);
    var a, e, c := l[..k], l[k], l[k + 1..];
    var e' := e.(ino := ino);
    assert l == a + ([e] + c) && l' == a + ([e'] + c);
    forall nm ensures Find(l', nm) == if nm == name then ino else Find(l, nm) {
      FindConcat(a, [e] + c, nm);
      FindConcat([e], c, nm);
      FindConcat(a, [e'] + c, nm);
      FindConcat([e'], c, nm);
    }
  }

  /** A name is added: only that name answers differently. */
  lemma AddedSeen(v: N.View, d: nat, e: Ent, l: seq<Ent>)
    requires AllClean(v) && d in v && Inserts(v[d], e, l) && Look(v, d, e.name) == 0 && e.ino != 0
    ensures AllClean(v[d := l])
    ensures forall b, nm :: Look(v[d := l], b, nm) == if b == d && nm == e.name then e.ino else Look(v, b, nm)
  {
    hide Clean;
    InsertClean(v[d], e, l);
  }

  /** ext2_unlink as a lookup sees it: that name, and only that name, is gone. */
  lemma DroppedSeen(v: N.View, d: nat, x: nat, name: seq<Byte>, l: seq<Ent>)
    requires AllClean(v) && d in v && LostName(v[d], x, name, l)
    ensures AllClean(v[d := l]) && Look(v, d, name) == x
    ensures forall b, nm :: Look(v[d := l], b, nm) == if b == d && nm == name then 0 else Look(v, b, nm)
  {
    hide Clean;
    var ft :| Removes(v[d], Ent(x, name, ft), l);
    RemoveClean(v[d], Ent(x, name, ft), l);
  }

  lemma ClearedSeen(v: N.View, l: map<nat, nat>, nd: nat, name: seq<Byte>, v1: N.View, l1: map<nat, nat>)
    requires AllClean(v) && nd in v && Cleared(v, l, nd, name, v1, l1)
    ensures AllClean(v1) && forall b, nm :: Look(v1, b, nm) == if b == nd && nm == name then 0 else Look(v, b, nm)
  {
    hide Clean, LostName;
    if Find(v[nd], name) != 0 { DroppedSeen(v, nd, Find(v[nd], name), name, v1[nd]); }
  }

  /** The answers after inode x moved from one name to another. */
  function MovedLook(v: N.View, od: nat, oldname: seq<Byte>, nd: nat, newname: seq<Byte>, x: nat, d: nat, nm: seq<Byte>): nat {
    if d == nd && nm == newname then x else if d == od && nm == oldname then 0 else Look(v, d, nm)
  }

  /** What ".." answers afterwards: a directory that changed parents answers the new one. */
  function MovedUp(v: N.View, od: nat, nd: nat, x: nat, d: nat): nat {
    if d == x && x in v && od != nd then nd else Look(v, d, N.DOTDOT)
  }

  lemma MovedSeen(v: N.View, l: map<nat, nat>, od: nat, name: seq<Byte>, nd: nat, e: Ent, v': N.View, l': map<nat, nat>,
                  a: seq<Ent>, b: seq<Ent>)
    requires AllClean(v) && od in v && nd in v && od in l && nd in l && nd != 0
    requires Moved(v, l, od, name, nd, e, v', l', a, b)
    requires Look(v, nd, e.name) == 0 && e.ino != 0 && !(od == nd && name == e.name)
    ensures AllClean(v')
    ensures forall d, nm :: nm != N.DOTDOT ==> Look(v', d, nm) == MovedLook(v, od, name, nd, e.name, e.ino, d, nm)
    ensures name != N.DOTDOT && e.name != N.DOTDOT ==> forall d :: Look(v', d, N.DOTDOT) == MovedUp(v, od, nd, e.ino, d)
  {
    hide Clean, LostName, Inserts, Retargets;
    AddedSeen(v, nd, e, a);
    DroppedSeen(v[nd := a], od, e.ino, name, b);
    if e.ino in v && od != nd {
      RetargetClean(v[nd := a][od := b][e.ino], N.DOTDOT, nd, v'[e.ino]);
    }
  }

  /** ext2_rename as a lookup sees it: the new name finds what the old one did, the old one finds
      nothing, every other name in every directory is found as before; ".." of a directory that
      changed parents finds the new one. */
  lemma RenamedSeen(v: N.View, l: map<nat, nat>, od: nat, oldname: seq<Byte>, nd: nat, newname: seq<Byte>, ft: Byte,
                    v': N.View, l': map<nat, nat>)
    requires AllClean(v) && od in v && nd in v && nd != 0 && |newname| <= 255 && (od == nd ==> oldname != newname)
    requires Look(v, od, oldname) != 0 && RenamedIn(v, l, od, oldname, nd, newname, ft, v', l')
    ensures AllClean(v')
    ensures forall d, nm :: nm != N.DOTDOT ==>
      Look(v', d, nm) == MovedLook(v, od, oldname, nd, newname, Look(v, od, oldname), d, nm)
    ensures oldname != N.DOTDOT && newname != N.DOTDOT ==>
      forall d :: Look(v', d, N.DOTDOT) == MovedUp(v, od, nd, Look(v, od, oldname), d)
  {
    hide Clean, LostName, Inserts, Retargets, Cleared, Moved;
    var v1, l1, a, b :|
      && Cleared(v, l, nd, newname, v1, l1) && od in v1 && nd in v1 && od in l1 && nd in l1
      && Moved(v1, l1, od, oldname, nd, Ent(Find(v[od], oldname), Trunc(newname), ft), v', l', a, b);
    ClearedSeen(v, l, nd, newname, v1, l1);
    ClearedKeys(v, l, nd, newname, v1, l1);
    assert Look(v, od, oldname) in v1 <==> Look(v, od, oldname) in v;
    MovedSeen(v1, l1, od, oldname, nd, Ent(Find(v[od], oldname), Trunc(newname), ft), v', l', a, b);
  }
}
