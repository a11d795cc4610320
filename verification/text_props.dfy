/** Text properties: property lists, and what an interval table says about each position. */
module TextProps {
  /** A Lisp value as far as property lists look at it. */
  datatype Lobj = Nil | Atom(id: nat) | Cons(car: Lobj, cdr: Lobj)

  function Car(v: Lobj): Lobj { if v.Cons? then v.car else Nil }
  function Cdr(v: Lobj): (r: Lobj)
    ensures Len(r) <= Len(v)
  {
    if v.Cons? then v.cdr else Nil
  }

  function Len(v: Lobj): nat { if v.Cons? then 1 + Len(v.cdr) else 0 }

  // ----- property lists -----

  /** The first value under key, nil if there is none. */
  function Get(pl: Lobj, key: Lobj): Lobj
    decreases Len(pl)
  {
    if !pl.Cons? then Nil else if pl.car == key then Car(pl.cdr) else Get(Cdr(pl.cdr), key)
  }

  function Put(pl: Lobj, key: Lobj, val: Lobj): Lobj {
    Cons(key, Cons(val, pl))
  }

  function Remove(pl: Lobj, key: Lobj): Lobj
    decreases Len(pl)
  {
    if !pl.Cons? then Nil
    else if pl.car == key then Remove(Cdr(pl.cdr), key)
    else Cons(pl.car, Cons(Car(pl.cdr), Remove(Cdr(pl.cdr), key)))
  }

  /** plist_put binds one key and no other. */
  lemma GetPut(pl: Lobj, key: Lobj, val: Lobj, other: Lobj)
    ensures Get(Put(pl, key, val), other) == if other == key then val else Get(pl, other)
  {
  }

  /** plist_remove unbinds one key and no other. */
  lemma {:induction false} GetRemove(pl: Lobj, key: Lobj, other: Lobj)
    ensures Get(Remove(pl, key), other) == if other == key then Nil else Get(pl, other)
    decreases Len(pl)
  {
    if pl.Cons? { GetRemove(Cdr(pl.cdr), key, other); }
  }

  /** Every key of a list removed in turn. */
  function RemoveAll(pl: Lobj, props: Lobj): Lobj
    decreases Len(props)
  {
    if props.Cons? then RemoveAll(Remove(pl, props.car), props.cdr) else pl
  }

  predicate Member(key: Lobj, l: Lobj) {
    l.Cons? && (l.car == key || Member(key, l.cdr))
  }

  /** The list of some keys. */
  function ListOf(keys: seq<Lobj>): Lobj {
    if keys == [] then Nil else Cons(keys[0], ListOf(keys[1..]))
  }

  lemma {:induction false} MemberIs(keys: seq<Lobj>, key: Lobj)
    ensures Member(key, ListOf(keys)) <==> key in keys
  {
    if keys != [] { MemberIs(keys[1..], key); }
  }

  lemma {:induction false} GetRemoveAll(pl: Lobj, props: Lobj, key: Lobj)
    ensures Get(RemoveAll(pl, props), key) == if Member(key, props) then Nil else Get(pl, key)
    decreases Len(props)
  {
    if props.Cons? {
      GetRemoveAll(Remove(pl, props.car), props.cdr, key);
      GetRemove(pl, props.car, key);
    }
  }

  lemma {:induction false} RemoveAllNil(props: Lobj)
    ensures RemoveAll(Nil, props) == Nil
  {
    if props.Cons? { RemoveAllNil(props.cdr); }
  }

  method PlistGet(plist: Lobj, key: Lobj) returns (v: Lobj)
    ensures v == Get(plist, key)
  {
    var p := plist;
    while p.Cons?
      invariant Get(p, key) == Get(plist, key)
      decreases Len(p)
    {
      var rest := p.cdr;
      v := Car(rest);
      if p.car == key { return; }
      p := Cdr(rest);
    }
    return Nil;
  }

  /** A kept prefix in front of a list. */
  function OnTo(pairs: seq<(Lobj, Lobj)>, tail: Lobj): Lobj {
    if pairs == [] then tail else Cons(pairs[0].0, Cons(pairs[0].1, OnTo(pairs[1..], tail)))
  }

  lemma {:induction false} OnToSnoc(pairs: seq<(Lobj, Lobj)>, k: Lobj, v: Lobj, tail: Lobj)
    ensures OnTo(pairs + [(k, v)], tail) == OnTo(pairs, Cons(k, Cons(v, tail)))
  {
    if pairs == [] {
      assert pairs + [(k, v)] == [(k, v)] && [(k, v)][1..] == [];
    } else {
      OnToSnoc(pairs[1..], k, v, tail);
      assert (pairs + [(k, v)])[1..] == pairs[1..] + [(k, v)];
    }
  }

  /** plist_remove: the kept pairs are appended at the tail of a fresh list. */
  method PlistRemove(plist: Lobj, key: Lobj) returns (r: Lobj)
    ensures r == Remove(plist, key)
  {
    var kept: seq<(Lobj, Lobj)> := [];
    var p := plist;
    while p.Cons?
      invariant OnTo(kept, Remove(p, key)) == Remove(plist, key)
      decreases Len(p)
    {
      var k, v := p.car, Car(p.cdr);
      if k != key {
        OnToSnoc(kept, k, v, Remove(Cdr(p.cdr), key));
        kept := kept + [(k, v)];
      }
      p := Cdr(p.cdr);
    }
    return OnTo(kept, Nil);
  }

  // ----- interval tables -----

  datatype Ival = Ival(start: int, end: int, plist: Lobj)

  predicate Covers(s: seq<Ival>, pos: int) {
    s != [] && (s[0].start <= pos < s[0].end || Covers(s[1..], pos))
  }

  /** rd_text_props_at: the plist of the interval over pos, nil if there is none. */
  function Props(s: seq<Ival>, pos: int): Lobj {
    if s == [] then Nil else if s[0].start <= pos < s[0].end then s[0].plist else Props(s[1..], pos)
  }

  /** Sorted, disjoint, nonempty, inside the text. */
  ghost predicate Table(s: seq<Ival>, len: int) {
    && (forall i :: 0 <= i < |s| ==> 0 <= s[i].start < s[i].end <= len)
    && forall i, j :: 0 <= i < j < |s| ==> s[i].end <= s[j].start
  }

  lemma {:induction false} CoversIs(s: seq<Ival>, pos: int)
    ensures Covers(s, pos) <==> exists i :: 0 <= i < |s| && s[i].start <= pos < s[i].end
  {
    if s != [] {
      CoversIs(s[1..], pos);
      if Covers(s[1..], pos) {
        var i :| 0 <= i < |s[1..]| && s[1..][i].start <= pos < s[1..][i].end;
        assert s[i + 1].start <= pos < s[i + 1].end;
      }
      forall i | 0 <= i < |s| && s[i].start <= pos < s[i].end ensures Covers(s, pos) {
        if i > 0 { assert s[1..][i - 1] == s[i]; }
      }
    }
  }

  lemma {:induction false} PropsConcat(a: seq<Ival>, b: seq<Ival>, pos: int)
    ensures Props(a + b, pos) == if Covers(a, pos) then Props(a, pos) else Props(b, pos)
    ensures Covers(a + b, pos) <==> Covers(a, pos) || Covers(b, pos)
  {
    if a == [] {
      assert a + b == b;
    } else {
      PropsConcat(a[1..], b, pos);
      assert (a + b)[1..] == a[1..] + b;
    }
  }

  lemma {:induction false} Uncovered(s: seq<Ival>, pos: int)
    requires !Covers(s, pos)
    ensures Props(s, pos) == Nil
  {
    if s != [] { Uncovered(s[1..], pos); }
  }

  /** In a table the one interval over a position decides. */
  lemma {:induction false} PropsAt(s: seq<Ival>, len: int, i: nat, pos: int)
    requires Table(s, len) && i < |s| && s[i].start <= pos < s[i].end
    ensures Props(s, pos) == s[i].plist
  {
    if i > 0 { PropsAt(s[1..], len, i - 1, pos); }
  }

  /** No interval, no properties. */
  lemma {:induction false} PropsNone(s: seq<Ival>, pos: int)
    requires forall i :: 0 <= i < |s| ==> pos < s[i].start || s[i].end <= pos
    ensures Props(s, pos) == Nil
  {
    if s != [] { PropsNone(s[1..], pos); }
  }

  /** One interval in the middle of a table. */
  lemma PropsMiddle(a: seq<Ival>, x: Ival, c: seq<Ival>, pos: int)
    requires x.start <= x.end
    requires (forall i :: 0 <= i < |a| ==> a[i].end <= x.start) && (forall i :: 0 <= i < |c| ==> x.end <= c[i].start)
    ensures Props(a + [x] + c, pos) ==
      if pos < x.start then Props(a, pos) else if pos < x.end then x.plist else Props(c, pos)
  {
    CoversIs(a, pos);
    CoversIs(c, pos);
    PropsConcat(a + [x], c, pos);
    PropsConcat(a, [x], pos);
    if !Covers(a, pos) { Uncovered(a, pos); }
    if !Covers(c, pos) { Uncovered(c, pos); }
  }

  lemma PropsAround(a: seq<Ival>, c: seq<Ival>, m: int, pos: int)
    requires (forall i :: 0 <= i < |a| ==> a[i].end <= m) && (forall i :: 0 <= i < |c| ==> m <= c[i].start)
    ensures Props(a + c, pos) == if pos < m then Props(a, pos) else Props(c, pos)
  {
    CoversIs(a, pos);
    CoversIs(c, pos);
    PropsConcat(a, c, pos);
    if !Covers(a, pos) { Uncovered(a, pos); }
    if !Covers(c, pos) { Uncovered(c, pos); }
  }

  /** No interval lies on both sides of p. */
  ghost predicate Cut(s: seq<Ival>, p: int) {
    forall i :: 0 <= i < |s| ==> s[i].end <= p || p <= s[i].start
  }

  /** s1 is s0 with f applied to the properties of each position of [a, b). */
  ghost predicate Mapped(s0: seq<Ival>, s1: seq<Ival>, a: int, b: int, f: Lobj -> Lobj) {
    forall pos :: Props(s1, pos) == if a <= pos < b then f(Props(s0, pos)) else Props(s0, pos)
  }

  /** The same properties everywhere. */
  ghost predicate SameProps(s0: seq<Ival>, s1: seq<Ival>) {
    forall pos :: Props(s1, pos) == Props(s0, pos)
  }

  /** Cutting an interval in two changes no property. */
  lemma SplitProps(a: seq<Ival>, x: Ival, c: seq<Ival>, p: int, len: int)
    requires Table(a + [x] + c, len) && x.start < p < x.end
    ensures SameProps(a + [x] + c, a + [x.(end := p), x.(start := p)] + c)
  {
    var s, s' := a + [x] + c, a + [x.(end := p), x.(start := p)] + c;
    var l, r := x.(end := p), x.(start := p);
    Apart(a, x, c, len);
    assert [] + [r] + c == [r] + c && s' == a + [l] + ([r] + c);
    forall pos ensures Props(s', pos) == Props(s, pos) {
      PropsMiddle(a, x, c, pos);
      PropsMiddle(a, l, [r] + c, pos);
      PropsMiddle([], r, c, pos);
    }
  }

  lemma SplitTable(a: seq<Ival>, x: Ival, c: seq<Ival>, p: int, len: int)
    requires Table(a + [x] + c, len) && x.start < p < x.end
    ensures Table(a + [x.(end := p), x.(start := p)] + c, len)
  {
    Apart(a, x, c, len);
  }

  lemma SplitCut(a: seq<Ival>, x: Ival, c: seq<Ival>, p: int, q: int, len: int)
    requires Table(a + [x] + c, len) && x.start < p < x.end && (q == p || Cut(a + [x] + c, q))
    ensures Cut(a + [x.(end := p), x.(start := p)] + c, q)
  {
    var s := a + [x] + c;
    Apart(a, x, c, len);
    assert s[|a|] == x;
    forall i | 0 <= i < |a| ensures a[i].end <= q || q <= a[i].start { assert s[i] == a[i]; }
    forall i | 0 <= i < |c| ensures c[i].end <= q || q <= c[i].start { assert s[|a| + 1 + i] == c[i]; }
  }

  /** The neighbours of an interval of a table. */
  lemma Apart(a: seq<Ival>, x: Ival, c: seq<Ival>, len: int)
    requires Table(a + [x] + c, len)
    ensures forall i :: 0 <= i < |a| ==> 0 <= a[i].start < a[i].end <= x.start
    ensures forall i :: 0 <= i < |c| ==> x.end <= c[i].start < c[i].end <= len
    ensures Table(a, x.start) && Table(c, len) && 0 <= x.start < x.end <= len
  {
    var s := a + [x] + c;
    assert s[|a|] == x;
    forall i | 0 <= i < |a| ensures 0 <= a[i].start < a[i].end <= x.start { assert s[i] == a[i]; }
    forall i | 0 <= i < |c| ensures x.end <= c[i].start < c[i].end <= len { assert s[|a| + 1 + i] == c[i]; }
    forall i, j | 0 <= i < j < |c| ensures c[i].end <= c[j].start { assert s[|a| + 1 + i] == c[i] && s[|a| + 1 + j] == c[j]; }
    forall i, j | 0 <= i < j < |a| ensures a[i].end <= a[j].start { assert s[i] == a[i] && s[j] == a[j]; }
  }

  // ----- a table under edits of the text -----

  /** What rd_buf_insert of n characters at p does to one boundary pair. */
  function Shifted(x: Ival, p: int, n: int): Ival {
    x.(start := if x.start >= p then x.start + n else x.start, end := if x.end > p then x.end + n else x.end)
  }

  function AfterInsert(s: seq<Ival>, p: int, n: int): (r: seq<Ival>)
    ensures |r| == |s| && forall i :: 0 <= i < |s| ==> r[i] == Shifted(s[i], p, n)
  {
    if s == [] then [] else [Shifted(s[0], p, n)] + AfterInsert(s[1..], p, n)
  }

  /** The plist of the interval p lies strictly inside of. */
  function Within(s: seq<Ival>, p: int): Lobj {
    if s == [] then Nil else if s[0].start < p < s[0].end then s[0].plist else Within(s[1..], p)
  }

  /** Text put strictly inside an interval takes its properties, text at its edges does not. */
  lemma {:induction false} WithinIs(s: seq<Ival>, len: int, p: int)
    requires Table(s, len)
    ensures forall i :: 0 <= i < |s| && s[i].start < p < s[i].end ==> Within(s, p) == s[i].plist
    ensures (forall i :: 0 <= i < |s| ==> p <= s[i].start || s[i].end <= p) ==> Within(s, p) == Nil
  {
    if s != [] {
      WithinIs(s[1..], len, p);
      forall i | 0 <= i < |s| && s[i].start < p < s[i].end ensures Within(s, p) == s[i].plist {
        if i > 0 { assert s[1..][i - 1] == s[i]; }
      }
      if forall i :: 0 <= i < |s| ==> p <= s[i].start || s[i].end <= p {
        assert p <= s[0].start || s[0].end <= p;
        forall i | 0 <= i < |s[1..]| ensures p <= s[1..][i].start || s[1..][i].end <= p { assert s[1..][i] == s[i + 1]; }
      }
    }
  }

  lemma InsertTable(s: seq<Ival>, p: int, n: nat, len: int)
    requires Table(s, len) && 0 <= p <= len
    ensures Table(AfterInsert(s, p, n), len + n)
  {
  }

  /** Characters before p and after the inserted ones keep their properties; the inserted ones have
      those of an interval they fall strictly inside of. */
  lemma {:induction false} InsertProps(s: seq<Ival>, p: int, n: nat, pos: int)
    ensures pos < p ==> Props(AfterInsert(s, p, n), pos) == Props(s, pos)
    ensures pos >= p + n ==> Props(AfterInsert(s, p, n), pos) == Props(s, pos - n)
    ensures p <= pos < p + n ==> Props(AfterInsert(s, p, n), pos) == Within(s, p)
  {
    if s != [] { InsertProps(s[1..], p, n, pos); }
  }

  /** What rd_buf_delete of [d0, d1) does to one boundary. */
  function Pulled(x: int, d0: int, d1: int): int {
    if x >= d1 then x - (d1 - d0) else if x > d0 then d0 else x
  }

  function PulledIval(x: Ival, d0: int, d1: int): Ival {
    x.(start := Pulled(x.start, d0, d1), end := Pulled(x.end, d0, d1))
  }

  function AfterDelete(s: seq<Ival>, d0: int, d1: int): (r: seq<Ival>)
    ensures |r| <= |s|
  {
    if s == [] then [] else
      var x := PulledIval(s[0], d0, d1);
      (if x.start >= x.end then [] else [x]) + AfterDelete(s[1..], d0, d1)
  }

  ghost predicate From(s: seq<Ival>, lo: int) {
    forall i :: 0 <= i < |s| ==> lo <= s[i].start
  }

  lemma TableFrom(s: seq<Ival>, len: int)
    requires Table(s, len)
    ensures From(s, 0)
  {
  }

  lemma TableTail(s: seq<Ival>, len: int)
    requires Table(s, len) && s != []
    ensures Table(s[1..], len) && From(s[1..], s[0].end) && 0 <= s[0].start < s[0].end <= len
  {
  }

  lemma TableCons(x: Ival, r: seq<Ival>, len: int)
    requires Table(r, len) && From(r, x.end) && 0 <= x.start < x.end <= len
    ensures Table([x] + r, len) && From([x] + r, x.start)
  {
    var s := [x] + r;
    forall i, j | 0 <= i < j < |s| ensures s[i].end <= s[j].start {
      assert s[j] == r[j - 1] && (i > 0 ==> s[i] == r[i - 1]);
    }
    forall i | 0 <= i < |s| ensures 0 <= s[i].start < s[i].end <= len && x.start <= s[i].start {
      assert i > 0 ==> s[i] == r[i - 1];
    }
  }

  lemma FromLess(s: seq<Ival>, lo: int, lo': int)
    requires From(s, lo) && lo' <= lo
    ensures From(s, lo')
  {
  }

  lemma {:induction false} DeleteTable(s: seq<Ival>, d0: int, d1: int, len: int, lo: int)
    requires Table(s, len) && 0 <= d0 <= d1 <= len && From(s, lo)
    ensures Table(AfterDelete(s, d0, d1), len - (d1 - d0)) && From(AfterDelete(s, d0, d1), Pulled(lo, d0, d1))
  {
    hide Table, From;
    if s == [] {
      assert Table(s, len - (d1 - d0)) && From(s, Pulled(lo, d0, d1)) by { EmptyTable(len - (d1 - d0), Pulled(lo, d0, d1)); }
    } else {
      TableTail(s, len);
      HeadFrom(s, lo);
      DeleteTable(s[1..], d0, d1, len, s[0].end);
      var x, rest := PulledIval(s[0], d0, d1), AfterDelete(s[1..], d0, d1);
      if x.start >= x.end {
        assert [] + rest == rest;
        FromLess(rest, x.end, Pulled(lo, d0, d1));
      } else {
        TableCons(x, rest, len - (d1 - d0));
        FromLess([x] + rest, x.start, Pulled(lo, d0, d1));
      }
    }
  }

  lemma EmptyTable(len: int, lo: int)
    ensures Table([], len) && From([], lo)
  {
  }

  lemma HeadFrom(s: seq<Ival>, lo: int)
    requires From(s, lo) && s != []
    ensures lo <= s[0].start
  {
  }

  /** Characters outside [d0, d1) keep their properties. */
  lemma {:induction false} DeleteProps(s: seq<Ival>, d0: int, d1: int, pos: int)
    requires d0 <= d1
    ensures Props(AfterDelete(s, d0, d1), pos) == Props(s, if pos < d0 then pos else pos + (d1 - d0))
  {
    if s != [] {
      DeleteProps(s[1..], d0, d1, pos);
      var x := PulledIval(s[0], d0, d1);
      var rest := AfterDelete(s[1..], d0, d1);
      assert ([x] + rest)[1..] == rest && [] + rest == rest;
      assert AfterDelete(s, d0, d1) == if x.start >= x.end then rest else [x] + rest;
    }
  }

  lemma DeleteStep(s: seq<Ival>, d0: int, d1: int, i: nat)
    requires i <= |s|
    ensures i == |s| ==> AfterDelete(s[i..], d0, d1) == []
    ensures i < |s| ==>
      var x := PulledIval(s[i], d0, d1);
      AfterDelete(s[i..], d0, d1) == (if x.start >= x.end then [] else [x]) + AfterDelete(s[i + 1..], d0, d1)
  {
    if i < |s| { assert s[i..][1..] == s[i + 1..]; }
  }

  /** A negative count moves no text but still moves intervals: the table comes out as it went in
      exactly when every interval ends before point. */
  lemma NegativeDelete(s: seq<Ival>, point: int, n: int, len: int)
    requires Table(s, len) && n < 0 && 0 <= point <= len
    ensures AfterDelete(s, point - n, point) == s <==> forall i :: 0 <= i < |s| ==> s[i].end < point
  {
    NegativeIs(s, point, n);
    if AfterDelete(s, point - n, point) == s {
      forall i | 0 <= i < |s| ensures s[i].end < point {
        assert PulledIval(s[i], point - n, point) == s[i];
      }
    }
  }

  /** Three characters, all under one interval, point behind the second: deleting -1 characters leaves
      the text and pushes the interval's end past it. */
  lemma NegativePushes()
    ensures Table([Ival(0, 3, Nil)], 3) && AfterDelete([Ival(0, 3, Nil)], 2 - (-1), 2) == [Ival(0, 4, Nil)]
    ensures !Table([Ival(0, 4, Nil)], 3)
  {
    assert [Ival(0, 3, Nil)][1..] == [];
    assert AfterDelete([], 3, 2) == [];
    assert [Ival(0, 4, Nil)][0].end == 4;
  }

  lemma {:induction false} NegativeIs(s: seq<Ival>, point: int, n: int)
    requires n < 0 && forall i :: 0 <= i < |s| ==> s[i].start < s[i].end
    ensures var r := AfterDelete(s, point - n, point);
      |r| == |s| && forall i :: 0 <= i < |s| ==> r[i] == PulledIval(s[i], point - n, point)
  {
    if s != [] { NegativeIs(s[1..], point, n); }
  }
}
