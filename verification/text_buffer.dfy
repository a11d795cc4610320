/** A gap buffer with text properties: edits carry the properties of the characters they move. */
module TextBuffer {
  import opened TextProps

  const MAX_IVALS: nat := 256

  /** A character as a reader of the buffer sees it. */
  datatype Cell = Cell(c: char, props: Lobj)

  /** The text with its properties. */
  function Doc(text: seq<char>, s: seq<Ival>): (r: seq<Cell>)
    ensures |r| == |text| && forall i :: 0 <= i < |r| ==> r[i] == Cell(text[i], Props(s, i))
  {
    seq(|text|, i requires 0 <= i < |text| => Cell(text[i], Props(s, i)))
  }

  /** Characters inserted at p, as they will be seen. */
  function Fresh(ins: seq<char>, s: seq<Ival>, p: int): (r: seq<Cell>)
    ensures |r| == |ins| && forall i :: 0 <= i < |r| ==> r[i] == Cell(ins[i], Within(s, p))
  {
    seq(|ins|, i requires 0 <= i < |ins| => Cell(ins[i], Within(s, p)))
  }

  lemma InsertDocAt(t: seq<char>, s: seq<Ival>, p: nat, ins: seq<char>, i: nat)
    requires p <= |t| && i < |t| + |ins|
    ensures Cell((t[..p] + ins + t[p..])[i], Props(AfterInsert(s, p, |ins|), i)) ==
      if i < p then Cell(t[i], Props(s, i))
      else if i < p + |ins| then Cell(ins[i - p], Within(s, p))
      else Cell(t[i - |ins|], Props(s, i - |ins|))
  {
    InsertProps(s, p, |ins|, i);
  }

  lemma InsertDoc(t: seq<char>, s: seq<Ival>, p: nat, ins: seq<char>)
    requires p <= |t|
    ensures Doc(t[..p] + ins + t[p..], AfterInsert(s, p, |ins|)) == Doc(t, s)[..p] + Fresh(ins, s, p) + Doc(t, s)[p..]
  {
    hide AfterInsert, Props, Within;
    var t', k := t[..p] + ins + t[p..], |ins|;
    var d, f, d' := Doc(t, s), Fresh(ins, s, p), Doc(t', AfterInsert(s, p, k));
    assert |t'| == |t| + k;
    forall i | 0 <= i < |d'|
      ensures d'[i] == SplicedAt(d, f, p, i)
    {
      InsertDocAt(t, s, p, ins, i);
    }
    Spliced(d, f, d', p);
  }

  /** Element i of d with f spliced in at p. */
  function SplicedAt(d: seq<Cell>, f: seq<Cell>, p: nat, i: nat): Cell
    requires p <= |d| && i < |d| + |f|
  {
    if i < p then d[i] else if i < p + |f| then f[i - p] else d[i - |f|]
  }

  lemma Spliced(d: seq<Cell>, f: seq<Cell>, d': seq<Cell>, p: nat)
    requires p <= |d| && |d'| == |d| + |f|
    requires forall i :: 0 <= i < |d'| ==> d'[i] == SplicedAt(d, f, p, i)
    ensures d' == d[..p] + f + d[p..]
  {
    var r := d[..p] + f + d[p..];
    forall i | 0 <= i < |d'| ensures d'[i] == r[i] { assert d'[i] == SplicedAt(d, f, p, i); }
  }

  lemma DeleteDoc(t: seq<char>, s: seq<Ival>, d0: nat, d1: nat)
    requires d0 <= d1 <= |t|
    ensures Doc(t[..d0] + t[d1..], AfterDelete(s, d0, d1)) == Doc(t, s)[..d0] + Doc(t, s)[d1..]
  {
    var t' := t[..d0] + t[d1..];
    forall i | 0 <= i < |t'|
      ensures Doc(t', AfterDelete(s, d0, d1))[i] == (Doc(t, s)[..d0] + Doc(t, s)[d1..])[i]
    {
      DeleteProps(s, d0, d1, i);
      hide AfterDelete, Props;
      if i < d0 { assert t'[i] == t[i]; } else { assert t'[i] == t[i + (d1 - d0)]; }
    }
  }

  class Buffer {
    const text: array<char>
    var gapStart: nat
    var gapEnd: nat
    var point: nat
    const table: array<Ival>
    var n: nat

    constructor (cap: nat)
      ensures Valid() && Text() == [] && Ivals() == [] && point == 0 && Room() == cap
      ensures table.Length == 256 && text.Length == cap
      ensures fresh(text) && fresh(table)
    {
      text := new char[cap];
      table := new Ival[MAX_IVALS](_ => Ival(0, 0, Nil));
      gapStart, gapEnd, point, n := 0, cap, 0, 0;
    }

    ghost predicate Shape()
      reads this
    {
      gapStart <= gapEnd <= text.Length && table.Length == MAX_IVALS && n <= MAX_IVALS && point <= Length()
    }

    /** rd_buf_len. */
    function Length(): int
      reads this
    {
      text.Length - (gapEnd - gapStart)
    }

    function Room(): int
      reads this
    {
      gapEnd - gapStart
    }

    ghost function Text(): (r: seq<char>)
      requires Shape()
      reads this, text
      ensures |r| == Length()
    {
      text[..gapStart] + text[gapEnd..]
    }

    ghost function Ivals(): (r: seq<Ival>)
      requires Shape()
      reads this, table
      ensures |r| == n
    {
      table[..n]
    }

    ghost predicate Valid()
      reads this, text, table
    {
      Shape() && Table(Ivals(), Length())
    }

    ghost function View(): seq<Cell>
      requires Shape()
      reads this, text, table
    {
      Doc(Text(), Ivals())
    }

    /** rd_buf_char_at: -1 outside the text. */
    method CharAt(pos: int) returns (c: int)
      requires Shape()
      ensures c == if 0 <= pos < Length() then Text()[pos] as int else -1
    {
      if pos < 0 || pos >= Length() { return -1; }
      return (if pos < gapStart then text[pos] else text[pos + (gapEnd - gapStart)]) as int;
    }

    /** gap_move: nothing logical changes. */
    method GapMove(pos: nat)
      requires Shape() && pos <= Length()
      modifies this`gapStart, this`gapEnd, text
      ensures Shape() && Text() == old(Text()) && gapStart == pos && Room() == old(Room())
    {
      ghost var t := Text();
      while gapStart > pos
        invariant Shape() && Text() == t && Room() == old(Room())
      {
        ghost var before := text[..];
        gapStart := gapStart - 1;
        gapEnd := gapEnd - 1;
        text[gapEnd] := text[gapStart];
        Hop(before, text[..], gapStart, gapEnd);
      }
      while gapStart < pos
        invariant Shape() && gapStart <= pos && Text() == t && Room() == old(Room())
      {
        ghost var before := text[..];
        text[gapStart] := text[gapEnd];
        gapStart := gapStart + 1;
        gapEnd := gapEnd + 1;
        Hop(text[..], before, gapStart - 1, gapEnd - 1);
      }
    }

    /** The text half of rd_buf_insert: the characters that fit go in at point. */
    method PutText(s: seq<char>) returns (k: nat)
      requires Shape()
      modifies this`gapStart, this`gapEnd, this`point, text
      ensures Shape() && k == (if |s| < old(Room()) then |s| else old(Room())) && Room() == old(Room()) - k
      ensures Text() == old(Text())[..old(point)] + s[..k] + old(Text())[old(point)..]
      ensures point == old(point) + k
    {
      var p := point;
      ghost var t := Text();
      GapMove(point);
      k := 0;
      while k < |s| && gapStart != gapEnd
        invariant Shape() && k <= |s| && gapStart == point == p + k && Room() == old(Room()) - k
        invariant text[..p] == t[..p] && text[p..gapStart] == s[..k] && text[gapEnd..] == t[p..]
        decreases |s| - k
      {
        text[gapStart] := s[k];
        gapStart := gapStart + 1;
        point := point + 1;
        k := k + 1;
      }
      assert text[..gapStart] == text[..p] + text[p..gapStart];
    }

    /** rd_buf_insert. Text inserted at either edge of an interval stays outside of it. */
    method Insert(s: seq<char>)
      requires Valid()
      modifies this`gapStart, this`gapEnd, this`point, text, table
      ensures Valid() && point == old(point) + (if |s| < old(Room()) then |s| else old(Room()))
      ensures var k := if |s| < old(Room()) then |s| else old(Room());
        View() == old(View())[..old(point)] + Fresh(s[..k], old(Ivals()), old(point)) + old(View())[old(point)..]
    {
      var p := point;
      ghost var t, iv := Text(), Ivals();
      var k := PutText(s);
      MapIvals(p, k);
      InsertDoc(t, iv, p, s[..k]);
      InsertTable(iv, p, k, |t|);
    }

    /** The interval half of rd_buf_insert. */
    method MapIvals(p: int, k: nat)
      requires Shape()
      modifies table
      ensures Ivals() == AfterInsert(old(Ivals()), p, k)
    {
      ghost var s := Ivals();
      for i := 0 to n
        invariant forall j :: 0 <= j < n ==> table[j] == if j < i then Shifted(s[j], p, k) else s[j]
      {
        if table[i].start >= p { table[i] := table[i].(start := table[i].start + k); }
        if table[i].end > p { table[i] := table[i].(end := table[i].end + k); }
      }
    }

    /** rd_buf_delete: n0 characters before point. */
    method Delete(n0: int)
      requires Valid()
      modifies this`gapStart, this`gapEnd, this`point, this`n, text, table
      ensures Shape()
      ensures var d0 := if old(point) - n0 < 0 then 0 else old(point) - n0;
        Ivals() == AfterDelete(old(Ivals()), d0, old(point))
      ensures n0 < 0 ==> Text() == old(Text()) && point == old(point)
      ensures n0 >= 0 ==> Valid() && point == (if n0 < old(point) then old(point) - n0 else 0)
      ensures n0 >= 0 ==> View() == old(View())[..point] + old(View())[old(point)..]
    {
      hide Table, Doc, AfterDelete, Props;
      var d1 := point;
      var d0 := d1 - n0;
      if d0 < 0 { d0 := 0; }
      ghost var t, iv := Text(), Ivals();
      CutText(n0);
      CompactIvals(d0, d1);
      if n0 >= 0 {
        DeleteDoc(t, iv, d0, d1);
        TableFrom(iv, |t|);
        DeleteTable(iv, d0, d1, |t|, 0);
      }
    }

    /** The text half of rd_buf_delete: the gap eats left. */
    method CutText(n0: int)
      requires Shape()
      modifies this`gapStart, this`gapEnd, this`point, text
      ensures Shape() && point == (if n0 <= 0 then old(point) else if n0 < old(point) then old(point) - n0 else 0)
      ensures Text() == old(Text())[..point] + old(Text())[old(point)..]
    {
      ghost var t, p := Text(), point;
      GapMove(point);
      var k := n0;
      while k > 0 && gapStart > 0
        invariant Shape() && gapStart == point <= p && text[..gapStart] == t[..gapStart] && text[gapEnd..] == t[p..]
        invariant point == if n0 <= 0 then p else p - (n0 - k)
        invariant k <= n0 && (n0 >= 0 ==> k >= 0)
      {
        k := k - 1;
        gapStart := gapStart - 1;
        point := point - 1;
      }
    }

    /** The interval half of rd_buf_delete: boundaries are pulled in, and what became empty is dropped. */
    method CompactIvals(d0: int, d1: int)
      requires Shape()
      modifies this`n, table
      ensures Shape() && Ivals() == AfterDelete(old(Ivals()), d0, d1)
    {
      hide AfterDelete;
      ghost var s := Ivals();
      ghost var kept: seq<Ival> := [];
      var w := 0;
      assert s[0..] == s && kept + AfterDelete(s, d0, d1) == AfterDelete(s, d0, d1);
      for i := 0 to n
        invariant Shape() && n == old(n) == |s| && w == |kept| <= i
        invariant forall j :: i <= j < n ==> table[j] == s[j]
        invariant forall j :: 0 <= j < w ==> table[j] == kept[j]
        invariant kept + AfterDelete(s[i..], d0, d1) == AfterDelete(s, d0, d1)
      {
        DeleteStep(s, d0, d1, i);
        var x := table[i];
        var b := if x.start >= d1 then x.start - (d1 - d0) else if x.start > d0 then d0 else x.start;
        var e := if x.end >= d1 then x.end - (d1 - d0) else if x.end > d0 then d0 else x.end;
        if b >= e { assert [] + AfterDelete(s[i + 1..], d0, d1) == AfterDelete(s[i + 1..], d0, d1); continue; }
        var y := x.(start := b, end := e);
        table[w] := y;
        assert kept + ([y] + AfterDelete(s[i + 1..], d0, d1)) == (kept + [y]) + AfterDelete(s[i + 1..], d0, d1);
        kept := kept + [y];
        w := w + 1;
      }
      DeleteStep(s, d0, d1, n);
      n := w;
      assert Ivals() == kept == kept + [];
    }

    /** rd_buf_set_point. */
    method SetPoint(pos: int)
      requires Valid()
      modifies this`point
      ensures Valid() && View() == old(View())
      ensures point == if pos < 0 then 0 else if pos > Length() then Length() else pos
    {
      point := if pos < 0 then 0 else if pos > Length() then Length() else pos;
    }
  }

  /** One character hops over the gap: the text reads the same. */
  lemma Hop(a: seq<char>, b: seq<char>, g: nat, h: nat)
    requires g <= h < |a| == |b| && b[h] == a[g]
    requires forall j :: 0 <= j < |a| && j != g && j != h ==> b[j] == a[j]
    ensures a[..g + 1] + a[h + 1..] == b[..g] + b[h..]
  {
    assert a[..g] == b[..g] && a[h + 1..] == b[h + 1..];
    assert a[..g + 1] == a[..g] + [a[g]];
    assert b[h..] == [b[h]] + b[h + 1..];
  }
}
