/** The reader and the printer as they run: a cursor with one pushed-back character, and a buffer that
    silently fills up. */
module LispReader {
  import opened LispText

  const TWO63: int := 0x8000_0000_0000_0000

  /** A signed 64-bit sum that wraps. */
  function Wrap(x: int): int {
    (x + TWO63) % TWO64 - TWO63
  }

  /** The bits a number word keeps do not see a wrap of the 64-bit word. */
  lemma {:induction false} FixMod(x: int, k: int)
    ensures Fix(x + k * TWO64) == Fix(x)
    decreases if k < 0 then -k else k
  {
    if k > 0 { FixMod(x, k - 1); } else if k < 0 { FixMod(x, k + 1); }
  }

  lemma WrapIs(x: int) returns (k: int)
    ensures Wrap(x) == x + k * TWO64
  {
    k := -((x + TWO63) / TWO64);
  }

  lemma {:induction false} DigitsPrefix(s: string, i: nat)
    requires i < |s| && AllDigits(s[..i]) && IsDigit(s[i])
    ensures AllDigits(s[..i + 1]) && Value(s[..i + 1]) == Value(s[..i]) * 10 + DigitVal(s[i])
  {
    assert s[..i + 1][..i] == s[..i];
  }

  /** parse_fixnum: the value wraps in 64 bits, but the 61 bits a number word keeps are exact. */
  method ParseFixnum(buf: string) returns (r: Option<Fixnum>)
    ensures r == if IsNumeral(buf) then Some(Fix(NumeralValue(buf))) else None
  {
    if |buf| == 0 { return None; }
    var neg := false;
    var s := buf;
    if buf[0] == '+' || buf[0] == '-' {
      neg := buf[0] == '-';
      s := buf[1..];
      if |buf| == 1 { return None; }
    }
    var v := 0;
    ghost var k := 0;
    for i := 0 to |s|
      invariant AllDigits(s[..i]) && v == Value(s[..i]) + k * TWO64
    {
      if s[i] < '0' || s[i] > '9' { return None; }
      DigitsPrefix(s, i);
      ghost var x := v * 10 + DigitVal(s[i]);
      ghost var j := WrapIs(x);
      v := Wrap(v * 10 + DigitVal(s[i]));
      assert v == Value(s[..i + 1]) + (10 * k + j) * TWO64;
      k := 10 * k + j;
    }
    assert s[..|s|] == s;
    FixMod(Value(s), k);
    FixMod(0 - Value(s), -k);
    return Some(Fix(if neg then -v else v));
  }

  /** What the token buffer holds after n characters. */
  function Kept(t: string, n: nat): string
    requires n <= |t|
  {
    if n > ATOM then t[..ATOM] else t[..n]
  }

  lemma KeptStart(t: string)
    ensures Kept(t, 0) == [] && t[|t| - |t|..] == t
  {
  }

  lemma KeptToken(t: string, n: nat)
    requires n == AtomLen(t)
    ensures Kept(t, n) == Token(t)
  {
  }

  lemma IsAtom(tok: string)
    ensures Atom(tok) == if IsNumeral(tok) then Num(Fix(NumeralValue(tok))) else Sym(CStr(tok))
  {
  }

  /** One character further into t, a being what is left of it. */
  lemma AtomStep(t: string, a: string)
    requires |a| <= |t| && a == t[|t| - |a|..]
    ensures var n := |t| - |a|;
      && |Kept(t, n)| == (if n > ATOM then ATOM else n)
      && (a != [] ==> a[1..] == t[n + 1..] && a == [a[0]] + a[1..])
      && (a != [] ==> Kept(t, n + 1) == if n < ATOM then Kept(t, n) + [a[0]] else Kept(t, n))
    ensures AtomLen(a) == if a == [] || Delim(a[0]) then 0 else 1 + AtomLen(a[1..])
  {
  }

  // ----- reader -----

  class Reader {
    const s: string
    var pos: nat
    var pb: string

    /** At most one character is ever pushed back. */
    ghost predicate Valid()
      reads this
    {
      pos <= |s| && |pb| <= 1
    }

    /** What is still to be read. */
    ghost function Rest(): string
      requires Valid()
      reads this
    {
      pb + s[pos..]
    }

    /** reader_from_string. */
    constructor (s: string)
      ensures Valid() && Rest() == s
    {
      this.s, pos, pb := s, 0, [];
    }

    method GetC() returns (c: Option<char>)
      requires Valid()
      modifies this
      ensures Valid() && pb == []
      ensures c == (if old(Rest()) == [] then None else Some(old(Rest())[0]))
      ensures Rest() == if old(Rest()) == [] then [] else old(Rest())[1..]
    {
      if |pb| > 0 {
        c := Some(pb[|pb| - 1]);
        pb := pb[..|pb| - 1];
      } else if pos < |s| {
        c := Some(s[pos]);
        pos := pos + 1;
      } else {
        c := None;
      }
    }

    method UngetC(c: Option<char>)
      requires Valid() && pb == []
      modifies this
      ensures Valid() && Rest() == (if c.Some? then [c.value] else []) + old(Rest())
    {
      if c.Some? && |pb| < 8 { pb := pb + [c.value]; }
    }

    method Peek() returns (c: Option<char>)
      requires Valid()
      modifies this
      ensures Valid() && Rest() == old(Rest())
      ensures c == if Rest() == [] then None else Some(Rest()[0])
    {
      c := GetC();
      UngetC(c);
    }

    method SkipWhitespace()
      requires Valid()
      modifies this
      ensures Valid() && Rest() == Skip(old(Rest()))
    {
      hide Rest, IsSpace;
      while true
        invariant Valid() && Skip(Rest()) == Skip(old(Rest()))
        decreases |Rest()|
      {
        ghost var t := Rest();
        var c := GetC();
        if c == None { return; }
        if c.value == ';' {
          ghost var u := Rest();
          c := GetC();
          while c.Some? && c.value != '\n'
            invariant Valid() && |Rest()| <= |u|
            invariant c.None? ==> AfterLine(u) == [] && Rest() == []
            invariant c.Some? ==> AfterLine(u) == AfterLine([c.value] + Rest())
            decreases c.Some?, |Rest()|
          {
            ghost var w := Rest();
            c := GetC();
            assert c.Some? ==> [c.value] + Rest() == w;
          }
          continue;
        }
        if !IsSpace(c.value) { UngetC(c); return; }
      }
    }

    method ReadString() returns (v: Val)
      requires Valid()
      modifies this
      ensures Valid() && v == Str(CStr(Quoted(old(Rest()), []).text)) && Rest() == Quoted(old(Rest()), []).rest
    {
      hide Rest, CStr, Unescape;
      var buf: string := [];
      while true
        invariant Valid() && |buf| <= STRLEN && Quoted(Rest(), buf) == Quoted(old(Rest()), [])
        decreases |Rest()|
      {
        var c := GetC();
        if c == None || c.value == '"' || |buf| >= STRLEN { break; }
        if c.value == '\\' {
          c := GetC();
          buf := buf + [if c.None? then '\U{FF}' else Unescape(c.value)];
        } else {
          buf := buf + [c.value];
        }
      }
      return Str(CStr(buf));
    }

    method ReadAtom() returns (v: Val)
      requires Valid()
      modifies this
      ensures Valid() && v == Atom(Token(old(Rest()))) && Rest() == old(Rest())[AtomLen(old(Rest()))..]
    {
      hide AtomLen, Delim, Kept, Atom, CStr, Rest, Token, IsNumeral;
      ghost var t, a := Rest(), Rest();
      var buf: string := [];
      KeptStart(t);
      var c := GetC();
      while c.Some? && !Delim(c.value)
        invariant Valid() && pb == [] && |a| <= |t| && a == t[|t| - |a|..] && AtomLen(t) == |t| - |a| + AtomLen(a)
        invariant c == (if a == [] then None else Some(a[0])) && Rest() == if a == [] then [] else a[1..]
        invariant buf == Kept(t, |t| - |a|)
        decreases |a|
      {
        AtomStep(t, a);
        if |buf| < ATOM { buf := buf + [c.value]; }
        c := GetC();
        a := a[1..];
      }
      AtomStep(t, a);
      UngetC(c);
      assert Rest() == a;
      KeptToken(t, |t| - |a|);
      var num := ParseFixnum(buf);
      IsAtom(buf);
      if num.Some? { return Num(num.value); }
      return Sym(CStr(buf));
    }

    method ReadList() returns (r: Option<Val>)
      requires Valid()
      modifies this
      ensures Valid() && Agrees(r, ParseList(old(Rest())), Rest())
      decreases |Rest()|, 1
    {
      hide Rest, Skip;
      SkipHead(Rest());
      SkipWhitespace();
      var c := Peek();
      if c == Some(')') { c := GetC(); return Some(Nil); }
      if c == None { return None; }
      var a := Read();
      if a == None { return None; }
      var d := ReadList();
      if d == None { return None; }
      return Some(Pair(a.value, d.value));
    }

    method Read() returns (r: Option<Val>)
      requires Valid()
      modifies this
      ensures Valid() && Agrees(r, Parse(old(Rest())), Rest())
      decreases |Rest()|, 0
    {
      hide Rest, Skip;
      SkipWhitespace();
      ghost var u := Rest();
      var c := GetC();
      if c == None { return Some(Nil); }
      match c.value
      case '(' =>
        r := ReadList();
      case '\'' =>
        var v := Read();
        return if v == None then None else Some(List2(Sym("quote"), v.value));
      case '#' =>
        c := GetC();
        if c == Some('\'') {
          var v := Read();
          return if v == None then None else Some(List2(Sym("function"), v.value));
        }
        return None;
      case '"' =>
        var v := ReadString();
        return Some(v);
      case ')' =>
        return None;
      case _ =>
        UngetC(c);
        assert Rest() == u;
        var v := ReadAtom();
        return Some(v);
    }
  }

  /** A call's result and what it leaves unread, against the specification. */
  ghost predicate Agrees(r: Option<Val>, p: Parsed, rest: string) {
    match p
    case Failed => r == None
    case Parsed(v, rest') => r == Some(v) && rest == rest'
  }

  // ----- writer -----

  /** A buffer of cap bytes keeps cap - 1 characters of what is written to it. */
  function Clip(s: string, cap: nat): string {
    if |s| < cap || s == [] then s else if cap == 0 then [] else s[..cap - 1]
  }

  lemma ClipClip(a: string, b: string, cap: nat)
    ensures Clip(Clip(a, cap) + b, cap) == Clip(a + b, cap)
  {
  }

  lemma ClipAdd(b: string, done: string, x: string, cap: nat)
    ensures Clip(Clip(b + done, cap) + x, cap) == Clip(b + (done + x), cap)
    ensures Clip(Clip(b + done, cap), cap) == Clip(b + done, cap)
  {
    ClipClip(b + done, x, cap);
    assert b + done + x == b + (done + x);
  }

  class Writer {
    const cap: nat
    var buf: string

    ghost predicate Valid()
      reads this
    {
      Clip(buf, cap) == buf
    }

    constructor (cap: nat)
      ensures Valid() && buf == [] && this.cap == cap
    {
      this.cap, buf := cap, [];
    }

    method PutC(c: char)
      requires Valid()
      modifies this
      ensures Valid() && buf == Clip(old(buf) + [c], cap)
    {
      if |buf| < cap - 1 { buf := buf + [c]; }
    }

    /** w_str: up to the terminating NUL. */
    method Str(s: string)
      requires Valid()
      modifies this
      ensures Valid() && buf == Clip(old(buf) + CStr(s), cap)
    {
      var i := 0;
      while i < |s| && s[i] != '\0'
        invariant Valid() && i <= |s| && CStr(s) == s[..i] + CStr(s[i..])
        invariant buf == Clip(old(buf) + s[..i], cap)
      {
        ClipClip(old(buf) + s[..i], [s[i]], cap);
        assert old(buf) + s[..i + 1] == old(buf) + s[..i] + [s[i]];
        assert s[i..][1..] == s[i + 1..];
        assert s[..i] + ([s[i]] + CStr(s[i + 1..])) == s[..i + 1] + CStr(s[i + 1..]);
        PutC(s[i]);
        i := i + 1;
      }
      assert CStr(s) == s[..i];
    }

    /** w_long: digits from the right into a temporary, then out from the left. */
    method Long(n: Fixnum)
      requires Valid()
      modifies this
      ensures Valid() && buf == Clip(old(buf) + ShowNum(n), cap)
    {
      hide Digits, Clip, Backward;
      var tmp: string := [];
      var u: nat := if n < 0 then (-(n as int + 1)) + 1 else n;
      LeadDigits(u);
      if u == 0 { tmp := tmp + ['0']; }
      BackwardLength(tmp);
      while u > 0
        invariant Valid() && buf == old(buf)
        invariant Lead(u) + Backward(tmp) == Digits(Mag(n)) && |tmp| <= |Digits(Mag(n))|
      {
        LeadStep(u);
        BackwardStep(tmp, DigitChar(u % 10));
        tmp := tmp + [DigitChar(u % 10)];
        u := u / 10;
        BackwardLength(tmp);
      }
      ShowLength(n);
      assert |tmp| <= 24;
      if n < 0 { PutC('-'); }
      Flush(tmp);
      assert Lead(0) + Backward(tmp) == Backward(tmp);
      ClipAdd(old(buf), "-", Backward(tmp), cap);
    }

    method Flush(tmp: string)
      requires Valid()
      modifies this
      ensures Valid() && buf == Clip(old(buf) + Backward(tmp), cap)
    {
      hide Clip;
      var i := |tmp|;
      ghost var done: string := [];
      assert tmp[..i] == tmp && done + Backward(tmp) == Backward(tmp) && old(buf) + done == old(buf);
      while i > 0
        invariant Valid() && i <= |tmp| && done + Backward(tmp[..i]) == Backward(tmp)
        invariant buf == Clip(old(buf) + done, cap)
      {
        i := i - 1;
        assert tmp[..i + 1][..i] == tmp[..i];
        PutC(tmp[i]);
        ClipAdd(old(buf), done, [tmp[i]], cap);
        done := done + [tmp[i]];
      }
      assert tmp[..i] == [] && Backward([]) == [] && done + [] == done;
    }

    /** lm_print: iterates over a list, recurses into its elements. */
    method Print(v: Val)
      requires Valid()
      modifies this
      ensures Valid() && buf == Clip(old(buf) + Show(v), cap)
      decreases v, 1
    {
      hide Clip, ShowNum, CStr;
      match v
      case Num(n) => Long(n);
      case Sym(name) => Str(name);
      case Str(data) =>
        PutC('"');
        Str(data);
        ClipAdd(old(buf), "\"", CStr(data), cap);
        PutC('"');
        ClipAdd(old(buf), "\"" + CStr(data), "\"", cap);
      case Pair(_, _) => PrintList(v);
      case PrimV(name) =>
        var head := "#<primitive:";
        Literals();
        Str(head);
        Str(name);
        ClipAdd(old(buf), head, CStr(name), cap);
        PutC('>');
        ClipAdd(old(buf), head + CStr(name), ">", cap);
      case LambdaV =>
        Literals();
        Str("#<lambda>");
    }

    method PrintList(v: Val)
      requires Valid() && v.Pair?
      modifies this
      ensures Valid() && buf == Clip(old(buf) + Show(v), cap)
      decreases v, 0
    {
      hide Clip, Show, ShowTail, CStr;
      ghost var b := buf;
      PutC('(');
      ghost var done := "(";
      var cur, first := v, true;
      OpenText(v);
      while cur.Pair?
        invariant Valid() && buf == Clip(b + done, cap)
        invariant (first ==> cur == v) && (cur == v || cur < v)
        invariant done + (if first then Show(v.car) + ShowTail(v.cdr) else ShowTail(cur)) == Show(v)
        decreases cur
      {
        TailText2(cur);
        if !first {
          PutC(' ');
          ClipAdd(b, done, " ", cap);
          Assoc(done, " ", Show(cur.car), ShowTail(cur.cdr));
          done := done + " ";
        }
        first := false;
        Print(cur.car);
        ClipAdd(b, done, Show(cur.car), cap);
        Assoc(done, Show(cur.car), ShowTail(cur.cdr), "");
        done := done + Show(cur.car);
        cur := cur.cdr;
      }
      TailText2(cur);
      if cur != Nil {
        Literals();
        Str(" . ");
        ClipAdd(b, done, " . ", cap);
        Print(cur);
        ClipAdd(b, done + " . ", Show(cur), cap);
        Assoc(done, " . ", Show(cur), ")");
        done := done + " . " + Show(cur);
      }
      PutC(')');
      ClipAdd(b, done, ")", cap);
    }
  }

  lemma Assoc(a: string, b: string, c: string, d: string)
    ensures a + (b + c + d) == (a + b) + (c + d) == (a + b + c) + d
    ensures a + (b + c) == (a + b) + c
  {
  }

  lemma OpenText(v: Val)
    requires v.Pair?
    ensures Show(v) == "(" + (Show(v.car) + ShowTail(v.cdr))
  {
  }

  lemma TailText2(v: Val)
    ensures ShowTail(v) == if v.Pair? then " " + Show(v.car) + ShowTail(v.cdr) else if v == Nil then ")" else " . " + Show(v) + ")"
  {
  }

  lemma Literals()
    ensures CStr(" . ") == " . " && CStr("#<lambda>") == "#<lambda>" && CStr("#<primitive:") == "#<primitive:"
  {
    hide CStr;
    CStrWhole(" . ");
    CStrWhole("#<lambda>");
    CStrWhole("#<primitive:");
  }

  function Backward(s: string): string {
    if s == [] then [] else [s[|s| - 1]] + Backward(s[..|s| - 1])
  }

  lemma BackwardStep(s: string, c: char)
    ensures Backward(s + [c]) == [c] + Backward(s)
  {
    assert (s + [c])[..|s|] == s;
  }

  lemma {:induction false} BackwardLength(s: string)
    ensures |Backward(s)| == |s|
  {
    if s != [] { BackwardLength(s[..|s| - 1]); }
  }

  /** The digits still to be produced. */
  function Lead(u: nat): string {
    if u == 0 then [] else Digits(u)
  }

  lemma LeadDigits(u: nat)
    ensures if u == 0 then Digits(u) == Backward([] + ['0']) else Lead(u) + Backward([]) == Digits(u)
  {
    BackwardStep([], '0');
  }

  lemma LeadStep(u: nat)
    requires u > 0
    ensures Lead(u) == Lead(u / 10) + [DigitChar(u % 10)]
  {
  }

  /** Printing a value of the fragment into a buffer that holds it and reading the buffer gives the
      value back. */
  method PrintThenRead(v: Val, cap: nat) returns (r: Option<Val>)
    requires Printable(v) && |Show(v)| < cap
    ensures r == Some(v)
  {
    hide Show, Printable, Parse;
    var out := new Writer(cap);
    out.Print(v);
    assert [] + Show(v) == Show(v) && Show(v) + [] == Show(v);
    RoundTrip(v, []);
    var input := new Reader(out.buf);
    r := input.Read();
  }
}
