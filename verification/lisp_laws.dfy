/** The syntax of the reader and the printer, law by law: what a text of each form reads as, in terms of
    what its parts read as, for every inner text. */
module LispLaws {
  import opened LispText
  import opened LispReader

  /** A value read from behind a prefix, wrapped in a list of two under the given name. */
  function Under(name: string, p: Parsed): Parsed {
    match p
    case Failed => Failed
    case Parsed(v, rest) => Parsed(Pair(Sym(name), Pair(v, Sym("nil"))), rest)
  }

  // ----- the fragment of the round trip -----

  function ListOf(vs: seq<Val>): Val {
    if vs == [] then Sym("nil") else Pair(vs[0], ListOf(vs[1..]))
  }

  /** Numbers, the symbols and strings that read back, and lists of such values, empty or nested. */
  lemma {:induction false} Fragment(n: Fixnum, s: string, vs: seq<Val>)
    ensures Printable(Num(n))
    ensures '\0' !in s && '"' !in s && '\\' !in s && |s| <= 4095 ==> Printable(Str(s))
    ensures '\0' !in s && SymOk(s) ==> Printable(Sym(s))
    ensures (forall k :: 0 <= k < |vs| ==> Printable(vs[k])) ==> Printable(ListOf(vs)) && IsList(ListOf(vs))
  {
    hide IsNumeral;
    if vs == [] { NilFits(); } else { Fragment(n, s, vs[1..]); }
  }

  lemma NilFits()
    ensures Printable(Sym("nil"))
  {
    assert "nil"[0] == 'n' && !IsDigit('n') && Unsigned("nil") == "nil";
  }

  // ----- prefixes -----

  /** 'x reads as (quote x), #'x as (function x), # before anything else not at all. */
  lemma Quotes(t: string)
    ensures Parse("'" + t) == Under("quote", Parse(t))
  {
    hide ParseList, Quoted, Atom, Token, AtomLen;
    var q := "'" + t;
    assert q[0] == '\'' && q[1..] == t;
    SkipStays(q, "");
    assert q + "" == q;
  }

  lemma Dispatches(t: string)
    ensures Parse("#'" + t) == Under("function", Parse(t))
    ensures t == [] || t[0] != '\'' ==> Parse("#" + t) == Failed
  {
    hide ParseList, Quoted, Atom, Token, AtomLen;
    var f, h := "#'" + t, "#" + t;
    assert f[0] == '#' && f[1] == '\'' && f[2..] == t && h[0] == '#' && h[1..] == t;
    SkipStays(f, "");
    SkipStays(h, "");
    assert f + "" == f && h + "" == h;
  }

  /** A closing parenthesis outside a list is an error. */
  lemma Closes(t: string)
    ensures Parse(")" + t) == Failed
  {
    var c := ")" + t;
    assert c[0] == ')';
    SkipStays(c, "");
    assert c + "" == c;
  }

  /** The six characters isspace knows change nothing in front of a value or of a list's rest. */
  lemma Spaces(c: char, t: string)
    requires c == ' ' || c == '\t' || c == '\n' || c == '\r' || c == '\U{0B}' || c == '\U{0C}'
    ensures Parse([c] + t) == Parse(t) && ParseList([c] + t) == ParseList(t)
  {
    assert ([c] + t)[1..] == t;
    SkipHead(t);
  }

  /** Neither does a comment, up to and with the end of its line; at the end of the text it is the end. */
  lemma Comments(c: string, t: string)
    requires '\n' !in c
    ensures Parse(";" + c + "\n" + t) == Parse(t) && ParseList(";" + c + "\n" + t) == ParseList(t)
    ensures Parse(";" + c) == Parsed(Sym("nil"), "") && ParseList(";" + c) == Failed
  {
    var u := ";" + c + "\n" + t;
    LineEnds(c, "\n" + t);
    LineEnds(c, "");
    assert u[1..] == c + ("\n" + t) && ("\n" + t)[1..] == t;
    assert (";" + c)[1..] == c && c + "" == c;
    assert Skip(u) == Skip(t) && Skip(";" + c) == [];
  }

  lemma {:induction false} LineEnds(c: string, t: string)
    requires '\n' !in c
    ensures AfterLine(c + t) == AfterLine(t)
  {
    if c == [] {
      assert c + t == t;
    } else {
      assert c[0] in c && (c + t)[1..] == c[1..] + t;
      LineEnds(c[1..], t);
    }
  }

  /** The end of the text: nil for a value, an error for a list. */
  lemma Ended()
    ensures Parse("") == Parsed(Sym("nil"), "") && ParseList("") == Failed && Parse("(") == Failed
  {
    assert "("[1..] == "";
  }

  // ----- tokens -----

  /** A token ends in front of a space, a parenthesis, a double quote or a semicolon, and nowhere else. */
  lemma Delimiters(c: char)
    ensures Delim(c) <==> c in " \t\n\r();\"" || c == '\U{0B}' || c == '\U{0C}'
  {
  }

  /** A token reads as what its first 255 characters are. */
  lemma Tokens(tok: string, rest: string)
    requires tok != [] && (forall k :: 0 <= k < |tok| ==> !Delim(tok[k])) && tok[0] != '\'' && tok[0] != '#'
    requires rest == [] || Delim(rest[0])
    ensures Parse(tok + rest) == Parsed(Atom(if |tok| > 255 then tok[..255] else tok), rest)
  {
    AtomLenIs(tok, rest);
    assert !Delim(tok[0]);
    SkipStays(tok, rest);
    assert (tok + rest)[|tok|..] == rest && (tok + rest)[..|tok|] == tok;
    if |tok| > 255 { assert (tok + rest)[..255] == tok[..255]; }
  }

  /** Digits with or without a sign are a number, kept modulo 2 to the 61. */
  lemma Numbers(ds: string)
    requires ds != [] && AllDigits(ds)
    ensures Atom(ds) == Num(Fix(Value(ds))) && Atom("+" + ds) == Num(Fix(Value(ds))) && Atom("-" + ds) == Num(Fix(0 - Value(ds)))
  {
    assert ("+" + ds)[1..] == ds && ("-" + ds)[1..] == ds;
    assert IsDigit(ds[0]);
  }

  /** Anything else is a symbol: a lone sign, or a character past the first that is no digit. */
  lemma Symbols(tok: string, k: nat)
    requires NoNul(tok) && tok != []
    requires (|tok| == 1 && tok[0] in "+-") || (k < |tok| && tok[k] !in "0123456789" && (k == 0 ==> tok[0] !in "+-"))
    ensures Atom(tok) == Sym(tok)
  {
    CStrWhole(tok);
    if IsNumeral(tok) && |tok| > 1 {
      assert Unsigned(tok)[if Signed(tok) then k - 1 else k] == tok[k];
      TenDigits(tok[k]);
    }
  }

  lemma TenDigits(c: char)
    ensures IsDigit(c) <==> c in "0123456789"
  {
    if IsDigit(c) { assert c == "0123456789"[c as int - 48]; }
  }

  /** The ten digits, and decimal notation. */
  lemma Decimals(d: nat, s: string, c: char)
    requires d < 10 && AllDigits(s) && IsDigit(c)
    ensures DigitChar(d) == "0123456789"[d] && DigitVal("0123456789"[d]) == d
    ensures AllDigits(s + [c]) && Value(s + [c]) == 10 * Value(s) + DigitVal(c) && Value("") == 0
  {
    assert (s + [c])[..|s|] == s;
    assert DigitChar(d) as int == 48 + d;
    assert "0123456789"[d] as int == 48 + d;
  }

  /** A number word keeps the 61 low bits, as a signed number. */
  lemma Fixnums(v: int, n: int)
    requires -1152921504606846976 <= n < 1152921504606846976
    ensures Fix(v) == n <==> (v - n) % 2305843009213693952 == 0
  {
  }

  // ----- strings -----

  /** A string as it can be written, with \n, \t, \\ and \" for the four characters that need it. */
  function Escaped(s: string): string {
    if s == [] then []
    else (if s[0] == '\n' then "\\n" else if s[0] == '\t' then "\\t" else if s[0] == '\\' then "\\\\"
          else if s[0] == '"' then "\\\"" else [s[0]]) + Escaped(s[1..])
  }

  /** Every string of up to 4095 characters other than NUL can be written so that it reads back. */
  lemma EscapeTrip(s: string, rest: string)
    requires NoNul(s) && |s| <= 4095
    ensures Parse("\"" + Escaped(s) + "\"" + rest) == Parsed(Str(s), rest)
  {
    hide Quoted, Escaped, CStr, Skip, ParseList;
    var t := "\"" + Escaped(s) + "\"" + rest;
    assert t == "\"" + (Escaped(s) + "\"" + rest);
    OpenString(Escaped(s) + "\"" + rest);
    Unescaped(s, [], rest);
    CStrWhole(s);
    assert [] + s == s;
  }

  lemma {:induction false} Unescaped(s: string, acc: string, rest: string)
    requires |acc| + |s| <= 4095
    ensures Quoted(Escaped(s) + "\"" + rest, acc) == Cut(acc + s, rest)
  {
    if s == [] {
      var t := "\"" + rest;
      assert Escaped(s) + "\"" + rest == t && t[0] == '"' && t[1..] == rest && acc + s == acc;
    } else {
      var c, u := s[0], Escaped(s[1..]) + "\"" + rest;
      Unescaped(s[1..], acc + [c], rest);
      assert acc + [c] + s[1..] == acc + s;
      EscapedFirst(s, rest);
      hide Quoted, Escaped;
      if c == '\n' { Escapes('n', u, acc); }
      else if c == '\t' { Escapes('t', u, acc); }
      else if c == '\\' || c == '"' { Escapes(c, u, acc); }
      else { OneMore(c, u, acc); }
    }
  }

  lemma EscapedFirst(s: string, rest: string)
    requires s != []
    ensures var c, u, t := s[0], Escaped(s[1..]) + "\"" + rest, Escaped(s) + "\"" + rest;
      t == (if c == '\n' then "\\" + ['n'] + u else if c == '\t' then "\\" + ['t'] + u
            else if c == '\\' || c == '"' then "\\" + [c] + u else [c] + u)
  {
  }

  lemma OneMore(c: char, t: string, acc: string)
    requires c != '"' && c != '\\' && |acc| < 4095
    ensures Quoted([c] + t, acc) == Quoted(t, acc + [c])
  {
    assert ([c] + t)[1..] == t;
  }

  /** Any other character behind a backslash stands for itself. */
  lemma Escapes(c: char, t: string, acc: string)
    requires |acc| < 4095
    ensures Quoted("\\" + [c] + t, acc) == Quoted(t, acc + [if c == 'n' then '\n' else if c == 't' then '\t' else c])
  {
    var u := "\\" + [c] + t;
    assert u[0] == '\\' && u[1] == c && u[2..] == t;
  }

  /** A string is cut after 4095 characters, and the character behind the cut is lost. */
  lemma Overlong(s: string, c: char, rest: string)
    requires |s| == 4095 && NoNul(s) && '"' !in s && '\\' !in s
    ensures Parse("\"" + s + [c] + rest) == Parsed(Str(s), rest)
  {
    hide CStr, Quoted, Skip, ParseList;
    var t := "\"" + s + [c] + rest;
    assert t == "\"" + (s + ([c] + rest));
    OpenString(s + ([c] + rest));
    Plain(s, [], [c] + rest);
    assert [] + s == s;
    Full(c, rest, s);
    CStrWhole(s);
  }

  lemma Full(c: char, rest: string, acc: string)
    requires |acc| >= 4095
    ensures Quoted([c] + rest, acc) == Cut(acc, rest)
  {
    assert ([c] + rest)[1..] == rest;
  }

  /** A string left open ends with the text. */
  lemma Unclosed(s: string)
    requires |s| <= 4095 && NoNul(s) && '"' !in s && '\\' !in s
    ensures Parse("\"" + s) == Parsed(Str(s), "")
  {
    hide CStr, Quoted, Skip, ParseList;
    OpenString(s);
    Plain(s, [], []);
    assert s + [] == s && [] + s == s;
    assert Quoted([], s) == Cut(s, []) by { Out(s); }
    CStrWhole(s);
  }

  lemma Out(acc: string)
    ensures Quoted([], acc) == Cut(acc, [])
  {
  }

  lemma OpenString(t: string)
    ensures Parse("\"" + t) == Parsed(Str(CStr(Quoted(t, []).text)), Quoted(t, []).rest)
  {
    hide Quoted, CStr, ParseList;
    var u := "\"" + t;
    assert u[0] == '"' && u[1..] == t;
    SkipStays(u, "");
    assert u + "" == u;
  }

  lemma {:induction false} Plain(s: string, acc: string, rest: string)
    requires '"' !in s && '\\' !in s && |acc| + |s| <= 4095
    ensures Quoted(s + rest, acc) == Quoted(rest, acc + s)
  {
    if s == [] {
      assert s + rest == rest && acc + s == acc;
    } else {
      assert s[0] in s && (s + rest)[1..] == s[1..] + rest && acc + [s[0]] + s[1..] == acc + s;
      Plain(s[1..], acc + [s[0]], rest);
    }
  }

  // ----- printing -----

  /** What each kind of value prints as; a list spreads over its rest, and a rest that is no list stands
      behind a dot. */
  lemma Prints(a: Val, d: Val, s: string)
    requires NoNul(s)
    ensures Show(Sym(s)) == s && Show(Str(s)) == "\"" + s + "\"" && Show(PrimV(s)) == "#<primitive:" + s + ">"
    ensures Show(LambdaV) == "#<lambda>"
    ensures d == Sym("nil") ==> Show(Pair(a, d)) == "(" + Show(a) + ")"
    ensures d.Pair? ==> Show(d)[0] == '(' && Show(Pair(a, d)) == "(" + Show(a) + " " + Show(d)[1..]
    ensures !d.Pair? && d != Sym("nil") ==> Show(Pair(a, d)) == "(" + Show(a) + " . " + Show(d) + ")"
  {
    CStrWhole(s);
    hide CStr, ShowNum;
    OpenText(Pair(a, d));
    TailText2(d);
    if d.Pair? { Spread(Show(a), Show(d.car), ShowTail(d.cdr), d); }
    hide Show, ShowTail;
    if d == Sym("nil") {
      assert "(" + (Show(a) + ")") == "(" + Show(a) + ")";
    } else if !d.Pair? {
      assert "(" + (Show(a) + (" . " + Show(d) + ")")) == "(" + Show(a) + " . " + Show(d) + ")";
    }
  }

  lemma Spread(a: string, x: string, y: string, d: Val)
    requires d.Pair? && x == Show(d.car) && y == ShowTail(d.cdr)
    ensures Show(d)[0] == '(' && "(" + (a + (" " + x + y)) == "(" + a + " " + Show(d)[1..]
  {
    OpenText(d);
    hide Show, ShowTail;
    assert ("(" + (x + y))[1..] == x + y;
    assert "(" + (a + (" " + x + y)) == "(" + a + " " + (x + y);
  }

  /** A number prints its decimal digits, without a zero in front, behind a minus if it is negative. */
  lemma PrintsNumber(n: Fixnum)
    ensures n < 0 ==> Show(Num(n)) == "-" + Digits(0 - n as int)
    ensures n >= 0 ==> Show(Num(n)) == Digits(n)
    ensures n != 0 ==> Digits(Mag(n))[0] != '0'
  {
    if n != 0 { NoZero(Mag(n)); }
  }

  lemma {:induction false} NoZero(u: nat)
    requires u > 0
    ensures Digits(u) != [] && Digits(u)[0] != '0'
  {
    if u >= 10 { NoZero(u / 10); }
  }

  /** A C string ends in front of its first NUL. */
  lemma {:induction false} CStrings(s: string, k: nat)
    requires k <= |s| && (k < |s| ==> s[k] == '\0') && '\0' !in s[..k]
    ensures CStr(s) == s[..k]
  {
    if k > 0 {
      assert s[0] == s[..k][0];
      assert s[1..][..k - 1] == s[..k][1..];
      CStrings(s[1..], k - 1);
    }
  }

  /** A buffer of cap bytes keeps the first cap - 1 characters and the terminating NUL. */
  lemma Clips(s: string, cap: nat)
    ensures |s| < cap ==> Clip(s, cap) == s
    ensures 0 < cap <= |s| ==> Clip(s, cap) == s[..cap - 1]
  {
  }

  /** lm_read reports an error exactly where the grammar has none, and otherwise the value and what is left. */
  lemma Results(r: Option<Val>, p: Parsed, rest: string)
    requires Agrees(r, p, rest)
    ensures r == None <==> p == Failed
    ensures p.Parsed? ==> r == Some(p.v) && rest == p.rest
  {
  }
}
