/** The Lisp reader and printer: what each computes on text, and the fragment on which reading undoes
    printing. */
module LispText {
  const TWO60: int := 0x1000_0000_0000_0000
  const TWO61: int := 0x2000_0000_0000_0000
  const TWO64: int := 0x1_0000_0000_0000_0000

  /** A number word keeps 61 bits. */
  type Fixnum = n: int | -TWO60 <= n < TWO60

  datatype Val =
    | Num(n: Fixnum)
    | Sym(name: string)
    | Str(data: string)
    | Pair(car: Val, cdr: Val)
    | PrimV(prim: string)
    | LambdaV

  const Nil: Val := Sym("nil")

  datatype Option<T> = None | Some(value: T)

  // ----- characters -----

  predicate IsSpace(c: char) {
    c == ' ' || c == '\t' || c == '\n' || c == '\r' || c == '\U{0C}' || c == '\U{0B}'
  }

  /** Characters that end a symbol or a number. */
  predicate Delim(c: char) {
    IsSpace(c) || c == '(' || c == ')' || c == '"' || c == ';'
  }

  predicate IsDigit(c: char) {
    '0' <= c <= '9'
  }

  function DigitVal(c: char): nat
    requires IsDigit(c)
  {
    c as int - '0' as int
  }

  function DigitChar(d: nat): char
    requires d < 10
  {
    ('0' as int + d) as char
  }

  /** What a C string shows of a buffer. */
  function CStr(s: string): string {
    if s == [] || s[0] == '\0' then [] else [s[0]] + CStr(s[1..])
  }

  // ----- numbers -----

  /** The low 61 bits of a number, as a signed value: what FIXNUM keeps. */
  function Fix(v: int): Fixnum {
    (v + TWO60) % TWO61 - TWO60
  }

  function Digits(u: nat): string {
    if u < 10 then [DigitChar(u)] else Digits(u / 10) + [DigitChar(u % 10)]
  }

  function Mag(n: int): nat {
    if n < 0 then -n else n
  }

  function ShowNum(n: int): string {
    if n < 0 then "-" + Digits(Mag(n)) else Digits(Mag(n))
  }

  predicate AllDigits(s: string) {
    forall k :: 0 <= k < |s| ==> IsDigit(s[k])
  }

  /** The value of a string of digits. */
  function Value(s: string): nat
    requires AllDigits(s)
  {
    if s == [] then 0 else Value(s[..|s| - 1]) * 10 + DigitVal(s[|s| - 1])
  }

  predicate Signed(s: string) {
    s != [] && (s[0] == '+' || s[0] == '-')
  }

  function Unsigned(s: string): string {
    if Signed(s) then s[1..] else s
  }

  predicate IsNumeral(s: string) {
    Unsigned(s) != [] && AllDigits(Unsigned(s))
  }

  function NumeralValue(s: string): int
    requires IsNumeral(s)
  {
    if s[0] == '-' then 0 - Value(s[1..]) else Value(Unsigned(s))
  }

  lemma {:induction false} DigitsValue(u: nat)
    ensures AllDigits(Digits(u)) && Digits(u) != [] && Value(Digits(u)) == u
  {
    if u >= 10 {
      DigitsValue(u / 10);
      assert Digits(u)[..|Digits(u)| - 1] == Digits(u / 10);
    }
  }

  lemma FixSmall(n: Fixnum)
    ensures Fix(n) == n
  {
  }

  /** Printing a number and parsing it gives it back. */
  lemma NumeralTrip(n: Fixnum)
    ensures IsNumeral(ShowNum(n)) && Fix(NumeralValue(ShowNum(n))) == n
  {
    DigitsValue(Mag(n));
    assert n < 0 ==> ShowNum(n)[1..] == Digits(Mag(n));
    FixSmall(n);
  }

  // ----- the reader on text -----

  function AfterLine(t: string): (r: string)
    ensures |r| <= |t|
  {
    if t == [] then [] else if t[0] == '\n' then t[1..] else AfterLine(t[1..])
  }

  /** skip_whitespace: drops spaces and comments. */
  function Skip(t: string): (r: string)
    ensures |r| <= |t|
    decreases |t|
  {
    if t == [] then []
    else if t[0] == ';' then Skip(AfterLine(t[1..]))
    else if IsSpace(t[0]) then Skip(t[1..])
    else t
  }

  function AtomLen(t: string): (n: nat)
    ensures n <= |t|
  {
    if t == [] || Delim(t[0]) then 0 else 1 + AtomLen(t[1..])
  }

  /** read_atom keeps 255 characters of a token. */
  const ATOM: nat := 255
  /** read_string keeps 4095. */
  const STRLEN: nat := 4095

  function Token(t: string): string {
    if AtomLen(t) > ATOM then t[..ATOM] else t[..AtomLen(t)]
  }

  function Atom(tok: string): Val {
    if IsNumeral(tok) then Num(Fix(NumeralValue(tok))) else Sym(CStr(tok))
  }

  function Unescape(c: char): char {
    if c == 'n' then '\n' else if c == 't' then '\t' else c
  }

  datatype Cut = Cut(text: string, rest: string)

  /** read_string from after the opening quote, acc being what is in the buffer. At the buffer's end
      one more character is eaten; a backslash at the end of input stores (char)-1. */
  function Quoted(t: string, acc: string): (r: Cut)
    ensures |r.rest| <= |t|
    decreases |t|
  {
    if t == [] then Cut(acc, [])
    else if t[0] == '"' || |acc| >= STRLEN then Cut(acc, t[1..])
    else if t[0] != '\\' then Quoted(t[1..], acc + [t[0]])
    else if |t| == 1 then Cut(acc + ['\U{FF}'], [])
    else Quoted(t[2..], acc + [Unescape(t[1])])
  }

  datatype Parsed = Parsed(v: Val, rest: string) | Failed

  function List2(a: Val, b: Val): Val {
    Pair(a, Pair(b, Nil))
  }

  /** lm_read. */
  function Parse(t: string): (r: Parsed)
    ensures r.Parsed? ==> |r.rest| <= |t| && (Skip(t) != [] ==> |r.rest| < |t|)
    decreases |t|, 0
  {
    var u := Skip(t);
    if u == [] then Parsed(Nil, [])
    else if u[0] == '(' then ParseList(u[1..])
    else if u[0] == '\'' then
      (match Parse(u[1..]) case Failed => Failed case Parsed(v, rest) => Parsed(List2(Sym("quote"), v), rest))
    else if u[0] == '#' then
      if |u| == 1 || u[1] != '\'' then Failed
      else (match Parse(u[2..]) case Failed => Failed case Parsed(v, rest) => Parsed(List2(Sym("function"), v), rest))
    else if u[0] == '"' then
      var q := Quoted(u[1..], []);
      Parsed(Str(CStr(q.text)), q.rest)
    else if u[0] == ')' then Failed
    else
      assert !Delim(u[0]) by { SkipHead(t); }
      Parsed(Atom(Token(u)), u[AtomLen(u)..])
  }

  /** read_list. */
  function ParseList(t: string): (r: Parsed)
    ensures r.Parsed? ==> |r.rest| <= |t|
    decreases |t|, 1
  {
    var u := Skip(t);
    if u == [] then Failed
    else if u[0] == ')' then Parsed(Nil, u[1..])
    else
      match Parse(u)
      case Failed => Failed
      case Parsed(a, rest) =>
        SkipHead(t);
        match ParseList(rest)
        case Failed => Failed
        case Parsed(d, rest2) => Parsed(Pair(a, d), rest2)
  }

  lemma {:induction false} SkipHead(t: string)
    ensures Skip(t) != [] ==> !IsSpace(Skip(t)[0]) && Skip(t)[0] != ';' && Skip(Skip(t)) == Skip(t)
    decreases |t|
  {
    if t != [] {
      if t[0] == ';' { SkipHead(AfterLine(t[1..])); } else if IsSpace(t[0]) { SkipHead(t[1..]); }
    }
  }

  // ----- the printer on text -----

  /** lm_print. */
  function Show(v: Val): string
    decreases v, 0
  {
    match v
    case Num(n) => ShowNum(n)
    case Sym(name) => CStr(name)
    case Str(data) => "\"" + CStr(data) + "\""
    case Pair(a, d) => "(" + Show(a) + ShowTail(d)
    case PrimV(name) => "#<primitive:" + CStr(name) + ">"
    case LambdaV => "#<lambda>"
  }

  /** The rest of a list, down to its closing parenthesis. */
  function ShowTail(v: Val): string
    decreases v, 1
  {
    if v.Pair? then " " + Show(v.car) + ShowTail(v.cdr)
    else if v == Nil then ")"
    else " . " + Show(v) + ")"
  }

  // ----- round trip -----

  predicate NoNul(s: string) {
    '\0' !in s
  }

  lemma {:induction false} CStrWhole(s: string)
    requires NoNul(s)
    ensures CStr(s) == s
  {
    if s != [] { CStrWhole(s[1..]); }
  }

  /** Symbols that read back: one token, at most 255 characters, not a number, not starting a quote or
      a dispatch. */
  predicate SymOk(name: string) {
    && 0 < |name| <= ATOM && (forall k :: 0 <= k < |name| ==> !Delim(name[k]))
    && name[0] != '\'' && name[0] != '#' && !IsNumeral(name)
  }

  /** Strings that read back: no character that ends or escapes, and short enough for the buffer. */
  predicate StrOk(data: string) {
    |data| <= STRLEN && '"' !in data && '\\' !in data
  }

  predicate IsList(v: Val) {
    v == Nil || (v.Pair? && IsList(v.cdr))
  }

  /** Numbers, symbols, strings and proper lists of them. */
  predicate Printable(v: Val) {
    match v
    case Num(_) => true
    case Sym(name) => NoNul(name) && SymOk(name)
    case Str(data) => NoNul(data) && StrOk(data)
    case Pair(a, d) => Printable(a) && IsList(d) && Printable(d)
    case PrimV(_) => false
    case LambdaV => false
  }

  /** What may follow a printed value. */
  predicate Ends(rest: string) {
    rest == [] || Delim(rest[0])
  }

  lemma {:induction false} AtomLenIs(s: string, rest: string)
    requires (forall k :: 0 <= k < |s| ==> !Delim(s[k])) && Ends(rest)
    ensures AtomLen(s + rest) == |s|
  {
    if s == [] {
      assert s + rest == rest;
    } else {
      AtomLenIs(s[1..], rest);
      assert (s + rest)[1..] == s[1..] + rest;
    }
  }

  lemma {:induction false} QuotedIs(s: string, acc: string, rest: string)
    requires '"' !in s && '\\' !in s && |acc| + |s| <= STRLEN
    ensures Quoted(s + "\"" + rest, acc) == Cut(acc + s, rest)
  {
    var t := s + "\"" + rest;
    if s == [] {
      assert t[0] == '"' && t[1..] == rest;
      assert acc + s == acc;
    } else {
      assert t[0] == s[0] && s[0] in s;
      QuotedIs(s[1..], acc + [s[0]], rest);
      assert t[1..] == s[1..] + "\"" + rest;
      assert acc + [s[0]] + s[1..] == acc + s;
    }
  }

  /** The first character of printed text is never skipped and never closes a list. */
  lemma ShowHead(v: Val)
    requires Printable(v)
    ensures Show(v) != [] && !IsSpace(Show(v)[0]) && Show(v)[0] != ';' && Show(v)[0] != ')'
  {
    match v
    case Num(n) => NumeralChars(n);
    case Sym(name) => CStrWhole(name); assert !Delim(name[0]);
    case Str(_) =>
    case Pair(_, _) =>
  }

  lemma SkipStays(s: string, rest: string)
    requires s != [] && !IsSpace(s[0]) && s[0] != ';'
    ensures Skip(s + rest) == s + rest
  {
  }

  /** A token standing alone. */
  lemma AtomTrip(tok: string, rest: string)
    requires 0 < |tok| <= ATOM && (forall k :: 0 <= k < |tok| ==> !Delim(tok[k])) && Ends(rest)
    requires tok[0] != '\'' && tok[0] != '#'
    ensures Parse(tok + rest) == Parsed(Atom(tok), rest)
  {
    AtomLenIs(tok, rest);
    assert !Delim(tok[0]);
    SkipStays(tok, rest);
    assert (tok + rest)[..|tok|] == tok && (tok + rest)[|tok|..] == rest;
  }

  lemma NumTrip(n: Fixnum, rest: string)
    requires Ends(rest)
    ensures Parse(ShowNum(n) + rest) == Parsed(Num(n), rest)
  {
    NumeralTrip(n);
    NumeralChars(n);
    ShowLength(n);
    hide ShowNum, IsNumeral, NumeralValue, Fix, Parse, Delim, Ends;
    AtomTrip(ShowNum(n), rest);
  }

  lemma NumeralChars(n: Fixnum)
    ensures var s := ShowNum(n);
      s != [] && (forall k :: 0 <= k < |s| ==> !Delim(s[k])) && s[0] != '\'' && s[0] != '#' && s[0] != ')' && !IsSpace(s[0])
  {
    DigitsValue(Mag(n));
    hide Digits, Value;
  }

  const TEN19: int := 10_000_000_000_000_000_000

  lemma {:induction false} DigitsShort(u: nat, k: nat, p: nat)
    requires k > 0 && u < p && p == Pow10(k)
    ensures |Digits(u)| <= k
  {
    if u >= 10 { DigitsShort(u / 10, k - 1, p / 10); }
  }

  function Pow10(k: nat): nat {
    if k == 0 then 1 else 10 * Pow10(k - 1)
  }

  /** The 24 characters w_long has room for are enough. */
  lemma ShowLength(n: Fixnum)
    ensures |ShowNum(n)| <= 20
  {
    assert Pow10(5) == 100_000;
    assert Pow10(10) == 10_000_000_000;
    assert Pow10(15) == 1_000_000_000_000_000;
    assert Pow10(19) == TEN19;
    DigitsShort(Mag(n), 19, TEN19);
  }

  function Size(v: Val): nat {
    if v.Pair? then 1 + Size(v.car) + Size(v.cdr) else 1
  }

  /** Reading printed text gives the value back and stops right behind it. */
  lemma {:induction false} RoundTrip(v: Val, rest: string)
    requires Printable(v) && Ends(rest)
    ensures Parse(Show(v) + rest) == Parsed(v, rest)
    decreases Size(v), 0
  {
    hide Parse, ParseList, Skip, ShowTail, ShowNum, IsNumeral, AtomLen, Quoted, Ends, CStr;
    match v
    case Num(n) => NumTrip(n, rest);
    case Sym(name) =>
      CStrWhole(name);
      AtomTrip(name, rest);
    case Str(data) =>
      CStrWhole(data);
      StrTrip(data, rest);
    case Pair(a, d) =>
      ListTrip(a, d, rest);
      OpenList(Show(a) + (ShowTail(d) + rest));
      assert Show(v) + rest == "(" + (Show(a) + (ShowTail(d) + rest));
  }

  lemma StrTrip(data: string, rest: string)
    requires NoNul(data) && StrOk(data)
    ensures Parse("\"" + data + "\"" + rest) == Parsed(Str(data), rest)
  {
    hide Quoted, CStr;
    var t := "\"" + data + "\"" + rest;
    assert t[1..] == data + "\"" + rest;
    QuotedIs(data, [], rest);
    assert [] + data == data;
    CStrWhole(data);
  }

  lemma OpenList(t: string)
    ensures Parse("(" + t) == ParseList(t)
  {
    assert ("(" + t)[1..] == t;
  }

  /** An element of a list, read where it starts. */
  lemma Element(t: string, a: Val, rest: string)
    requires t != [] && Skip(t) == t && t[0] != ')' && Parse(t) == Parsed(a, rest)
    ensures ParseList(t) == match ParseList(rest) case Failed => Failed case Parsed(d, rest2) => Parsed(Pair(a, d), rest2)
  {
  }

  /** The space between elements, and the end of the list. */
  lemma Separators(t: string)
    ensures ParseList(" " + t) == ParseList(t)
    ensures ParseList(")" + t) == Parsed(Nil, t)
  {
    assert (" " + t)[1..] == t && (")" + t)[1..] == t;
    SkipHead(t);
  }

  lemma {:induction false} ListTrip(a: Val, d: Val, rest: string)
    requires Printable(a) && Printable(d) && IsList(d)
    ensures ParseList(Show(a) + (ShowTail(d) + rest)) == Parsed(Pair(a, d), rest)
    decreases Size(a) + Size(d), 1
  {
    hide Parse, ParseList, Show, Skip, Printable, Size, ShowTail, Ends, IsSpace;
    ShowHead(a);
    SkipStays(Show(a), ShowTail(d) + rest);
    Tail(d, rest);
    RoundTrip(a, ShowTail(d) + rest);
    Element(Show(a) + (ShowTail(d) + rest), a, ShowTail(d) + rest);
    if d.Pair? {
      ListTrip(d.car, d.cdr, rest);
      Separators(Show(d.car) + (ShowTail(d.cdr) + rest));
    } else {
      Separators(rest);
    }
  }

  lemma Tail(d: Val, rest: string)
    requires IsList(d) && Printable(d)
    ensures Ends(ShowTail(d) + rest) && Size(d) > 0
    ensures d.Pair? ==> ShowTail(d) + rest == " " + (Show(d.car) + (ShowTail(d.cdr) + rest))
    ensures d.Pair? ==> Printable(d.car) && Printable(d.cdr) && IsList(d.cdr) && Size(d.car) + Size(d.cdr) < Size(d)
    ensures !d.Pair? ==> d == Nil && ShowTail(d) + rest == ")" + rest
  {
    TailText(d, rest);
    hide Show, ShowTail;
    if d.Pair? {
      SpaceEnds(" " + (Show(d.car) + (ShowTail(d.cdr) + rest)));
    } else {
      SpaceEnds(")" + rest);
    }
  }

  lemma TailText(d: Val, rest: string)
    ensures d.Pair? ==> ShowTail(d) + rest == " " + (Show(d.car) + (ShowTail(d.cdr) + rest))
    ensures d == Nil ==> ShowTail(d) + rest == ")" + rest
  {
    hide Show;
    if d.Pair? {
      var a, b := Show(d.car), ShowTail(d.cdr);
      assert ShowTail(d) == " " + a + b;
      assert " " + a + b + rest == " " + (a + (b + rest));
    }
  }

  lemma SpaceEnds(t: string)
    requires t != [] && (t[0] == ' ' || t[0] == ')')
    ensures Ends(t)
  {
  }

  // ----- exactly which atoms read back -----

  lemma {:induction false} CStrPrefix(s: string)
    ensures CStr(s) <= s
  {
    if s != [] && s[0] != '\0' {
      CStrPrefix(s[1..]);
      assert s == [s[0]] + s[1..];
    }
  }

  lemma {:induction false} SkipAll(t: string)
    requires |Skip(t)| == |t|
    ensures Skip(t) == t
  {
  }

  lemma {:induction false} AtomLenAll(t: string)
    requires AtomLen(t) == |t|
    ensures forall k :: 0 <= k < |t| ==> !Delim(t[k])
  {
    if t != [] {
      AtomLenAll(t[1..]);
      assert forall k :: 0 < k < |t| ==> t[k] == t[1..][k - 1];
    }
  }

  /** A symbol reads back as itself exactly when SymOk says so. */
  lemma SymbolTrip(name: string)
    requires NoNul(name)
    ensures Parse(Show(Sym(name))) == Parsed(Sym(name), []) <==> SymOk(name)
  {
    CStrWhole(name);
    if SymOk(name) {
      AtomTrip(name, []);
      assert name + [] == name;
    } else if Parse(name) == Parsed(Sym(name), []) {
      SymbolOnly(name);
    }
  }

  lemma SymbolOnly(name: string)
    requires NoNul(name) && Parse(name) == Parsed(Sym(name), [])
    ensures SymOk(name)
  {
    if name != "nil" {
      hide ParseList, Quoted, IsNumeral, Unsigned, NumeralValue, CStr, Delim;
      var u := Skip(name);
      ListNotSym(u);
      var tok := Token(u);
      CStrPrefix(tok);
      SkipAll(name);
      assert u == name && tok == name;
      AtomLenAll(name);
    }
  }

  /** A list reads as a pair or as nil. */
  lemma ListNotSym(u: string)
    ensures u != [] && ParseList(u[1..]).Parsed? ==> ParseList(u[1..]).v == Nil || ParseList(u[1..]).v.Pair?
  {
  }

  /** What comes before the scan's position stays. */
  lemma {:induction false} QuotedKeeps(t: string, acc: string)
    ensures acc <= Quoted(t, acc).text
    decreases |t|
  {
    if t == [] || t[0] == '"' || |acc| >= STRLEN {
    } else if t[0] != '\\' {
      QuotedKeeps(t[1..], acc + [t[0]]);
    } else if |t| > 1 {
      QuotedKeeps(t[2..], acc + [Unescape(t[1])]);
    }
  }

  lemma {:induction false} QuotedShort(t: string, acc: string)
    requires t != [] && t[|t| - 1] == '"'
    ensures |Quoted(t, acc).text| < |acc| + |t|
    decreases |t|
  {
    if t[0] == '"' || |acc| >= STRLEN {
    } else if t[0] != '\\' {
      QuotedShort(t[1..], acc + [t[0]]);
    } else if |t| > 2 {
      QuotedShort(t[2..], acc + [Unescape(t[1])]);
    }
  }

  lemma {:induction false} QuotedOnly(s: string, acc: string)
    requires acc + s <= Quoted(s + "\"", acc).text && |acc| <= STRLEN
    ensures '"' !in s && '\\' !in s && |acc| + |s| <= STRLEN
    decreases |s|
  {
    var t := s + "\"";
    if s != [] { assert t[0] == s[0]; }
    if s != [] && s[0] != '"' && |acc| < STRLEN {
      assert t[0] == s[0] && t[1..] == s[1..] + "\"";
      if s[0] != '\\' {
        assert acc + [s[0]] + s[1..] == acc + s;
        QuotedOnly(s[1..], acc + [s[0]]);
        assert s == [s[0]] + s[1..];
      } else {
        EscapeDiffers(s, acc);
      }
    }
  }

  /** A string that starts with a backslash is never read back. */
  lemma EscapeDiffers(s: string, acc: string)
    requires s != [] && s[0] == '\\' && |acc| < STRLEN
    ensures !(acc + s <= Quoted(s + "\"", acc).text)
  {
    var t := s + "\"";
    var x, text := Unescape(t[1]), Quoted(t, acc).text;
    assert t[0] == '\\' && text == Quoted(t[2..], acc + [x]).text;
    QuotedKeeps(t[2..], acc + [x]);
    if x == '\\' {
      assert |s| > 1;
      QuotedShort(t[2..], acc + [x]);
    } else {
      assert text[|acc|] == x && (acc + s)[|acc|] == '\\';
    }
  }

  /** A string reads back as itself exactly when StrOk says so. */
  lemma StringTrip(data: string)
    requires NoNul(data)
    ensures Parse(Show(Str(data))) == Parsed(Str(data), []) <==> StrOk(data)
  {
    CStrWhole(data);
    var t := "\"" + data + "\"";
    if StrOk(data) {
      StrTrip(data, []);
      assert t + [] == t;
    } else if Parse(t) == Parsed(Str(data), []) {
      assert t[1..] == data + "\"";
      var q := Quoted(data + "\"", []);
      CStrPrefix(q.text);
      assert CStr(q.text) == data && [] + data == data;
      QuotedOnly(data, []);
    }
  }
}
