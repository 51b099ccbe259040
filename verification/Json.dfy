/** JSON texts without insignificant whitespace (RFC 8259): what `JSON.stringify`
    writes, and a parser that reads it back. */
module Json {
  import opened Prelude

  datatype Json =
    | Null
    | Bool(b: bool)
    | Num(lexeme: string)
    | Str(s: string)
    | Arr(items: List)
    | Obj(members: Members)

  datatype List = Nil | Cons(head: Json, tail: List)

  /** The members of an object in enumeration order. */
  datatype Members = End | Member(name: string, value: Json, rest: Members)

  // ----- writing -----

  function HexDigit(n: nat): char
    requires n < 16
  {
    "0123456789abcdef"[n]
  }

  /** Section 7 of RFC 8259: quotation mark, reverse solidus and control characters
      are escaped, the others stand for themselves. */
  function EscapeChar(c: char): string {
    if c == '\"' then "\\\""
    else if c == '\\' then "\\\\"
    else if c == 8 as char then "\\b"
    else if c == 12 as char then "\\f"
    else if c == '\n' then "\\n"
    else if c == '\r' then "\\r"
    else if c == '\t' then "\\t"
    else if c < ' ' then "\\u00" + [HexDigit(c as int / 16), HexDigit(c as int % 16)]
    else [c]
  }

  function Escape(s: string): string {
    if s == [] then [] else EscapeChar(s[0]) + Escape(s[1..])
  }

  function Quote(s: string): string {
    "\"" + Escape(s) + "\""
  }

  function Stringify(v: Json): string
    decreases v, 0
  {
    match v
    case Null => "null"
    case Bool(b) => if b then "true" else "false"
    case Num(lexeme) => lexeme
    case Str(s) => Quote(s)
    case Arr(items) => "[" + Elements(items) + "]"
    case Obj(members) => "{" + Fields(members) + "}"
  }

  function Elements(l: List): string {
    match l
    case Nil => ""
    case Cons(v, Nil) => Stringify(v)
    case Cons(v, tail) => Stringify(v) + "," + Elements(tail)
  }

  function Fields(m: Members): string {
    match m
    case End => ""
    case Member(n, v, End) => Field(n, v)
    case Member(n, v, rest) => Field(n, v) + "," + Fields(rest)
  }

  function Field(name: string, v: Json): string
    decreases v, 1
  {
    Quote(name) + ":" + Stringify(v)
  }

  // ----- numbers: section 6 of RFC 8259 -----

  predicate IsDigit(c: char) {
    '0' <= c <= '9'
  }

  predicate IsNumChar(c: char) {
    IsDigit(c) || c in "+-.eE"
  }

  function SkipDigits(s: string): string {
    if s != [] && IsDigit(s[0]) then SkipDigits(s[1..]) else s
  }

  /** What is left after `1*DIGIT`; None when there is no digit. */
  function Digits(s: string): Option<string> {
    if s != [] && IsDigit(s[0]) then Some(SkipDigits(s)) else None
  }

  predicate IsExp(s: string) {
    s == [] || (s[0] in "eE" &&
      var t := if |s| > 1 && s[1] in "+-" then s[2..] else s[1..];
      Digits(t) == Some([]))
  }

  predicate IsFracExp(s: string) {
    if s != [] && s[0] == '.' then Digits(s[1..]).Some? && IsExp(Digits(s[1..]).value) else IsExp(s)
  }

  predicate IsNumber(s: string) {
    && s != [] && (forall c <- s :: IsNumChar(c))
    && var t := if s[0] == '-' then s[1..] else s;
       t != [] && IsDigit(t[0]) && IsFracExp(if t[0] == '0' then t[1..] else SkipDigits(t))
  }

  /** All number lexemes in `v` are numbers. */
  predicate Proper(v: Json) {
    match v
    case Num(lexeme) => IsNumber(lexeme)
    case Arr(items) => ProperList(items)
    case Obj(members) => ProperMembers(members)
    case _ => true
  }

  predicate ProperList(l: List) {
    l.Cons? ==> Proper(l.head) && ProperList(l.tail)
  }

  predicate ProperMembers(m: Members) {
    m.Member? ==> Proper(m.value) && ProperMembers(m.rest)
  }

  // ----- reading -----

  function HexValue(c: char): Option<nat> {
    if IsDigit(c) then Some(c as int - '0' as int)
    else if 'a' <= c <= 'f' then Some(c as int - 'a' as int + 10)
    else if 'A' <= c <= 'F' then Some(c as int - 'A' as int + 10)
    else None
  }

  /** `\uXXXX` for a code unit that is a character by itself. */
  function UnicodeEscape(t: string): (r: Option<char>)
    requires |t| >= 4
  {
    var a, b, c, d := HexValue(t[0]), HexValue(t[1]), HexValue(t[2]), HexValue(t[3]);
    if a.None? || b.None? || c.None? || d.None? then None
    else
      var n := ((a.value * 16 + b.value) * 16 + c.value) * 16 + d.value;
      if n < 0xD800 || (0xE000 <= n < 0x1_0000) then Some(n as char) else None
  }

  /** One character of a string and what follows it. */
  function ReadChar(t: string): (r: Option<(char, string)>)
    requires t != [] && t[0] != '\"'
    ensures r.Some? ==> |r.value.1| < |t|
  {
    if t[0] != '\\' then
      if t[0] < ' ' then None else Some((t[0], t[1..]))
    else if |t| < 2 then None
    else
      match t[1]
      case '\"' => Some(('\"', t[2..]))
      case '\\' => Some(('\\', t[2..]))
      case '/' => Some(('/', t[2..]))
      case 'b' => Some((8 as char, t[2..]))
      case 'f' => Some((12 as char, t[2..]))
      case 'n' => Some(('\n', t[2..]))
      case 'r' => Some(('\r', t[2..]))
      case 't' => Some(('\t', t[2..]))
      case 'u' =>
        if |t| < 6 || UnicodeEscape(t[2..]).None? then None else Some((UnicodeEscape(t[2..]).value, t[6..]))
      case _ => None
  }

  /** The rest of a string after its opening quotation mark. */
  function ReadString(t: string): (r: Option<(string, string)>)
    ensures r.Some? ==> |r.value.1| < |t|
    decreases |t|
  {
    if t == [] then None
    else if t[0] == '\"' then Some(("", t[1..]))
    else
      var c := ReadChar(t);
      if c.None? then None
      else
        var tail := ReadString(c.value.1);
        if tail.None? then None else Some(([c.value.0] + tail.value.0, tail.value.1))
  }

  function NumberRun(t: string): (n: nat)
    ensures n <= |t|
  {
    if t != [] && IsNumChar(t[0]) then 1 + NumberRun(t[1..]) else 0
  }

  function Parse(t: string): (r: Option<(Json, string)>)
    ensures r.Some? ==> |r.value.1| < |t|
    decreases |t|, 0
  {
    if t == [] then None
    else if "null" <= t then Some((Null, t[4..]))
    else if "true" <= t then Some((Bool(true), t[4..]))
    else if "false" <= t then Some((Bool(false), t[5..]))
    else if t[0] == '\"' then
      var s := ReadString(t[1..]);
      if s.None? then None else Some((Str(s.value.0), s.value.1))
    else if t[0] == '[' then
      if |t| > 1 && t[1] == ']' then Some((Arr(Nil), t[2..]))
      else
        var l := ParseElements(t[1..]);
        if l.None? then None else Some((Arr(l.value.0), l.value.1))
    else if t[0] == '{' then
      if |t| > 1 && t[1] == '}' then Some((Obj(End), t[2..]))
      else
        var m := ParseFields(t[1..]);
        if m.None? then None else Some((Obj(m.value.0), m.value.1))
    else
      var n := NumberRun(t);
      if IsNumber(t[..n]) then Some((Num(t[..n]), t[n..])) else None
  }

  function ParseElements(t: string): (r: Option<(List, string)>)
    ensures r.Some? ==> |r.value.1| < |t|
    decreases |t|, 1
  {
    var v := Parse(t);
    if v.None? || v.value.1 == [] then None
    else
      var (head, rest) := v.value;
      if rest[0] == ']' then Some((Cons(head, Nil), rest[1..]))
      else if rest[0] != ',' then None
      else
        var l := ParseElements(rest[1..]);
        if l.None? then None else Some((Cons(head, l.value.0), l.value.1))
  }

  function ParseFields(t: string): (r: Option<(Members, string)>)
    ensures r.Some? ==> |r.value.1| < |t|
    decreases |t|, 1
  {
    if t == [] || t[0] != '\"' then None
    else
      var n := ReadString(t[1..]);
      if n.None? || n.value.1 == [] || n.value.1[0] != ':' then None
      else
        var v := Parse(n.value.1[1..]);
        if v.None? || v.value.1 == [] then None
        else
          var (value, rest) := v.value;
          if rest[0] == '}' then Some((Member(n.value.0, value, End), rest[1..]))
          else if rest[0] != ',' then None
          else
            var m := ParseFields(rest[1..]);
            if m.None? then None else Some((Member(n.value.0, value, m.value.0), m.value.1))
  }

  // ----- reading back what was written -----

  lemma HexRoundTrip(n: nat)
    requires n < 16
    ensures HexValue(HexDigit(n)) == Some(n)
  {
  }

  lemma CharRoundTrip(c: char, rest: string)
    ensures var t := EscapeChar(c) + rest;
            t != [] && t[0] != '\"' && ReadChar(t) == Some((c, rest))
  {
    var t := EscapeChar(c) + rest;
    if EscapeChar(c) == [c] {
      assert t[1..] == rest;
    } else if |EscapeChar(c)| == 2 {
      assert t[2..] == rest;
    } else {
      HexCharRoundTrip(c, rest);
    }
  }

  lemma HexCharRoundTrip(c: char, rest: string)
    requires |EscapeChar(c)| > 2
    ensures var t := EscapeChar(c) + rest;
            t != [] && t[0] != '\"' && ReadChar(t) == Some((c, rest))
  {
    var t := EscapeChar(c) + rest;
    var n := c as int;
    HexRoundTrip(n / 16);
    HexRoundTrip(n % 16);
    HexRoundTrip(0);
    var u := t[2..];
    assert u[0] == '0' && u[1] == '0' && u[2] == HexDigit(n / 16) && u[3] == HexDigit(n % 16);
    assert n == n / 16 * 16 + n % 16;
    assert t[6..] == rest;
  }

  lemma {:induction false} StringRoundTrip(s: string, rest: string)
    ensures ReadString(Escape(s) + "\"" + rest) == Some((s, rest))
  {
    hide ReadChar, EscapeChar;
    if s == [] {
      assert Escape(s) + "\"" + rest == "\"" + rest;
      assert ("\"" + rest)[1..] == rest;
    } else {
      var tail := Escape(s[1..]) + "\"" + rest;
      StringRoundTrip(s[1..], rest);
      CharRoundTrip(s[0], tail);
      assert Escape(s) + "\"" + rest == EscapeChar(s[0]) + tail;
      assert [s[0]] + s[1..] == s;
    }
  }

  /** A number lexeme ends where the text goes on with another character. */
  ghost predicate Stops(rest: string) {
    rest == [] || !IsNumChar(rest[0])
  }

  lemma {:induction false} RunStops(s: string, rest: string)
    requires Stops(rest) && forall c <- s :: IsNumChar(c)
    ensures NumberRun(s + rest) == |s|
  {
    if s == [] {
      assert s + rest == rest;
    } else {
      assert (s + rest)[1..] == s[1..] + rest;
      RunStops(s[1..], rest);
    }
  }

  lemma NumberRoundTrip(s: string, rest: string)
    requires Stops(rest) && IsNumber(s)
    ensures Parse(s + rest) == Some((Num(s), rest))
  {
    var t := s + rest;
    RunStops(s, rest);
    assert t[..|s|] == s && t[|s|..] == rest;
    assert t[0] == s[0] && IsNumChar(t[0]);
    assert "null"[0] == 'n' && "true"[0] == 't' && "false"[0] == 'f';
  }

  lemma LiteralRoundTrip(rest: string)
    ensures Parse("null" + rest) == Some((Null, rest))
    ensures Parse("true" + rest) == Some((Bool(true), rest))
    ensures Parse("false" + rest) == Some((Bool(false), rest))
  {
    assert ("null" + rest)[4..] == rest;
    assert ("true" + rest)[4..] == rest && ("true" + rest)[0] == 't';
    assert ("false" + rest)[5..] == rest && ("false" + rest)[0] == 'f';
  }

  lemma Tail(c: char, t: string)
    ensures ([c] + t)[0] == c && ([c] + t)[1..] == t
  {
  }

  lemma QuotedRoundTrip(s: string, rest: string)
    ensures Parse(Quote(s) + rest) == Some((Str(s), rest))
  {
    var u := Escape(s) + "\"" + rest;
    StringRoundTrip(s, rest);
    assert Quote(s) + rest == "\"" + u;
    hide ReadString, Escape, Quote;
    Tail('\"', u);
    ParseStr(u, s, rest);
  }

  lemma ParseStr(u: string, s: string, rest: string)
    requires ReadString(u) == Some((s, rest))
    ensures Parse("\"" + u) == Some((Str(s), rest))
  {
    hide ReadString;
    Tail('\"', u);
  }

  // ----- one step of the parser -----

  lemma ParseArr(body: string, l: List, rest: string)
    requires body != [] && body[0] != ']' && ParseElements(body) == Some((l, rest))
    ensures Parse("[" + body) == Some((Arr(l), rest))
  {
    Tail('[', body);
  }

  lemma ParseObj(body: string, m: Members, rest: string)
    requires body != [] && body[0] != '}' && ParseFields(body) == Some((m, rest))
    ensures Parse("{" + body) == Some((Obj(m), rest))
  {
    Tail('{', body);
  }

  lemma ParseEmpty(rest: string)
    ensures Parse("[]" + rest) == Some((Arr(Nil), rest))
    ensures Parse("{}" + rest) == Some((Obj(End), rest))
  {
    var a, o := "[]" + rest, "{}" + rest;
    assert a[0] == '[' && a[1] == ']' && a[2..] == rest;
    assert o[0] == '{' && o[1] == '}' && o[2..] == rest;
  }

  lemma ParseLastElement(t: string, v: Json, rest: string)
    requires Parse(t) == Some((v, "]" + rest))
    ensures ParseElements(t) == Some((Cons(v, Nil), rest))
  {
    Tail(']', rest);
  }

  lemma ParseNextElement(t: string, v: Json, more: string, l: List, rest: string)
    requires Parse(t) == Some((v, "," + more)) && ParseElements(more) == Some((l, rest))
    ensures ParseElements(t) == Some((Cons(v, l), rest))
  {
    Tail(',', more);
  }

  lemma ParseLastField(u: string, n: string, w: string, v: Json, rest: string)
    requires ReadString(u) == Some((n, ":" + w)) && Parse(w) == Some((v, "}" + rest))
    ensures ParseFields("\"" + u) == Some((Member(n, v, End), rest))
  {
    Tail('\"', u);
    Tail(':', w);
    Tail('}', rest);
  }

  lemma ParseNextField(u: string, n: string, w: string, v: Json, more: string, m: Members, rest: string)
    requires ReadString(u) == Some((n, ":" + w)) && Parse(w) == Some((v, "," + more))
    requires ParseFields(more) == Some((m, rest))
    ensures ParseFields("\"" + u) == Some((Member(n, v, m), rest))
  {
    Tail('\"', u);
    Tail(':', w);
    Tail(',', more);
  }

  // ----- the round trip -----

  /** The first character of a text tells the kinds of values apart. */
  lemma FirstChar(v: Json)
    requires Proper(v)
    ensures Stringify(v) != [] && Stringify(v)[0] !in "]},"
  {
  }

  /** Reading any written text, followed by anything that does not continue a
      number, gives the value back and leaves what follows. */
  lemma {:induction false} RoundTrip(v: Json, rest: string)
    requires Proper(v) && Stops(rest)
    ensures Parse(Stringify(v) + rest) == Some((v, rest))
    decreases v, 0
  {
    hide Parse, ParseElements, ParseFields, ReadString, IsNumber;
    match v
    case Null => LiteralRoundTrip(rest);
    case Bool(_) => LiteralRoundTrip(rest);
    case Num(lexeme) => NumberRoundTrip(lexeme, rest);
    case Str(s) => QuotedRoundTrip(s, rest);
    case Arr(items) =>
      if items == Nil {
        ParseEmpty(rest);
        assert Stringify(v) == "[]";
      } else {
        ElementsRoundTrip(items, rest);
        ArrRoundTrip(items, rest);
      }
    case Obj(members) =>
      if members == End {
        ParseEmpty(rest);
        assert Stringify(v) == "{}";
      } else {
        FieldsRoundTrip(members, rest);
        ObjRoundTrip(members, rest);
      }
  }

  lemma ArrRoundTrip(items: List, rest: string)
    requires items.Cons? && ProperList(items) && ParseElements(Elements(items) + "]" + rest) == Some((items, rest))
    ensures Parse(Stringify(Arr(items)) + rest) == Some((Arr(items), rest))
  {
    hide Parse, ParseElements, Elements, ProperList;
    ElementsStart(items);
    ParseArr(Elements(items) + "]" + rest, items, rest);
    assert Stringify(Arr(items)) + rest == "[" + (Elements(items) + "]" + rest);
  }

  lemma ObjRoundTrip(members: Members, rest: string)
    requires members.Member? && ParseFields(Fields(members) + "}" + rest) == Some((members, rest))
    ensures Parse(Stringify(Obj(members)) + rest) == Some((Obj(members), rest))
  {
    hide Parse, ParseFields, Fields;
    FieldsStart(members);
    ParseObj(Fields(members) + "}" + rest, members, rest);
    assert Stringify(Obj(members)) + rest == "{" + (Fields(members) + "}" + rest);
  }

  lemma ElementsStart(l: List)
    requires l.Cons? && ProperList(l)
    ensures Elements(l) != [] && Elements(l)[0] != ']'
  {
    FirstChar(l.head);
  }

  lemma FieldsStart(m: Members)
    requires m.Member?
    ensures Fields(m) != [] && Fields(m)[0] == '\"'
  {
    assert Field(m.name, m.value)[0] == '\"';
  }

  lemma {:induction false} ElementsRoundTrip(l: List, rest: string)
    requires l.Cons? && ProperList(l)
    ensures ParseElements(Elements(l) + "]" + rest) == Some((l, rest))
    decreases l, 1
  {
    hide Parse, ParseElements, ParseFields, ReadString, IsNumber;
    var text := Stringify(l.head);
    if l.tail == Nil {
      RoundTrip(l.head, "]" + rest);
      ParseLastElement(text + ("]" + rest), l.head, rest);
      assert Elements(l) + "]" + rest == text + ("]" + rest);
    } else {
      var more := Elements(l.tail) + "]" + rest;
      ElementsRoundTrip(l.tail, rest);
      RoundTrip(l.head, "," + more);
      ParseNextElement(text + ("," + more), l.head, more, l.tail, rest);
      assert Elements(l) + "]" + rest == text + ("," + more);
    }
  }

  lemma {:induction false} FieldsRoundTrip(m: Members, rest: string)
    requires m.Member? && ProperMembers(m)
    ensures ParseFields(Fields(m) + "}" + rest) == Some((m, rest))
    decreases m, 1
  {
    hide Parse, ParseElements, ParseFields, ReadString, IsNumber, Stringify, Escape, Field, AfterQuote;
    if m.rest == End {
      RoundTrip(m.value, "}" + rest);
      NameRoundTrip(m.name, m.value, "}" + rest);
      ParseLastField(AfterQuote(m.name, m.value, "}" + rest), m.name, Stringify(m.value) + ("}" + rest), m.value, rest);
      FieldsText(m, rest);
    } else {
      var more := Fields(m.rest) + "}" + rest;
      FieldsRoundTrip(m.rest, rest);
      RoundTrip(m.value, "," + more);
      NameRoundTrip(m.name, m.value, "," + more);
      ParseNextField(AfterQuote(m.name, m.value, "," + more), m.name, Stringify(m.value) + ("," + more), m.value, more,
                     m.rest, rest);
      FieldsText(m, rest);
    }
  }

  lemma FieldsText(m: Members, rest: string)
    requires m.Member?
    ensures Fields(m) + "}" + rest ==
            Field(m.name, m.value) + if m.rest == End then "}" + rest else "," + (Fields(m.rest) + "}" + rest)
  {
    hide Field;
  }

  /** A member's text after its first quotation mark. */
  function AfterQuote(name: string, v: Json, after: string): string {
    Escape(name) + "\"" + (":" + (Stringify(v) + after))
  }

  lemma NameRoundTrip(name: string, v: Json, after: string)
    ensures ReadString(AfterQuote(name, v, after)) == Some((name, ":" + (Stringify(v) + after)))
    ensures Field(name, v) + after == "\"" + AfterQuote(name, v, after)
  {
    StringRoundTrip(name, ":" + (Stringify(v) + after));
    Regroup(Escape(name), Stringify(v), after);
  }

  lemma Regroup(e: string, t: string, after: string)
    ensures "\"" + e + "\"" + ":" + t + after == "\"" + (e + "\"" + (":" + (t + after)))
  {
  }

  /** So a text stands for one value only. */
  lemma StringifyIsInjective(v: Json, w: Json)
    requires Proper(v) && Proper(w) && Stringify(v) == Stringify(w)
    ensures v == w
  {
    RoundTrip(v, "");
    RoundTrip(w, "");
    assert Stringify(v) + "" == Stringify(v);
  }

  // ----- what RFC 8259 prescribes -----

  /** The literal names of section 3 and the escapes of section 7. */
  lemma TextsOfTheStandard()
    ensures Stringify(Null) == "null" && Stringify(Bool(true)) == "true" && Stringify(Bool(false)) == "false"
    ensures Stringify(Arr(Nil)) == "[]" && Stringify(Obj(End)) == "{}"
    ensures EscapeChar('\"') == "\\\"" && EscapeChar('\\') == "\\\\" && EscapeChar('\n') == "\\n"
    ensures EscapeChar('\r') == "\\r" && EscapeChar('\t') == "\\t" && EscapeChar(8 as char) == "\\b" && EscapeChar(12 as char) == "\\f"
    ensures EscapeChar(1 as char) == "\\u0001" && EscapeChar(31 as char) == "\\u001f"
  {
  }

  /** No control character gets into the text of a string. */
  lemma {:induction false} EscapedIsPrintable(s: string)
    ensures forall c <- Escape(s) :: c >= ' '
  {
    if s != [] {
      EscapedIsPrintable(s[1..]);
      OneIsPrintable(s[0]);
    }
  }

  lemma OneIsPrintable(c: char)
    ensures forall d <- EscapeChar(c) :: d >= ' '
  {
    if c < ' ' {
      HexIsPrintable(c as int / 16);
      HexIsPrintable(c as int % 16);
    }
  }

  lemma HexIsPrintable(n: nat)
    requires n < 16
    ensures HexDigit(n) >= ' '
  {
  }
}
