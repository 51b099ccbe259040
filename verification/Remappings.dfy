/** Import remappings: reading them (hardhat-foundry's foundry.ts) and applying
    them to a source name (remappings.ts). */
module Remappings {
  import opened Prelude
  import opened ContractNames

  // ----- applying -----

  /** `String.replace` expands `$$`, `$&`, `` $` `` and `$'` in its replacement;
      here the match is a prefix, so nothing comes before it. */
  function Expand(replacement: string, matched: string, after: string): string {
    if |replacement| < 2 then replacement
    else if replacement[0] != '$' then [replacement[0]] + Expand(replacement[1..], matched, after)
    else if replacement[1] == '$' then "$" + Expand(replacement[2..], matched, after)
    else if replacement[1] == '&' then matched + Expand(replacement[2..], matched, after)
    else if replacement[1] == '`' then Expand(replacement[2..], matched, after)
    else if replacement[1] == '\'' then after + Expand(replacement[2..], matched, after)
    else [replacement[0]] + Expand(replacement[1..], matched, after)
  }

  /** No dollar sign is followed by a character that makes it special. */
  predicate NothingToExpand(replacement: string) {
    forall i :: 0 <= i < |replacement| - 1 && replacement[i] == '$' ==> replacement[i + 1] !in "$&`'"
  }

  lemma {:induction false} ExpandPlain(replacement: string, matched: string, after: string)
    requires NothingToExpand(replacement)
    ensures Expand(replacement, matched, after) == replacement
  {
    if |replacement| >= 2 {
      assert forall i :: 0 <= i < |replacement| - 2 ==> replacement[1..][i] == replacement[i + 1];
      ExpandPlain(replacement[1..], matched, after);
      assert [replacement[0]] + replacement[1..] == replacement;
    }
  }

  lemma {:induction false} ExpandShrinks(replacement: string)
    ensures |Expand(replacement, "", "")| <= |replacement|
    ensures !NothingToExpand(replacement) ==> |Expand(replacement, "", "")| < |replacement|
  {
    if |replacement| >= 2 {
      assert forall i :: 0 <= i < |replacement| - 2 ==> replacement[1..][i] == replacement[i + 1];
      ExpandShrinks(replacement[1..]);
      ExpandShrinks(replacement[2..]);
    }
  }

  /** A target is used as it is written, for every match, exactly when it has
      nothing to expand. */
  lemma ExpandExactly(replacement: string)
    ensures (forall matched, after :: Expand(replacement, matched, after) == replacement) <==> NothingToExpand(replacement)
  {
    ExpandShrinks(replacement);
    if NothingToExpand(replacement) {
      forall matched, after
        ensures Expand(replacement, matched, after) == replacement
      {
        ExpandPlain(replacement, matched, after);
      }
    }
  }

  /** What the first special dollar sign stands for: `$$` for itself, `$&` for the match,
      `$'` for what follows the match, and `` $` `` for what comes before it, nothing. */
  lemma {:induction false} ExpandAt(plain: string, c: char, rest: string, matched: string, after: string)
    requires '$' !in plain && c in "$&`'"
    ensures Expand(plain + ['$', c] + rest, matched, after) ==
            plain + (if c == '$' then "$" else if c == '&' then matched else if c == '\'' then after else "") +
            Expand(rest, matched, after)
  {
    var s := plain + ['$', c] + rest;
    if plain == "" {
      assert s == ['$', c] + rest;
      ExpandFirst(c, rest, matched, after);
    } else {
      ExpandAt(plain[1..], c, rest, matched, after);
      assert s[0] == plain[0] && plain[0] in plain;
      assert s[1..] == plain[1..] + ['$', c] + rest;
      assert Expand(s, matched, after) == [s[0]] + Expand(s[1..], matched, after);
      hide Expand;
      OneBefore(plain, if c == '$' then "$" else if c == '&' then matched else if c == '\'' then after else "",
                Expand(rest, matched, after));
    }
  }

  lemma ExpandFirst(c: char, rest: string, matched: string, after: string)
    requires c in "$&`'"
    ensures Expand(['$', c] + rest, matched, after) ==
            (if c == '$' then "$" else if c == '&' then matched else if c == '\'' then after else "") +
            Expand(rest, matched, after)
  {
    var s := ['$', c] + rest;
    assert s[0] == '$' && s[1] == c && s[2..] == rest;
    assert "" + Expand(rest, matched, after) == Expand(rest, matched, after);
  }

  lemma OneBefore(plain: string, value: string, more: string)
    requires plain != ""
    ensures [plain[0]] + (plain[1..] + value + more) == plain + value + more
  {
  }

  /** The target `lib/$&` for the prefix `a/` gives `lib/a/`. */
  lemma MatchIsExpanded(after: string)
    ensures Expand("lib/$&", "a/", after) == "lib/a/"
  {
    assert "lib/$&"[1..] == "ib/$&" && "ib/$&"[1..] == "b/$&" && "b/$&"[1..] == "/$&" && "/$&"[1..] == "$&";
    assert "$&"[2..] == "";
    assert Expand("$&", "a/", after) == "a/";
    assert Expand("/$&", "a/", after) == "/a/";
    assert Expand("b/$&", "a/", after) == "b/a/";
    assert Expand("ib/$&", "a/", after) == "ib/a/";
  }

  /** The position of the first occurrence, -1 if there is none. */
  function IndexOf(s: string, t: string): int {
    if StartsWith(s, t) then 0
    else if s == "" then -1
    else
      var i := IndexOf(s[1..], t);
      if i == -1 then -1 else i + 1
  }

  /** `s.replace(t, replacement)` for a match that can only be at the start. */
  function ReplacePrefix(s: string, t: string, replacement: string): string
    requires IndexOf(s, t) == 0
  {
    Expand(replacement, t, s[|t|..]) + s[|t|..]
  }

  /** `from` is the longest remapped prefix of the name. */
  ghost predicate Longest(remappings: map<string, string>, sourceName: string, from: string) {
    && from in remappings && StartsWith(sourceName, from)
    && forall other <- remappings :: StartsWith(sourceName, other) ==> |other| <= |from|
  }

  ghost predicate Unmatched(remappings: map<string, string>, sourceName: string) {
    forall from <- remappings :: !StartsWith(sourceName, from)
  }

  /** `applyRemappings`.  `entries` lists the keys in the object's own order. */
  method ApplyRemappings(remappings: map<string, string>, entries: seq<string>, sourceName: string) returns (remapped: string)
    requires forall from :: from in entries <==> from in remappings
    ensures Unmatched(remappings, sourceName) ==> remapped == sourceName
    ensures forall from :: Longest(remappings, sourceName, from) ==>
              remapped == Expand(remappings[from], from, sourceName[|from|..]) + sourceName[|from|..]
  {
    var selectedFrom, selectedTarget := "", "";
    var i := 0;
    while i < |entries|
      invariant 0 <= i <= |entries|
      invariant StartsWith(sourceName, selectedFrom)
      invariant forall j :: 0 <= j < i && StartsWith(sourceName, entries[j]) ==>
                  |entries[j]| <= |selectedFrom| && selectedFrom in remappings && remappings[selectedFrom] == selectedTarget
      invariant (forall j :: 0 <= j < i ==> !StartsWith(sourceName, entries[j])) ==> selectedFrom == selectedTarget == ""
    {
      var from := entries[i];
      if StartsWith(sourceName, from) && |from| >= |selectedFrom| {
        selectedFrom, selectedTarget := from, remappings[from];
      }
      i := i + 1;
    }
    forall from | Longest(remappings, sourceName, from)
      ensures from == selectedFrom && remappings[from] == selectedTarget
    {
      var j :| 0 <= j < |entries| && entries[j] == from;
    }
    remapped := ReplacePrefix(sourceName, selectedFrom, selectedTarget);
  }

  /** A name some prefix matches has exactly one longest one, whatever the order. */
  lemma {:induction false} OneLongest(remappings: map<string, string>, sourceName: string) returns (from: string)
    requires !Unmatched(remappings, sourceName)
    ensures Longest(remappings, sourceName, from)
    ensures forall other :: Longest(remappings, sourceName, other) ==> other == from
    decreases |remappings|
  {
    var one :| one in remappings && StartsWith(sourceName, one);
    var rest := remappings - {one};
    assert |rest| < |remappings| by {
      assert rest.Keys == remappings.Keys - {one};
    }
    if Unmatched(rest, sourceName) {
      from := one;
    } else {
      var other := OneLongest(rest, sourceName);
      from := if |one| < |other| then other else one;
      assert forall f <- remappings :: f == one || f in rest;
    }
  }

  // ----- reading -----

  datatype Line = Blank | Context | NoTarget | Rule(from: string, target: string)

  /** White space as `trim` sees it. */
  predicate IsSpace(c: char) {
    var n := c as int;
    9 <= n <= 13 || n in {0x20, 0xA0, 0x1680, 0x2028, 0x2029, 0x202F, 0x205F, 0x3000, 0xFEFF} || 0x2000 <= n <= 0x200A
  }

  function Classify(line: string): Line {
    if forall i :: 0 <= i < |line| ==> IsSpace(line[i]) then Blank
    else if ':' in line then Context
    else if '=' !in line then NoTarget
    else
      SplitCount(line, '=');
      var fromTo := Split(line, '=');
      Rule(fromTo[0], fromTo[1])
  }

  predicate Bad(line: string) {
    Classify(line).Context? || Classify(line).NoTarget?
  }

  /** The white space and line terminators of ECMAScript, one by one. */
  lemma WhiteSpaceExactly(c: char)
    ensures IsSpace(c) <==> c as int in {
      0x09, 0x0A, 0x0B, 0x0C, 0x0D, 0x20, 0xA0, 0x1680, 0x2000, 0x2001, 0x2002, 0x2003, 0x2004, 0x2005, 0x2006, 0x2007,
      0x2008, 0x2009, 0x200A, 0x2028, 0x2029, 0x202F, 0x205F, 0x3000, 0xFEFF
    }
  {
  }

  predicate IsBlank(line: string) {
    forall i :: 0 <= i < |line| ==> IsSpace(line[i])
  }

  /** What a line is: skipped when it holds nothing but white space; an error with a
      colon, or without an equals sign; otherwise `from`, what comes before the first
      equals sign, and the target, what stands between that and the next one. */
  lemma LineExactly(line: string, from: string, target: string)
    ensures Classify(line) == Blank <==> IsBlank(line)
    ensures Bad(line) <==> !IsBlank(line) && (':' in line || '=' !in line)
    ensures Classify(line) == Rule(from, target) <==>
            !IsBlank(line) && ':' !in line && '=' !in from && '=' !in target &&
            (line == from + "=" + target || exists rest :: line == from + "=" + target + "=" + rest)
  {
    hide IsSpace;
    if !IsBlank(line) && ':' !in line && '=' in line {
      SplitCount(line, '=');
      FirstTwo(line, '=', from, target);
    }
    if line == from + "=" + target || exists rest :: line == from + "=" + target + "=" + rest {
      assert line[|from|] == '=';
    }
  }

  lemma BadExactly(line: string)
    ensures Bad(line) <==> !IsBlank(line) && (':' in line || '=' !in line)
  {
    LineExactly(line, "", "");
  }

  lemma {:induction false} FirstPart(s: string, c: char, a: string)
    ensures Split(s, c)[0] == a <==> c !in a && (s == a || exists rest :: s == a + [c] + rest)
    ensures |Split(s, c)| > 1 ==> s == Split(s, c)[0] + [c] + Join(Split(s, c)[1..], c)
    ensures |Split(s, c)| == 1 ==> s == Split(s, c)[0] && c !in s
  {
    SplitCount(s, c);
    JoinSplit(s, c);
    var parts := Split(s, c);
    SplitHead(s, c);
    if |parts| > 1 {
      assert s == parts[0] + [c] + Join(parts[1..], c);
    }
    if c !in a && (s == a || exists rest :: s == a + [c] + rest) {
      if s == a {
        SplitPlain(a, c);
      } else {
        var rest :| s == a + [c] + rest;
        SplitFirst(a, c, rest);
      }
    }
  }

  lemma FirstTwo(s: string, c: char, a: string, b: string)
    requires c in s && |Split(s, c)| > 1
    ensures Split(s, c)[0] == a && Split(s, c)[1] == b <==>
            c !in a && c !in b && (s == a + [c] + b || exists rest :: s == a + [c] + b + [c] + rest)
  {
    var parts := Split(s, c);
    FirstPart(s, c, a);
    RestParts(s, c);
    var t := Join(parts[1..], c);
    FirstPart(t, c, b);
    assert s == parts[0] + [c] + t && Split(t, c)[0] == parts[1];
    hide Split, Join;
    if parts[0] == a && parts[1] == b {
      if t != b {
        var rest :| t == b + [c] + rest;
        Regroup(a, [c], b, [c], rest);
      }
    }
    if c !in a && c !in b && (s == a + [c] + b || exists rest :: s == a + [c] + b + [c] + rest) {
      SecondPart(s, c, a, b);
    }
  }

  lemma Regroup(a: string, b: string, c: string, d: string, e: string)
    ensures a + b + (c + d + e) == a + b + c + d + e
  {
  }

  lemma SecondPart(s: string, c: char, a: string, b: string)
    requires c !in a && c !in b && (s == a + [c] + b || exists rest :: s == a + [c] + b + [c] + rest)
    ensures |Split(s, c)| > 1 && Split(s, c)[0] == a && Split(s, c)[1] == b
  {
    if s == a + [c] + b {
      SplitFirst(a, c, b);
      SplitPlain(b, c);
    } else {
      var rest :| s == a + [c] + b + [c] + rest;
      Regroup(a, [c], b, [c], rest);
      SplitFirst(a, c, b + [c] + rest);
      SplitFirst(b, c, rest);
    }
  }

  lemma RestParts(s: string, c: char)
    requires |Split(s, c)| > 1
    ensures Split(Join(Split(s, c)[1..], c), c) == Split(s, c)[1..]
  {
    PartsArePlain(s, c);
    SplitJoin(Split(s, c)[1..], c);
  }

  lemma {:induction false} PartsArePlain(s: string, c: char)
    ensures forall i :: 0 <= i < |Split(s, c)| ==> c !in Split(s, c)[i]
  {
    if s != "" {
      PartsArePlain(s[1..], c);
    }
  }

  /** `split(/\r\n|\r|\n/)`. */
  function Lines(text: string): (lines: seq<string>)
    ensures lines != []
  {
    if text == "" then [""]
    else if text[0] == '\r' && |text| > 1 && text[1] == '\n' then [""] + Lines(text[2..])
    else if text[0] == '\r' || text[0] == '\n' then [""] + Lines(text[1..])
    else
      var rest := Lines(text[1..]);
      [[text[0]] + rest[0]] + rest[1..]
  }

  /** What lines without a bad one define. */
  function Rules(lines: seq<string>): map<string, string> {
    if lines == [] then map[]
    else
      var rules, last := Rules(lines[..|lines| - 1]), Classify(lines[|lines| - 1]);
      if last.Rule? && last.from !in rules && !Inherited(last.from) then rules[last.from := last.target] else rules
  }

  datatype ParseResult =
    | Parsed(remappings: map<string, string>)
    | ContextNotAllowed(line: string)
    | TargetMissing(line: string)

  ghost predicate FirstBad(lines: seq<string>, i: nat) {
    i < |lines| && Bad(lines[i]) && forall j :: 0 <= j < i ==> !Bad(lines[j])
  }

  /** `parseRemappings`. */
  method ParseRemappings(remappingsTxt: string) returns (r: ParseResult)
    ensures r.Parsed? <==> forall line <- Lines(remappingsTxt) :: IsBlank(line) || (':' !in line && '=' in line)
    ensures r.Parsed? ==> r.remappings == Rules(Lines(remappingsTxt))
    ensures forall i: nat :: FirstBad(Lines(remappingsTxt), i) ==>
              r == if ':' in Lines(remappingsTxt)[i] then ContextNotAllowed(Lines(remappingsTxt)[i])
                   else TargetMissing(Lines(remappingsTxt)[i])
  {
    var lines := Lines(remappingsTxt);
    var remappings: map<string, string> := map[];
    var i := 0;
    hide *;
    NoRules(lines);
    while i < |lines|
      invariant 0 <= i <= |lines|
      invariant forall j :: 0 <= j < i ==> !Bad(lines[j])
      invariant remappings == Rules(lines[..i])
    {
      var line := lines[i];
      BadExactly(line);
      RulesSnoc(lines, i);
      BlankIs(line);
      if forall k :: 0 <= k < |line| ==> IsSpace(line[k]) {
        i := i + 1;
        continue;
      }
      if ':' in line {
        BadLineFound(lines, i);
        return ContextNotAllowed(line);
      }
      if '=' !in line {
        BadLineFound(lines, i);
        return TargetMissing(line);
      }
      SplitCount(line, '=');
      var fromTo := Split(line, '=');
      if fromTo[0] in remappings || Inherited(fromTo[0]) {
        i := i + 1;
        continue;
      }
      remappings := remappings[fromTo[0] := fromTo[1]];
      i := i + 1;
    }
    assert lines[..i] == lines;
    NoneIsBad(lines);
    r := Parsed(remappings);
  }

  lemma NoRules(lines: seq<string>)
    ensures Rules(lines[..0]) == map[]
  {
  }

  lemma BlankIs(line: string)
    ensures IsBlank(line) <==> forall k :: 0 <= k < |line| ==> IsSpace(line[k])
  {
    hide IsSpace;
  }

  lemma RulesSnoc(lines: seq<string>, i: nat)
    requires i < |lines|
    ensures IsBlank(lines[i]) ==> Rules(lines[..i + 1]) == Rules(lines[..i])
    ensures !IsBlank(lines[i]) && ':' !in lines[i] && '=' in lines[i] ==>
              var rules, fromTo := Rules(lines[..i]), Split(lines[i], '=');
              |fromTo| > 1 &&
              Rules(lines[..i + 1]) ==
                if fromTo[0] in rules || Inherited(fromTo[0]) then rules else rules[fromTo[0] := fromTo[1]]
  {
    assert lines[..i + 1][..i] == lines[..i] && lines[..i + 1][i] == lines[i];
    SplitCount(lines[i], '=');
    hide IsSpace, Split, Inherited;
  }

  lemma BadLineFound(lines: seq<string>, i: nat)
    requires i < |lines| && Bad(lines[i]) && forall j :: 0 <= j < i ==> !Bad(lines[j])
    ensures forall k: nat :: FirstBad(lines, k) ==> k == i
    ensures exists line <- lines :: !(IsBlank(line) || (':' !in line && '=' in line))
  {
    hide Bad;
    BadExactly(lines[i]);
    assert lines[i] in lines;
  }

  lemma NoneIsBad(lines: seq<string>)
    requires forall j :: 0 <= j < |lines| ==> !Bad(lines[j])
    ensures forall line <- lines :: IsBlank(line) || (':' !in line && '=' in line)
    ensures forall k: nat :: !FirstBad(lines, k)
  {
    hide Bad, IsBlank;
    forall line | line in lines
      ensures IsBlank(line) || (':' !in line && '=' in line)
    {
      BadExactly(line);
      var j :| 0 <= j < |lines| && lines[j] == line;
      assert !Bad(lines[j]);
    }
  }

  // ----- the first line wins -----

  predicate Defines(line: string, from: string) {
    Classify(line).Rule? && Classify(line).from == from
  }

  ghost predicate FirstDefinition(lines: seq<string>, from: string, i: nat) {
    i < |lines| && Defines(lines[i], from) && forall j :: 0 <= j < i ==> !Defines(lines[j], from)
  }

  /** A prefix is remapped if and only if a line defines it and no object inherits
      it, and then to the target of the first such line. */
  lemma {:induction false} FirstLineWins(lines: seq<string>, from: string)
    ensures from in Rules(lines) <==> !Inherited(from) && exists line <- lines :: Defines(line, from)
    ensures forall i: nat :: FirstDefinition(lines, from, i) && !Inherited(from) ==>
              from in Rules(lines) && Rules(lines)[from] == Classify(lines[i]).target
  {
    hide Classify, Inherited;
    if lines != [] {
      var rest, last := lines[..|lines| - 1], lines[|lines| - 1];
      FirstLineWins(rest, from);
      DefinesSnoc(rest, last, from);
      assert lines == rest + [last];
      assert Defines(last, from) <==> Classify(last).Rule? && Classify(last).from == from;
      hide Defines;
      forall i: nat | FirstDefinition(lines, from, i) && !Inherited(from)
        ensures from in Rules(lines) && Rules(lines)[from] == Classify(lines[i]).target
      {
        if i < |rest| {
          assert FirstDefinition(rest, from, i);
        } else {
          assert forall line <- rest :: !Defines(line, from);
        }
      }
    }
  }

  lemma DefinesSnoc(rest: seq<string>, last: string, from: string)
    ensures (exists line <- rest + [last] :: Defines(line, from)) <==> (exists line <- rest :: Defines(line, from)) || Defines(last, from)
  {
    hide Defines;
    if line :| line in rest && Defines(line, from) {
      assert line in rest + [last];
    } else if Defines(last, from) {
      assert last in rest + [last];
    }
  }

  lemma {:induction false} DefinedSomewhereFirst(lines: seq<string>, from: string) returns (i: nat)
    requires exists line <- lines :: Defines(line, from)
    ensures FirstDefinition(lines, from, i)
  {
    hide Defines;
    var rest, last := lines[..|lines| - 1], lines[|lines| - 1];
    assert lines == rest + [last];
    if exists line <- rest :: Defines(line, from) {
      i := DefinedSomewhereFirst(rest, from);
    } else {
      i := |rest|;
    }
  }

  /** The line `constructor=lib` is read, and then ignored. */
  lemma ConstructorIsIgnored()
    ensures Classify("constructor=lib") == Rule("constructor", "lib") && Rules(["constructor=lib"]) == map[]
  {
    assert "constructor" + "=" + "lib" == "constructor=lib";
    TargetIsKeptExactly("constructor", "lib");
    assert ["constructor=lib"][..0] == [];
    hide Classify;
  }

  /** A line that applies to the name. */
  ghost predicate Matches(line: string, sourceName: string) {
    Classify(line).Rule? && !Inherited(Classify(line).from) && StartsWith(sourceName, Classify(line).from)
  }

  /** Reading, then applying: the prefix replaced is the longest any line has for
      the name, and its target is that of the first line with that prefix. */
  lemma LongestIsFirstDefined(lines: seq<string>, sourceName: string, from: string) returns (i: nat)
    requires Longest(Rules(lines), sourceName, from)
    ensures FirstDefinition(lines, from, i) && Matches(lines[i], sourceName)
    ensures Rules(lines)[from] == Classify(lines[i]).target
    ensures forall line <- lines :: Matches(line, sourceName) ==> |Classify(line).from| <= |from|
  {
    hide Rules, Inherited;
    FirstLineWins(lines, from);
    i := DefinedSomewhereFirst(lines, from);
    hide Classify;
    forall line | line in lines && Matches(line, sourceName)
      ensures |Classify(line).from| <= |from|
    {
      FirstLineWins(lines, Classify(line).from);
      assert Defines(line, Classify(line).from);
    }
  }

  /** A name is left alone when no line applies to it, and only then is it unmatched. */
  lemma UnmatchedExactlyWhen(lines: seq<string>, sourceName: string)
    ensures Unmatched(Rules(lines), sourceName) <==> forall line <- lines :: !Matches(line, sourceName)
  {
    hide Rules, Inherited, Classify;
    if line :| line in lines && Matches(line, sourceName) {
      FirstLineWins(lines, Classify(line).from);
      assert Defines(line, Classify(line).from);
    } else if from :| from in Rules(lines) && StartsWith(sourceName, from) {
      FirstLineWins(lines, from);
    }
  }

  /** Lines that agree wherever they define the same prefix. */
  ghost predicate Agreeing(lines: seq<string>) {
    forall a <- lines, b <- lines :: Classify(a).Rule? && Classify(b).Rule? && Classify(a).from == Classify(b).from ==>
      Classify(a) == Classify(b)
  }

  lemma SameRule(lines: seq<string>, other: seq<string>, from: string)
    requires Agreeing(lines) && forall line :: line in lines <==> line in other
    ensures from in Rules(lines) <==> from in Rules(other)
    ensures from in Rules(lines) ==> Rules(lines)[from] == Rules(other)[from]
  {
    hide Classify, Inherited, Rules;
    FirstLineWins(lines, from);
    FirstLineWins(other, from);
    if from in Rules(lines) {
      var i := DefinedSomewhereFirst(lines, from);
      var j := DefinedSomewhereFirst(other, from);
      assert lines[i] in lines && other[j] in lines;
    }
  }

  /** Reordering, repeating or joining lines changes nothing while they agree. */
  lemma OrderIsIrrelevant(lines: seq<string>, other: seq<string>)
    requires Agreeing(lines) && forall line :: line in lines <==> line in other
    ensures Rules(lines) == Rules(other)
  {
    hide Agreeing, Rules;
    forall from: string
      ensures from in Rules(lines) <==> from in Rules(other)
      ensures from in Rules(lines) ==> Rules(lines)[from] == Rules(other)[from]
    {
      SameRule(lines, other, from);
    }
  }

  /** But when two lines disagree, moving the later one to the front shows. */
  lemma OrderMatters(lines: seq<string>, i: nat, j: nat, from: string)
    requires FirstDefinition(lines, from, i) && j < |lines| && Defines(lines[j], from) && !Inherited(from)
    requires Classify(lines[i]).target != Classify(lines[j]).target
    ensures Rules([lines[j]] + lines[..j] + lines[j + 1..]) != Rules(lines)
  {
    var moved := [lines[j]] + lines[..j] + lines[j + 1..];
    assert moved[0] == lines[j];
    hide Classify, Inherited, Rules;
    assert FirstDefinition(moved, from, 0);
    FirstLineWins(lines, from);
    FirstLineWins(moved, from);
  }

  // ----- writing and reading back -----

  /** A line `from=target` is read as such exactly when the target holds no `=`;
      otherwise the rest of the target is dropped. */
  lemma TargetIsKeptExactly(from: string, target: string)
    requires '=' !in from && ':' !in from && ':' !in target
    ensures Classify(from + "=" + target).Rule? && Classify(from + "=" + target).from == from
    ensures Classify(from + "=" + target).target == target <==> '=' !in target
  {
    var line := from + "=" + target;
    assert line[|from|] == '=' && !IsSpace('=');
    assert forall c :: c in line ==> c in from || c == '=' || c in target;
    SplitFirst(from, '=', target);
    assert Split(line, '=') == [from] + Split(target, '=');
    SplitHead(target, '=');
  }

  lemma {:induction false} SplitHead(s: string, c: char)
    ensures Split(s, c)[0] == s <==> c !in s
    ensures c !in Split(s, c)[0]
  {
    if s != "" {
      SplitHead(s[1..], c);
      assert s == [s[0]] + s[1..];
    }
  }

  predicate OneLine(s: string) {
    '\r' !in s && '\n' !in s
  }

  function Unlines(lines: seq<string>, ending: string): string
    requires lines != []
  {
    if |lines| == 1 then lines[0] else lines[0] + (ending + Unlines(lines[1..], ending))
  }

  lemma {:induction false} LinesOfOne(line: string)
    requires OneLine(line)
    ensures Lines(line) == [line]
  {
    if line != "" {
      LinesOfOne(line[1..]);
      assert [line[0]] + line[1..] == line;
    }
  }

  lemma LinesAtEnding(ending: string, rest: string)
    requires ending == "\n" || ending == "\r\n" || (ending == "\r" && !StartsWith(rest, "\n"))
    ensures Lines(ending + rest) == [""] + Lines(rest)
  {
    var text := ending + rest;
    if ending == "\r\n" {
      assert text[0] == '\r' && text[1] == '\n' && text[2..] == rest;
    } else {
      assert text[0] == ending[0] && text[1..] == rest;
      assert |rest| > 0 ==> text[1] == rest[0];
      if ending == "\r" && |rest| > 0 { assert rest[..1] == [rest[0]]; }
    }
  }

  lemma {:induction false} LinesAfter(line: string, tail: string)
    requires OneLine(line) && Lines(tail)[0] == ""
    ensures Lines(line + tail) == [line] + Lines(tail)[1..]
  {
    if line == "" {
      assert line + tail == tail;
    } else {
      LinesAfter(line[1..], tail);
      var text := line + tail;
      assert text[0] == line[0] && text[1..] == line[1..] + tail;
      assert [line[0]] + line[1..] == line;
    }
  }

  /** Whichever line ending a text is written with, its lines are read back. */
  lemma {:induction false} LineEndingsAreIrrelevant(lines: seq<string>, ending: string)
    requires lines != [] && forall line <- lines :: OneLine(line)
    requires ending in ["\n", "\r\n", "\r"]
    ensures Lines(Unlines(lines, ending)) == lines
    ensures !StartsWith(Unlines(lines, ending), "\n") || ending == "\n"
  {
    assert lines[0] in lines;
    if |lines| == 1 {
      LinesOfOne(lines[0]);
      NoEarlyNewline(lines[0], "");
      assert lines[0] + "" == lines[0];
    } else {
      LineEndingsAreIrrelevant(lines[1..], ending);
      var rest := Unlines(lines[1..], ending);
      if ending != "\n" {
        assert (ending + rest)[0] == '\r';
        NoEarlyNewline(lines[0], ending + rest);
      }
      LinesAtEnding(ending, rest);
      LinesAfter(lines[0], ending + rest);
      assert [lines[0]] + lines[1..] == lines;
    }
  }

  lemma NoEarlyNewline(line: string, tail: string)
    requires OneLine(line) && !StartsWith(tail, "\n")
    ensures !StartsWith(line + tail, "\n")
  {
    if line != "" {
      var text := line + tail;
      assert text[0] == line[0] && text[..1] == [text[0]];
    } else {
      assert line + tail == tail;
    }
  }
}
