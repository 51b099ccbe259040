/** `saveBuildInfo` of artifacts.ts writes one JSON object piece by piece.  The
    text is that of one `JSON.stringify` call, so parsing it gives the build info back. */
module BuildInfoWriter {
  import opened Prelude
  import opened Json

  /** A build info.  `input` and the members of `output` are whatever the compiler
      was given and answered. */
  datatype BuildInfo = BuildInfo(
    id: string, format: string, solcVersion: string, solcLongVersion: string, input: Json, output: Members)

  /** The members before `output`, in the order `_createBuildInfo` makes them. */
  function Head(b: BuildInfo): Members {
    Member("id", Str(b.id),
    Member("_format", Str(b.format),
    Member("solcVersion", Str(b.solcVersion),
    Member("solcLongVersion", Str(b.solcLongVersion),
    Member("input", b.input, End)))))
  }

  function Lookup(m: Members, name: string): Option<Json> {
    match m
    case End => None
    case Member(n, v, rest) => if n == name then Some(v) else Lookup(rest, name)
  }

  function Append(a: Members, b: Members): Members {
    match a
    case End => b
    case Member(n, v, rest) => Member(n, v, Append(rest, b))
  }

  /** `{...output, sources: undefined, contracts: undefined}` as it is serialised. */
  function WithoutSourcesAndContracts(m: Members): Members {
    match m
    case End => End
    case Member(n, v, rest) =>
      var r := WithoutSourcesAndContracts(rest);
      if n == "sources" || n == "contracts" then r else Member(n, v, r)
  }

  /** The types promise an object, null or nothing. */
  predicate Entries?(v: Option<Json>) {
    v.None? || v.value.Null? || v.value.Obj?
  }

  /** `Object.entries(v ?? {})`. */
  function EntriesOf(v: Option<Json>): Members
    requires Entries?(v)
  {
    if v.Some? && v.value.Obj? then v.value.members else End
  }

  predicate WellTyped(b: BuildInfo) {
    && Entries?(Lookup(b.output, "sources")) && Entries?(Lookup(b.output, "contracts"))
    && Proper(b.input) && ProperMembers(b.output)
  }

  /** The output with `sources` and `contracts` last, empty when they are missing. */
  function OutputRearranged(output: Members): Members
    requires Entries?(Lookup(output, "sources")) && Entries?(Lookup(output, "contracts"))
  {
    Append(WithoutSourcesAndContracts(output),
           Member("sources", Obj(EntriesOf(Lookup(output, "sources"))),
           Member("contracts", Obj(EntriesOf(Lookup(output, "contracts"))), End)))
  }

  /** The value whose serialisation the file is. */
  function Rearranged(b: BuildInfo): Json
    requires WellTyped(b)
  {
    Obj(Append(Head(b), Member("output", Obj(OutputRearranged(b.output)), End)))
  }

  lemma {:induction false} FieldsAppend(a: Members, b: Members)
    requires a.Member? && b.Member?
    ensures Fields(Append(a, b)) == Fields(a) + "," + Fields(b)
  {
    if a.rest.Member? {
      FieldsAppend(a.rest, b);
      assert Append(a, b).rest == Append(a.rest, b) && Append(a.rest, b).Member?;
    }
  }

  /** Dropping the closing brace of an object's text. */
  lemma WithoutBrace(m: Members)
    ensures var t := Stringify(Obj(m)); t != "" && t[..|t| - 1] == "{" + Fields(m)
    ensures |Stringify(Obj(m))| > 2 <==> m.Member?
  {
    var t := Stringify(Obj(m));
    assert t == "{" + Fields(m) + "}";
    if m.Member? {
      FieldsStart(m);
    }
  }

  /** Text already written for the members `done`, then those still to come. */
  ghost function Continued(isFirst: bool, m: Members): string {
    if m == End then "" else (if isFirst then "" else ",") + Fields(m)
  }

  lemma FieldIs(name: string, v: Json)
    ensures Field(name, v) == Quote(name) + ":" + Stringify(v)
  {
    hide Quote, Stringify;
  }

  lemma FieldsAre(m: Members)
    requires m.Member?
    ensures Fields(m) == if m.rest == End then Field(m.name, m.value) else Field(m.name, m.value) + "," + Fields(m.rest)
  {
    hide Field;
  }

  lemma Comma(field: string, rest: string)
    ensures field + "" == field && field + "," + rest == field + ("," + rest)
  {
  }

  lemma FieldsStep(m: Members)
    requires m.Member?
    ensures Fields(m) == Quote(m.name) + ":" + Stringify(m.value) + Continued(false, m.rest)
  {
    hide Quote, Stringify, Field, Fields;
    FieldsAre(m);
    FieldIs(m.name, m.value);
    Comma(Field(m.name, m.value), Fields(m.rest));
  }

  lemma JoinEntry(text: string, isFirst: bool, field: string, more: string, fields: string, all: string)
    requires fields == field + more && text + ((if isFirst then "" else ",") + fields) == all
    ensures (if isFirst then text else text + ",") + field + more == all
  {
    assert "" + fields == fields;
    assert isFirst ==> text + field + more == text + fields;
    assert !isFirst ==> text + "," + field + more == text + ("," + fields);
  }

  /** One of the two loops over `Object.entries`. */
  method WriteEntries(entries: Members) returns (text: string)
    ensures text == Fields(entries)
  {
    text := "";
    var isFirst := true;
    var m := entries;
    while m.Member?
      invariant text + Continued(isFirst, m) == Fields(entries)
      decreases m
    {
      hide Fields, Quote, Stringify;
      FieldsStep(m);
      JoinEntry(text, isFirst, Quote(m.name) + ":" + Stringify(m.value), Continued(false, m.rest), Fields(m), Fields(entries));
      if isFirst {
        isFirst := false;
      } else {
        text := text + ",";
      }
      text := text + (Quote(m.name) + ":" + Stringify(m.value));
      m := m.rest;
    }
  }

  /** The sequence of writes into the file. */
  method WriteBuildInfo(b: BuildInfo) returns (file: string)
    requires WellTyped(b)
    ensures file == Stringify(Rearranged(b))
    ensures exists read :: Parse(file) == Some((Obj(read), "")) && IsBuildInfo(b, read)
  {
    ReadBackIsBuildInfo(b);
    assert Rearranged(b) == Obj(Rearranged(b).members);
    hide Stringify, Fields, Append, OutputRearranged, Lookup, Head, Parse, IsBuildInfo;
    var withoutOutput := Stringify(Obj(Head(b)));
    WithoutBrace(Head(b));
    file := withoutOutput[..|withoutOutput| - 1];
    file := file + ",\"output\":";
    var output := WriteOutput(b.output);
    file := file + output;
    file := file + "}";
    WholeText(b, output);
  }

  lemma WholeText(b: BuildInfo, output: string)
    requires WellTyped(b) && output == Stringify(Obj(OutputRearranged(b.output)))
    ensures Stringify(Rearranged(b)) == "{" + Fields(Head(b)) + ",\"output\":" + output + "}"
  {
    hide OutputRearranged, Lookup, Quote;
    var last := Member("output", Obj(OutputRearranged(b.output)), End);
    FieldsAppend(Head(b), last);
    PlainName("output");
    assert Fields(last) == Quote("output") + ":" + output;
    JoinHead(Fields(Head(b)), output);
  }

  lemma JoinHead(head: string, output: string)
    ensures "{" + (head + "," + ("\"" + "output" + "\"" + ":" + output)) + "}" == "{" + head + ",\"output\":" + output + "}"
  {
    assert "\"" + "output" + "\"" + ":" == "\"output\":";
    assert ",\"output\":" == "," + "\"output\":";
  }

  method WriteOutput(output: Members) returns (file: string)
    requires Entries?(Lookup(output, "sources")) && Entries?(Lookup(output, "contracts"))
    ensures file == Stringify(Obj(OutputRearranged(output)))
  {
    hide Stringify, Fields, Append, OutputRearranged, Lookup, EntriesOf;
    var others := WithoutSourcesAndContracts(output);
    var withoutSourcesAndContracts := Stringify(Obj(others));
    WithoutBrace(others);
    file := withoutSourcesAndContracts[..|withoutSourcesAndContracts| - 1];
    if |withoutSourcesAndContracts| > 2 {
      file := file + ",";
    }
    ghost var start := file;
    file := file + "\"sources\":{";
    var sources := WriteEntries(EntriesOf(Lookup(output, "sources")));
    file := file + sources;
    file := file + "}";
    file := file + ",\"contracts\":{";
    var contracts := WriteEntries(EntriesOf(Lookup(output, "contracts")));
    file := file + contracts;
    file := file + "}";
    file := file + "}";
    OutputText(output, start);
  }

  lemma PlainName(name: string)
    requires name in ["output", "sources", "contracts"]
    ensures Quote(name) == "\"" + name + "\""
  {
    hide Escape;
    EscapePlain(name);
  }

  lemma {:induction false} EscapePlain(s: string)
    requires forall i :: 0 <= i < |s| ==> 'a' <= s[i] <= 'z'
    ensures Escape(s) == s
  {
    if s != [] {
      EscapePlain(s[1..]);
      assert EscapeChar(s[0]) == [s[0]];
      assert [s[0]] + s[1..] == s;
    }
  }

  lemma ObjField(name: string, m: Members)
    requires name in ["sources", "contracts"]
    ensures Field(name, Obj(m)) == "\"" + name + "\":{" + Fields(m) + "}"
  {
    hide Quote, Fields;
    PlainName(name);
    var f := Fields(m);
    assert "\"" + name + "\"" + ":" + ("{" + f + "}") == "\"" + name + "\":{" + f + "}";
  }

  lemma OutputText(output: Members, start: string)
    requires Entries?(Lookup(output, "sources")) && Entries?(Lookup(output, "contracts"))
    requires start == "{" + Fields(WithoutSourcesAndContracts(output)) +
                      if WithoutSourcesAndContracts(output) == End then "" else ","
    ensures Stringify(Obj(OutputRearranged(output))) ==
            start + "\"sources\":{" + Fields(EntriesOf(Lookup(output, "sources"))) + "}" +
            ",\"contracts\":{" + Fields(EntriesOf(Lookup(output, "contracts"))) + "}" + "}"
  {
    hide Lookup, EntriesOf, Field;
    var others := WithoutSourcesAndContracts(output);
    var s, c := EntriesOf(Lookup(output, "sources")), EntriesOf(Lookup(output, "contracts"));
    var last := Member("contracts", Obj(c), End);
    var two := Member("sources", Obj(s), last);
    TwoFields(s, c);
    if others.Member? {
      FieldsAppend(others, two);
    }
    JoinOutput(Fields(others), others == End, start, Fields(two), Fields(s), Fields(c));
  }

  lemma TwoFields(s: Members, c: Members)
    ensures Fields(Member("sources", Obj(s), Member("contracts", Obj(c), End))) ==
            "\"sources\":{" + Fields(s) + "}" + ",\"contracts\":{" + Fields(c) + "}"
  {
    var last := Member("contracts", Obj(c), End);
    assert Fields(last) == Field("contracts", Obj(c));
    assert Fields(Member("sources", Obj(s), last)) == Field("sources", Obj(s)) + "," + Fields(last);
    hide *;
    ObjField("sources", s);
    ObjField("contracts", c);
    JoinFields(Fields(s), Fields(c));
  }

  lemma JoinFields(s: string, c: string)
    ensures "\"" + "sources" + "\":{" + s + "}" + "," + ("\"" + "contracts" + "\":{" + c + "}") ==
            "\"sources\":{" + s + "}" + ",\"contracts\":{" + c + "}"
  {
    assert "\"" + "sources" + "\":{" == "\"sources\":{";
    assert "," + ("\"" + "contracts" + "\":{" + c + "}") == ",\"contracts\":{" + c + "}";
  }

  lemma JoinOutput(others: string, none: bool, start: string, two: string, s: string, c: string)
    requires start == "{" + others + if none then "" else ","
    requires none ==> others == ""
    requires two == "\"sources\":{" + s + "}" + ",\"contracts\":{" + c + "}"
    ensures "{" + (if none then two else others + "," + two) + "}" ==
            start + "\"sources\":{" + s + "}" + ",\"contracts\":{" + c + "}" + "}"
  {
    assert start + two == start + "\"sources\":{" + s + "}" + ",\"contracts\":{" + c + "}";
    assert "{" + (if none then two else others + "," + two) == start + two;
  }

  // ----- reading the file back -----

  lemma {:induction false} ProperAppend(a: Members, b: Members)
    requires ProperMembers(a) && ProperMembers(b)
    ensures ProperMembers(Append(a, b))
  {
    if a.Member? {
      ProperAppend(a.rest, b);
    }
  }

  lemma {:induction false} ProperParts(m: Members, name: string)
    requires ProperMembers(m)
    ensures ProperMembers(WithoutSourcesAndContracts(m))
    ensures Lookup(m, name).Some? ==> Proper(Lookup(m, name).value)
  {
    if m.Member? {
      ProperParts(m.rest, name);
    }
  }

  lemma ProperOutput(output: Members)
    requires Entries?(Lookup(output, "sources")) && Entries?(Lookup(output, "contracts")) && ProperMembers(output)
    ensures ProperMembers(OutputRearranged(output))
  {
    ProperParts(output, "sources");
    ProperParts(output, "contracts");
    var last := Member("contracts", Obj(EntriesOf(Lookup(output, "contracts"))), End);
    assert ProperMembers(last);
    ProperAppend(WithoutSourcesAndContracts(output), Member("sources", Obj(EntriesOf(Lookup(output, "sources"))), last));
  }

  lemma HeadMembers(b: BuildInfo)
    ensures Proper(b.input) ==> ProperMembers(Head(b))
    ensures Lookup(Head(b), "output") == None
  {
    var m1 := Head(b).rest;
    var m3 := m1.rest.rest;
    assert Proper(b.input) ==> ProperMembers(m3.rest) && ProperMembers(m3);
    assert Proper(b.input) ==> ProperMembers(m1.rest) && ProperMembers(m1);
    assert Lookup(m3.rest, "output") == None && Lookup(m3, "output") == None;
    assert Lookup(m1.rest, "output") == None && Lookup(m1, "output") == None;
  }

  /** Parsing the text of the file gives the rearranged build info. */
  lemma FileParses(b: BuildInfo)
    requires WellTyped(b)
    ensures Parse(Stringify(Rearranged(b))) == Some((Rearranged(b), ""))
  {
    ProperOutput(b.output);
    HeadMembers(b);
    ProperAppend(Head(b), Member("output", Obj(OutputRearranged(b.output)), End));
    RoundTrip(Rearranged(b), "");
    assert Stringify(Rearranged(b)) + "" == Stringify(Rearranged(b));
  }

  lemma {:induction false} LookupAppend(a: Members, b: Members, name: string)
    ensures Lookup(Append(a, b), name) == if Lookup(a, name).Some? then Lookup(a, name) else Lookup(b, name)
  {
    if a.Member? {
      LookupAppend(a.rest, b, name);
    }
  }

  lemma {:induction false} LookupWithout(m: Members, name: string)
    ensures Lookup(WithoutSourcesAndContracts(m), name) ==
            if name == "sources" || name == "contracts" then None else Lookup(m, name)
  {
    if m.Member? {
      LookupWithout(m.rest, name);
    }
  }

  /** The output read back: only missing or null `sources` and `contracts` have become
      empty objects. */
  ghost predicate IsOutput(output: Members, read: Members) {
    forall name :: Lookup(read, name) ==
      var v := Lookup(output, name);
      if (name == "sources" || name == "contracts") && (v.None? || v.value.Null?) then Some(Obj(End)) else v
  }

  /** The members read back: each property under its own name, and no others. */
  ghost predicate IsBuildInfo(b: BuildInfo, read: Members) {
    && Lookup(read, "id") == Some(Str(b.id)) && Lookup(read, "_format") == Some(Str(b.format))
    && Lookup(read, "solcVersion") == Some(Str(b.solcVersion))
    && Lookup(read, "solcLongVersion") == Some(Str(b.solcLongVersion))
    && Lookup(read, "input") == Some(b.input)
    && (exists output :: Lookup(read, "output") == Some(Obj(output)) && IsOutput(b.output, output))
    && (forall name :: !IsProperty(name) ==> Lookup(read, name) == None)
  }

  predicate IsProperty(name: string) {
    name in ["id", "_format", "solcVersion", "solcLongVersion", "input", "output"]
  }

  lemma Lengths()
    ensures |"id"| == 2 && |"_format"| == 7 && |"solcVersion"| == 11 && |"solcLongVersion"| == 15 && |"input"| == 5 && |"output"| == 6
  {
  }

  lemma HeadHolds(b: BuildInfo, name: string)
    ensures Lookup(Head(b), name) ==
            if name == "id" then Some(Str(b.id))
            else if name == "_format" then Some(Str(b.format))
            else if name == "solcVersion" then Some(Str(b.solcVersion))
            else if name == "solcLongVersion" then Some(Str(b.solcLongVersion))
            else if name == "input" then Some(b.input)
            else None
  {
    var m1 := Head(b).rest;
    var m3 := m1.rest.rest;
    Lengths();
    assert Lookup(m3.rest, name) == if name == "input" then Some(b.input) else None;
    assert Lookup(m3, name) == if name == "solcLongVersion" then Some(Str(b.solcLongVersion)) else Lookup(m3.rest, name);
    assert Lookup(m1.rest, name) == if name == "solcVersion" then Some(Str(b.solcVersion)) else Lookup(m3, name);
    assert Lookup(m1, name) == if name == "_format" then Some(Str(b.format)) else Lookup(m1.rest, name);
  }

  lemma ReadBack(b: BuildInfo, name: string)
    requires WellTyped(b)
    ensures Lookup(Rearranged(b).members, name) ==
            if name == "output" then Some(Obj(OutputRearranged(b.output))) else Lookup(Head(b), name)
  {
    var last := Member("output", Obj(OutputRearranged(b.output)), End);
    HeadMembers(b);
    assert Lookup(last, name) == if name == "output" then Some(Obj(OutputRearranged(b.output))) else None;
    hide Head, OutputRearranged;
    LookupAppend(Head(b), last, name);
  }

  /** Reading the file gives an object with exactly the properties of the build info. */
  lemma ReadBackIsBuildInfo(b: BuildInfo)
    requires WellTyped(b)
    ensures Parse(Stringify(Rearranged(b))) == Some((Rearranged(b), "")) && IsBuildInfo(b, Rearranged(b).members)
  {
    FileParses(b);
    var read := Rearranged(b).members;
    Lengths();
    hide Head, Rearranged, OutputRearranged, WellTyped, Parse, Stringify, Lookup;
    forall name
      ensures Lookup(read, name) ==
              if name == "id" then Some(Str(b.id))
              else if name == "_format" then Some(Str(b.format))
              else if name == "solcVersion" then Some(Str(b.solcVersion))
              else if name == "solcLongVersion" then Some(Str(b.solcLongVersion))
              else if name == "input" then Some(b.input)
              else if name == "output" then Some(Obj(OutputRearranged(b.output)))
              else None
    {
      ReadBack(b, name);
      HeadHolds(b, name);
    }
    OutputIsRead(b);
  }

  lemma OutputIsRead(b: BuildInfo)
    requires WellTyped(b)
    ensures IsOutput(b.output, OutputRearranged(b.output))
  {
    hide OutputRearranged, Lookup;
    forall name
      ensures var v := Lookup(b.output, name);
              Lookup(OutputRearranged(b.output), name) ==
              if (name == "sources" || name == "contracts") && (v.None? || v.value.Null?) then Some(Obj(End)) else v
    {
      LookupRearranged(b.output, name);
    }
  }

  lemma LookupRearranged(output: Members, name: string)
    requires Entries?(Lookup(output, "sources")) && Entries?(Lookup(output, "contracts"))
    ensures var v := Lookup(output, name);
            Lookup(OutputRearranged(output), name) ==
            if (name == "sources" || name == "contracts") && (v.None? || v.value.Null?) then Some(Obj(End)) else v
  {
    LookupWithout(output, name);
    var last := Member("contracts", Obj(EntriesOf(Lookup(output, "contracts"))), End);
    var two := Member("sources", Obj(EntriesOf(Lookup(output, "sources"))), last);
    LookupAppend(WithoutSourcesAndContracts(output), two, name);
    assert Lookup(last, name) == if name == "contracts" then Some(last.value) else None;
    assert Lookup(two, name) == if name == "sources" then Some(two.value) else Lookup(last, name);
  }
}
