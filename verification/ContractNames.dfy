/** Fully qualified names and the paths of artifacts (contract-names.ts and the
    name and path functions of artifacts.ts).  Paths are lists of segments below
    the artifacts directory. */
module ContractNames {
  import opened Prelude

  type Path = seq<string>

  function GetFullyQualifiedName(sourceName: string, contractName: string): string {
    sourceName + ":" + contractName
  }

  predicate IsFullyQualifiedName(name: string) {
    ':' in name
  }

  /** `split(separator)` for a separator of one character. */
  function Split(s: string, c: char): (parts: seq<string>)
    ensures parts != []
  {
    if s == "" then [""]
    else if s[0] == c then [""] + Split(s[1..], c)
    else
      var rest := Split(s[1..], c);
      [[s[0]] + rest[0]] + rest[1..]
  }

  function Join(parts: seq<string>, c: char): string
    requires parts != []
  {
    if |parts| == 1 then parts[0] else parts[0] + [c] + Join(parts[1..], c)
  }

  datatype Name = Name(sourceName: Option<string>, contractName: string)

  /** `parseName`: everything before the last colon is the source name. */
  function ParseName(name: string): Name {
    var parts := Split(name, ':');
    if |parts| == 1 then Name(None, parts[0])
    else Name(Some(Join(parts[..|parts| - 1], ':')), parts[|parts| - 1])
  }

  // ----- splitting and joining -----

  lemma {:induction false} JoinSplit(s: string, c: char)
    ensures Join(Split(s, c), c) == s
  {
    if s != "" {
      JoinSplit(s[1..], c);
      var rest := Split(s[1..], c);
      if s[0] == c {
        assert Split(s, c)[1..] == rest;
      } else {
        var parts := Split(s, c);
        assert parts[1..] == rest[1..];
        if |rest| > 1 {
          assert Join(parts, c) == [s[0]] + rest[0] + [c] + Join(rest[1..], c);
        }
      }
    }
  }

  lemma {:induction false} SplitPlain(s: string, c: char)
    requires c !in s
    ensures Split(s, c) == [s]
  {
    if s != "" {
      SplitPlain(s[1..], c);
      assert [s[0]] + s[1..] == s;
    }
  }

  /** Splitting after the last separator: `t` contains none. */
  lemma {:induction false} SplitLast(s: string, c: char, t: string)
    requires c !in t
    ensures Split(s + [c] + t, c) == Split(s, c) + [t]
  {
    var whole := s + [c] + t;
    if s == "" {
      assert whole[1..] == t && whole[0] == c;
      SplitPlain(t, c);
    } else {
      SplitLast(s[1..], c, t);
      assert whole[1..] == s[1..] + [c] + t && whole[0] == s[0];
    }
  }

  lemma {:induction false} SplitJoin(parts: seq<string>, c: char)
    requires parts != [] && forall i :: 0 <= i < |parts| ==> c !in parts[i]
    ensures Split(Join(parts, c), c) == parts
  {
    if |parts| == 1 {
      SplitPlain(parts[0], c);
    } else {
      SplitJoin(parts[1..], c);
      SplitFirst(parts[0], c, Join(parts[1..], c));
    }
  }

  lemma {:induction false} SplitFirst(s: string, c: char, t: string)
    requires c !in s
    ensures Split(s + [c] + t, c) == [s] + Split(t, c)
  {
    var whole := s + [c] + t;
    if s == "" {
      assert whole[0] == c && whole[1..] == t;
    } else {
      SplitFirst(s[1..], c, t);
      assert whole[0] == s[0] && whole[1..] == s[1..] + [c] + t;
      assert [s[0]] + s[1..] == s;
    }
  }

  /** Parsing a fully qualified name gives its parts back; source names may hold colons. */
  lemma ParseFqn(sourceName: string, contractName: string)
    requires ':' !in contractName
    ensures ParseName(GetFullyQualifiedName(sourceName, contractName)) == Name(Some(sourceName), contractName)
  {
    SplitLast(sourceName, ':', contractName);
    JoinSplit(sourceName, ':');
    var parts := Split(sourceName, ':') + [contractName];
    assert parts[..|parts| - 1] == Split(sourceName, ':');
  }

  lemma {:induction false} SplitCount(s: string, c: char)
    ensures |Split(s, c)| > 1 <==> c in s
  {
    if s != "" {
      SplitCount(s[1..], c);
    }
  }

  // ----- paths -----

  /** One step of `path.normalize` on a relative path. */
  function Push(p: Path, segment: string): Path {
    if segment == "" || segment == "." then p
    else if segment == ".." && p != [] && p[|p| - 1] != ".." then p[..|p| - 1]
    else p + [segment]
  }

  function Normalize(segments: seq<string>): Path {
    if segments == [] then []
    else Push(Normalize(segments[..|segments| - 1]), segments[|segments| - 1])
  }

  /** A segment that normalisation keeps. */
  predicate Plain(segment: string) {
    segment != "" && segment != "." && segment != ".." && '/' !in segment
  }

  predicate PlainPath(p: Path) {
    forall i :: 0 <= i < |p| ==> Plain(p[i])
  }

  lemma {:induction false} NormalizePlain(p: Path)
    requires PlainPath(p)
    ensures Normalize(p) == p
  {
    if p != [] {
      NormalizePlain(p[..|p| - 1]);
    }
  }

  /** `formArtifactPathFromFullyQualifiedName`, None for its error. */
  function FormArtifactPath(fqn: string): Option<Path> {
    var name := ParseName(fqn);
    if name.sourceName.None? then None
    else Some(Normalize(Split(name.sourceName.value, '/') + Split(name.contractName + ".json", '/')))
  }

  predicate EndsWith(s: string, suffix: string) {
    |s| >= |suffix| && s[|s| - |suffix|..] == suffix
  }

  predicate StartsWith(s: string, prefix: string) {
    |s| >= |prefix| && s[..|prefix|] == prefix
  }

  /** `replace(".json", "")`: the first occurrence goes. */
  function WithoutJson(s: string): string {
    if |s| < 5 then s
    else if s[..5] == ".json" then s[5..]
    else [s[0]] + WithoutJson(s[1..])
  }

  /** `_getFullyQualifiedNameFromPath`. */
  function FqnFromPath(p: Path): string
    requires p != []
  {
    var dir := p[..|p| - 1];
    GetFullyQualifiedName(if dir == [] then "" else Join(dir, '/'), WithoutJson(p[|p| - 1]))
  }

  /** `_getDebugFilePath`: `replace(/\.json$/, ".dbg.json")`. */
  function DebugFilePath(p: Path): Path {
    if p != [] && EndsWith(p[|p| - 1], ".json")
    then p[..|p| - 1] + [p[|p| - 1][..|p[|p| - 1]| - 5] + ".dbg.json"]
    else p
  }

  predicate Contains(s: string, t: string) {
    exists i :: 0 <= i <= |s| && StartsWith(s[i..], t)
  }

  /** Contract names the conversions promise to handle. */
  predicate PlainContractName(n: string) {
    n != "" && ':' !in n && '/' !in n && !Contains(n, ".json")
  }

  /** Identifiers are among them. */
  lemma NoDotIsPlain(n: string)
    requires n != "" && ':' !in n && '/' !in n && '.' !in n
    ensures PlainContractName(n)
  {
    forall i | 0 <= i <= |n|
      ensures !StartsWith(n[i..], ".json")
    {
      assert i < |n| ==> n[i] in n && n[i..][0] == n[i];
    }
  }

  /** A source name without `.`, `..` or empty segments. */
  predicate NormalSourceName(s: string) {
    PlainPath(Split(s, '/'))
  }

  lemma {:induction false} WithoutJsonOf(n: string)
    requires !Contains(n, ".json")
    ensures WithoutJson(n + ".json") == n
  {
    var s := n + ".json";
    if n == "" {
      assert s[..5] == ".json";
    } else {
      forall i | 0 <= i <= |n[1..]|
        ensures !StartsWith(n[1..][i..], ".json")
      {
        assert n[1..][i..] == n[i + 1..];
      }
      WithoutJsonOf(n[1..]);
      assert s[1..] == n[1..] + ".json";
      assert s[..5] != ".json" by { NoEarlyJson(n); }
    }
  }

  lemma NoEarlyJson(n: string)
    requires n != "" && !Contains(n, ".json")
    ensures (n + ".json")[..5] != ".json"
  {
    var s := n + ".json";
    if |n| >= 5 {
      assert s[..5] == n[..5] && n[0..] == n && !StartsWith(n[0..], ".json");
    } else {
      assert s[..5][|n|] == s[|n|] == '.' && ".json"[|n|] != '.';
    }
  }

  /** From names to the artifact path and back is the identity. */
  lemma ArtifactPathRoundTrip(sourceName: string, contractName: string)
    requires NormalSourceName(sourceName) && PlainContractName(contractName)
    ensures var path := FormArtifactPath(GetFullyQualifiedName(sourceName, contractName));
            && path == Some(Split(sourceName, '/') + [contractName + ".json"])
            && FqnFromPath(path.value) == GetFullyQualifiedName(sourceName, contractName)
  {
    ParseFqn(sourceName, contractName);
    var file := contractName + ".json";
    SplitPlain(file, '/');
    var dir := Split(sourceName, '/');
    assert |file| > 5;
    NormalizePlain(dir + [file]);
    assert (dir + [file])[..|dir|] == dir;
    JoinSplit(sourceName, '/');
    WithoutJsonOf(contractName);
  }

  lemma DebugFileOf(dir: Path, contractName: string)
    ensures DebugFilePath(dir + [contractName + ".json"]) == dir + [contractName + ".dbg.json"]
  {
    var file := contractName + ".json";
    assert file[|file| - 5..] == ".json" && file[..|file| - 5] == contractName;
    assert (dir + [file])[..|dir|] == dir;
  }

  lemma SameSuffix(a: string, b: string, suffix: string)
    ensures a + suffix == b + suffix <==> a == b
  {
    if a + suffix == b + suffix {
      assert (a + suffix)[..|a|] == a && (b + suffix)[..|b|] == b;
    }
  }

  /** So different contracts never share an artifact or a debug file. */
  lemma DistinctContractsDistinctFiles(s1: string, c1: string, s2: string, c2: string)
    requires NormalSourceName(s1) && PlainContractName(c1) && NormalSourceName(s2) && PlainContractName(c2)
    requires s1 != s2 || c1 != c2
    ensures var p1 := FormArtifactPath(GetFullyQualifiedName(s1, c1));
            var p2 := FormArtifactPath(GetFullyQualifiedName(s2, c2));
            && p1.Some? && p2.Some? && p1 != p2
            && DebugFilePath(p1.value) != DebugFilePath(p2.value)
  {
    ArtifactPathRoundTrip(s1, c1);
    ArtifactPathRoundTrip(s2, c2);
    ParseFqn(s1, c1);
    ParseFqn(s2, c2);
    var d1, d2 := Split(s1, '/'), Split(s2, '/');
    DebugFileOf(d1, c1);
    DebugFileOf(d2, c2);
    hide *;
    SameSuffix(c1, c2, ".dbg.json");
    SameEnds(d1, c1 + ".dbg.json", d2, c2 + ".dbg.json");
    SameEnds(d1, c1 + ".json", d2, c2 + ".json");
    SameSuffix(c1, c2, ".json");
  }

  lemma SameEnds(d1: Path, x1: string, d2: Path, x2: string)
    ensures d1 + [x1] == d2 + [x2] <==> d1 == d2 && x1 == x2
  {
    if d1 + [x1] == d2 + [x2] {
      assert (d1 + [x1])[..|d1|] == d1 && (d2 + [x2])[..|d2|] == d2;
      assert (d1 + [x1])[|d1|] == x1;
    }
  }

  /** The debug file of one contract is the artifact of another in exactly one
      case: the other has the same source and the name followed by `.dbg`. */
  lemma DebugFileIsAnArtifactExactlyWhen(s1: string, c1: string, s2: string, c2: string)
    requires NormalSourceName(s1) && PlainContractName(c1) && NormalSourceName(s2) && PlainContractName(c2)
    ensures var p1 := FormArtifactPath(GetFullyQualifiedName(s1, c1));
            var p2 := FormArtifactPath(GetFullyQualifiedName(s2, c2));
            p1.Some? && p2.Some? && (DebugFilePath(p1.value) == p2.value <==> s1 == s2 && c2 == c1 + ".dbg")
  {
    ArtifactPathRoundTrip(s1, c1);
    ArtifactPathRoundTrip(s2, c2);
    var d1, d2 := Split(s1, '/'), Split(s2, '/');
    DebugFileOf(d1, c1);
    JoinSplit(s1, '/');
    JoinSplit(s2, '/');
    hide *;
    assert c1 + ".dbg.json" == c1 + ".dbg" + ".json";
    SameSuffix(c1 + ".dbg", c2, ".json");
    SameEnds(d1, c1 + ".dbg.json", d2, c2 + ".json");
  }
}
