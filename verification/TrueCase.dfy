/** The search of a file whatever its casing (fs-utils.ts): folder by folder it takes
    the first entry of the listing that is the wanted one in lower case. */
module TrueCase {
  import opened Prelude
  import opened ContractNames

  ghost predicate TotalOrder(precedes: (string, string) -> bool) {
    && (forall a :: !precedes(a, a))
    && (forall a, b :: a == b || precedes(a, b) || precedes(b, a))
    && (forall a, b, c :: precedes(a, b) && precedes(b, c) ==> precedes(a, c))
  }

  predicate Alphabetical(a: string, b: string) {
    b != "" && (a == "" || a[0] < b[0] || (a[0] == b[0] && Alphabetical(a[1..], b[1..])))
  }

  /** The order in which a directory is listed, a fixed order of names. */
  type Order = precedes: (string, string) -> bool | TotalOrder(precedes)
    witness (AlphabeticalIsTotal(); Alphabetical)

  /** What surrounds the search: `toLowerCase` and the order of listings. */
  datatype Listing = Listing(lower: string -> string, precedes: Order)

  /** The names in the folder `dir`; the nodes are the files and the folders. */
  function Entries(nodes: set<Path>, dir: Path): set<string> {
    set p | p in nodes && |p| > |dir| && p[..|dir|] == dir :: p[|dir|]
  }

  ghost predicate IsFirstMatch(fs: Listing, entries: set<string>, name: string, e: string) {
    && e in entries && fs.lower(e) == fs.lower(name)
    && forall x <- entries :: fs.lower(x) == fs.lower(name) && x != e ==> fs.precedes(e, x)
  }

  ghost function FirstMatch(fs: Listing, entries: set<string>, name: string): Option<string> {
    if exists e :: IsFirstMatch(fs, entries, name, e)
    then
      var e :| IsFirstMatch(fs, entries, name, e); Some(e)
    else None
  }

  /** `getFileTrueCase` below the folder `dir`, None for its error. */
  ghost function Walk(fs: Listing, nodes: set<Path>, dir: Path, relative: Path): Option<Path>
    decreases |relative|
  {
    if relative == [] then None
    else
      var e := FirstMatch(fs, Entries(nodes, dir), relative[0]);
      if e.None? then None
      else if |relative| == 1 then Some([e.value])
      else
        var rest := Walk(fs, nodes, dir + [e.value], relative[1..]);
        if rest.None? then None else Some([e.value] + rest.value)
  }

  // ----- the order of names -----

  lemma {:induction false} AlphabeticalSteps(a: string, b: string, c: string)
    ensures !Alphabetical(a, a)
    ensures a == b || Alphabetical(a, b) || Alphabetical(b, a)
    ensures Alphabetical(a, b) && Alphabetical(b, c) ==> Alphabetical(a, c)
    decreases |a| + |b| + |c|
  {
    if a != "" {
      AlphabeticalSteps(a[1..], if b == "" then b else b[1..], if c == "" then c else c[1..]);
      assert b != "" ==> (a == b <==> a[0] == b[0] && a[1..] == b[1..]);
    }
  }

  lemma AlphabeticalIsTotal()
    ensures TotalOrder(Alphabetical)
  {
    forall a, b, c
      ensures !Alphabetical(a, a)
      ensures a == b || Alphabetical(a, b) || Alphabetical(b, a)
      ensures Alphabetical(a, b) && Alphabetical(b, c) ==> Alphabetical(a, c)
    {
      AlphabeticalSteps(a, b, c);
    }
  }

  lemma {:induction false} Least(order: Order, entries: set<string>) returns (e: string)
    requires entries != {}
    ensures e in entries && forall x <- entries :: x != e ==> order(e, x)
    decreases entries
  {
    e :| e in entries;
    if entries != {e} {
      var d := Least(order, entries - {e});
      if order(d, e) {
        e := d;
      }
    }
  }

  /** When some entry matches, one of them comes first. */
  lemma FirstMatchExists(fs: Listing, entries: set<string>, name: string)
    ensures FirstMatch(fs, entries, name).Some? <==> exists x :: x in entries && fs.lower(x) == fs.lower(name)
  {
    var matching := set x | x in entries && fs.lower(x) == fs.lower(name);
    if x :| x in entries && fs.lower(x) == fs.lower(name) {
      assert x in matching;
      var e := Least(fs.precedes, matching);
      assert IsFirstMatch(fs, entries, name, e);
    }
  }

  lemma FirstMatchIsThere(fs: Listing, entries: set<string>, name: string)
    ensures var e := FirstMatch(fs, entries, name); e.Some? ==> e.value in entries && fs.lower(e.value) == fs.lower(name)
  {
  }

  lemma FirstMatchIs(fs: Listing, entries: set<string>, name: string, e: string)
    ensures FirstMatch(fs, entries, name) == Some(e) <==> IsFirstMatch(fs, entries, name, e)
  {
    if IsFirstMatch(fs, entries, name, e) {
      var d :| FirstMatch(fs, entries, name) == Some(d) && IsFirstMatch(fs, entries, name, d);
      var order: Order := fs.precedes;
      assert TotalOrder(order);
      assert !(order(d, e) && order(e, d));
    }
  }

  // ----- when the very path asked for is found -----

  /** Some entry of the folder `dir` that is listed before `name` is `name` up to case. */
  ghost predicate Twin(fs: Listing, nodes: set<Path>, dir: Path, name: string) {
    exists x <- Entries(nodes, dir) :: x != name && fs.lower(x) == fs.lower(name) && fs.precedes(x, name)
  }

  /** On the way to `dir + relative` some folder has an earlier twin. */
  ghost predicate ShadowedBelow(fs: Listing, nodes: set<Path>, dir: Path, relative: Path) {
    exists i :: 0 <= i < |relative| && Twin(fs, nodes, dir + relative[..i], relative[i])
  }

  ghost predicate Shadowed(fs: Listing, nodes: set<Path>, p: Path) {
    exists i :: 0 <= i < |p| && Twin(fs, nodes, p[..i], p[i])
  }

  /** There is a node at `p` or below it. */
  ghost predicate Exists(nodes: set<Path>, p: Path) {
    exists q <- nodes :: p <= q
  }

  lemma EntryExists(nodes: set<Path>, dir: Path, name: string)
    ensures name in Entries(nodes, dir) <==> Exists(nodes, dir + [name])
  {
    if Exists(nodes, dir + [name]) {
      var q :| q in nodes && dir + [name] <= q;
      assert q[..|dir|] == dir && q[|dir|] == name;
    }
    if name in Entries(nodes, dir) {
      var q :| q in nodes && |q| > |dir| && q[..|dir|] == dir && q[|dir|] == name;
      assert dir + [name] <= q;
    }
  }

  lemma PrefixExists(nodes: set<Path>, p: Path, q: Path)
    requires p <= q && Exists(nodes, q)
    ensures Exists(nodes, p)
  {
    var r :| r in nodes && q <= r;
    assert p <= r;
  }

  lemma FirstMatchIsItself(fs: Listing, nodes: set<Path>, dir: Path, name: string)
    ensures FirstMatch(fs, Entries(nodes, dir), name) == Some(name) <==>
            Exists(nodes, dir + [name]) && !Twin(fs, nodes, dir, name)
  {
    FirstMatchIs(fs, Entries(nodes, dir), name, name);
    EntryExists(nodes, dir, name);
  }

  lemma ShadowedStep(fs: Listing, nodes: set<Path>, dir: Path, relative: Path)
    requires relative != []
    ensures ShadowedBelow(fs, nodes, dir, relative) <==>
            Twin(fs, nodes, dir, relative[0]) || ShadowedBelow(fs, nodes, dir + [relative[0]], relative[1..])
  {
    hide Twin;
    assert dir + relative[..0] == dir;
    forall i | 0 <= i < |relative| - 1
      ensures dir + relative[..i + 1] == dir + [relative[0]] + relative[1..][..i]
    {
      assert relative[..i + 1] == [relative[0]] + relative[1..][..i];
    }
    if ShadowedBelow(fs, nodes, dir, relative) {
      var i :| 0 <= i < |relative| && Twin(fs, nodes, dir + relative[..i], relative[i]);
      if i > 0 {
        assert Twin(fs, nodes, dir + [relative[0]] + relative[1..][..i - 1], relative[1..][i - 1]);
      }
    }
    if ShadowedBelow(fs, nodes, dir + [relative[0]], relative[1..]) {
      var i :| 0 <= i < |relative[1..]| && Twin(fs, nodes, dir + [relative[0]] + relative[1..][..i], relative[1..][i]);
      assert Twin(fs, nodes, dir + relative[..i + 1], relative[i + 1]);
    }
  }

  lemma {:induction false} WalkIsExactBelow(fs: Listing, nodes: set<Path>, dir: Path, relative: Path)
    requires relative != []
    ensures Walk(fs, nodes, dir, relative) == Some(relative) <==>
            Exists(nodes, dir + relative) && !ShadowedBelow(fs, nodes, dir, relative)
    decreases |relative|
  {
    var name, rest := relative[0], relative[1..];
    assert relative == [name] + rest && dir + relative == dir + [name] + rest;
    hide FirstMatch, Exists, Twin, ShadowedBelow;
    FirstMatchIsItself(fs, nodes, dir, name);
    ShadowedStep(fs, nodes, dir, relative);
    if rest == [] {
      NothingBelow(fs, nodes, dir + [name]);
      assert dir + relative == dir + [name] && relative == [name];
    } else {
      WalkIsExactBelow(fs, nodes, dir + [name], rest);
      if Exists(nodes, dir + relative) {
        PrefixExists(nodes, dir + [name], dir + relative);
      }
    }
  }

  lemma NothingBelow(fs: Listing, nodes: set<Path>, dir: Path)
    ensures !ShadowedBelow(fs, nodes, dir, [])
  {
  }

  /** The search finds the path asked for itself if and only if it exists and in no
      folder on the way an earlier entry is the wanted one up to case. */
  lemma WalkIsExact(fs: Listing, nodes: set<Path>, p: Path)
    requires p != []
    ensures Walk(fs, nodes, [], p) == Some(p) <==> Exists(nodes, p) && !Shadowed(fs, nodes, p)
  {
    WalkIsExactBelow(fs, nodes, [], p);
    assert [] + p == p && forall i | 0 <= i < |p| :: [] + p[..i] == p[..i];
  }

  ghost predicate SameUpToCase(fs: Listing, p: Path, q: Path) {
    |p| == |q| && forall i :: 0 <= i < |p| ==> fs.lower(p[i]) == fs.lower(q[i])
  }

  lemma WalkStep(fs: Listing, nodes: set<Path>, dir: Path, relative: Path) returns (e: string)
    requires Walk(fs, nodes, dir, relative).Some?
    ensures relative != [] && e in Entries(nodes, dir) && fs.lower(e) == fs.lower(relative[0])
    ensures |relative| == 1 ==> Walk(fs, nodes, dir, relative).value == [e]
    ensures |relative| > 1 ==> var rest := Walk(fs, nodes, dir + [e], relative[1..]);
                               rest.Some? && Walk(fs, nodes, dir, relative).value == [e] + rest.value
  {
    FirstMatchIsThere(fs, Entries(nodes, dir), relative[0]);
    e := FirstMatch(fs, Entries(nodes, dir), relative[0]).value;
  }

  lemma OneUpToCase(fs: Listing, e: string, p: Path, name: string, q: Path)
    requires fs.lower(e) == fs.lower(name) && (SameUpToCase(fs, p, q) || (p == [] && q == []))
    ensures SameUpToCase(fs, [e] + p, [name] + q)
  {
  }

  lemma Regroup(a: Path, b: Path, c: Path)
    ensures a + (b + c) == a + b + c
  {
  }

  /** What the search finds exists and is the path asked for up to case. */
  lemma {:induction false} WalkFindsUpToCase(fs: Listing, nodes: set<Path>, dir: Path, relative: Path)
    requires Walk(fs, nodes, dir, relative).Some?
    ensures var r := Walk(fs, nodes, dir, relative).value;
            SameUpToCase(fs, r, relative) && r != [] && Exists(nodes, dir + r)
    decreases |relative|
  {
    var e := WalkStep(fs, nodes, dir, relative);
    EntryExists(nodes, dir, e);
    hide Walk, Exists, Entries, SameUpToCase;
    var name, rest := relative[0], relative[1..];
    assert relative == [name] + rest;
    if rest == [] {
      OneUpToCase(fs, e, [], name, rest);
      assert relative == [name] && [e] + [] == [e];
    } else {
      WalkFindsUpToCase(fs, nodes, dir + [e], rest);
      var found := Walk(fs, nodes, dir + [e], rest).value;
      OneUpToCase(fs, e, found, name, rest);
      Regroup(dir, [e], found);
    }
  }

  lemma {:induction false} WalkFindsSome(fs: Listing, nodes: set<Path>, dir: Path, relative: Path)
    requires relative != [] && Exists(nodes, dir + relative) && !ShadowedBelow(fs, nodes, dir, relative[..|relative| - 1])
    ensures Walk(fs, nodes, dir, relative).Some?
    decreases |relative|
  {
    assert relative == [relative[0]] + relative[1..] && dir + relative == dir + [relative[0]] + relative[1..];
    PrefixExists(nodes, dir + [relative[0]], dir + relative);
    EntryExists(nodes, dir, relative[0]);
    if |relative| == 1 {
      FirstMatchExists(fs, Entries(nodes, dir), relative[0]);
    } else {
      var most := relative[..|relative| - 1];
      assert most[0] == relative[0] && most[1..] == relative[1..][..|relative[1..]| - 1];
      ShadowedStep(fs, nodes, dir, most);
      FirstMatchIsItself(fs, nodes, dir, relative[0]);
      WalkFindsSome(fs, nodes, dir + [relative[0]], relative[1..]);
    }
  }

  /** More nodes shadow more; a node shadows on its own. */
  lemma ShadowedUnion(fs: Listing, a: set<Path>, b: set<Path>, p: Path)
    ensures Shadowed(fs, a + b, p) <==> Shadowed(fs, a, p) || Shadowed(fs, b, p)
  {
    forall i | 0 <= i < |p|
      ensures Twin(fs, a + b, p[..i], p[i]) <==> Twin(fs, a, p[..i], p[i]) || Twin(fs, b, p[..i], p[i])
    {
      assert Entries(a + b, p[..i]) == Entries(a, p[..i]) + Entries(b, p[..i]);
    }
  }

  lemma FewerShadowLess(fs: Listing, few: set<Path>, many: set<Path>, p: Path)
    requires few <= many && Shadowed(fs, few, p)
    ensures Shadowed(fs, many, p)
  {
    assert few + many == many;
    ShadowedUnion(fs, few, many, p);
  }

  /** A path, its own parents and what lies below it do not shadow it. */
  lemma NotShadowedByItself(fs: Listing, nodes: set<Path>, p: Path)
    requires forall q <- nodes :: q <= p || p <= q
    ensures !Shadowed(fs, nodes, p)
  {
    forall i, x | 0 <= i < |p| && x in Entries(nodes, p[..i])
      ensures x == p[i]
    {
      var q :| q in nodes && |q| > i && q[..i] == p[..i] && q[i] == x;
    }
  }

  /** Of two siblings that differ in case only, the later one is shadowed. */
  lemma OneTwinIsShadowed(fs: Listing, nodes: set<Path>, dir: Path, a: string, b: string)
    requires a != b && fs.lower(a) == fs.lower(b) && dir + [a] in nodes && dir + [b] in nodes
    ensures Shadowed(fs, nodes, dir + [b]) || Shadowed(fs, nodes, dir + [a])
    ensures fs.precedes(a, b) ==> Shadowed(fs, nodes, dir + [b])
  {
    var p, q := dir + [a], dir + [b];
    assert p[..|dir|] == dir == q[..|dir|] && p[|dir|] == a && q[|dir|] == b;
    assert a in Entries(nodes, dir) && b in Entries(nodes, dir);
    assert fs.precedes(a, b) ==> Twin(fs, nodes, q[..|dir|], q[|dir|]);
    assert fs.precedes(b, a) ==> Twin(fs, nodes, p[..|dir|], p[|dir|]);
  }

  // ----- the loops -----

  ghost predicate Sorted(order: Order, s: seq<string>) {
    forall i, j :: 0 <= i < j < |s| ==> order(s[i], s[j])
  }

  /** `readdir`. */
  method ReadDir(fs: Listing, nodes: set<Path>, dir: Path) returns (entries: seq<string>)
    ensures forall x :: x in entries <==> x in Entries(nodes, dir)
    ensures Sorted(fs.precedes, entries)
  {
    var left := Entries(nodes, dir);
    entries := [];
    while left != {}
      invariant forall x :: x in entries || x in left <==> x in Entries(nodes, dir)
      invariant Sorted(fs.precedes, entries)
      invariant forall x <- entries, y <- left :: fs.precedes(x, y)
      decreases left
    {
      ghost var least := Least(fs.precedes, left);
      var e :| e in left && forall x <- left :: x != e ==> fs.precedes(e, x);
      entries := entries + [e];
      left := left - {e};
    }
  }

  method GetFileTrueCase(fs: Listing, nodes: set<Path>, from: Path, relative: Path) returns (r: Option<Path>)
    ensures r == Walk(fs, nodes, from, relative)
    decreases |relative|
  {
    if relative == [] {
      return None;
    }
    var dirEntries := ReadDir(fs, nodes, from);
    var next := fs.lower(relative[0]);
    var i := 0;
    while i < |dirEntries|
      invariant 0 <= i <= |dirEntries|
      invariant forall k :: 0 <= k < i ==> fs.lower(dirEntries[k]) != next
    {
      if fs.lower(dirEntries[i]) == next {
        IsFirstListed(fs, Entries(nodes, from), dirEntries, relative[0], i);
        if |relative| == 1 {
          return Some([dirEntries[i]]);
        }
        var rest := GetFileTrueCase(fs, nodes, from + [dirEntries[i]], relative[1..]);
        return if rest.None? then None else Some([dirEntries[i]] + rest.value);
      }
      i := i + 1;
    }
    FirstMatchExists(fs, Entries(nodes, from), relative[0]);
    r := None;
  }

  lemma IsFirstListed(fs: Listing, entries: set<string>, listed: seq<string>, name: string, i: nat)
    requires (forall x :: x in listed <==> x in entries) && Sorted(fs.precedes, listed)
    requires i < |listed| && fs.lower(listed[i]) == fs.lower(name)
    requires forall k :: 0 <= k < i ==> fs.lower(listed[k]) != fs.lower(name)
    ensures FirstMatch(fs, entries, name) == Some(listed[i])
  {
    forall x | x in entries && fs.lower(x) == fs.lower(name) && x != listed[i]
      ensures fs.precedes(listed[i], x)
    {
      var k :| 0 <= k < |listed| && listed[k] == x;
    }
    FirstMatchIs(fs, entries, name, listed[i]);
  }

  // ----- letters -----

  function LowerChar(c: char): char {
    if 'A' <= c <= 'Z' then c - 'A' + 'a' else c
  }

  /** `toLowerCase` on names of ASCII characters. */
  function LowerAscii(s: string): (r: string)
    ensures |r| == |s|
  {
    if s == "" then "" else [LowerChar(s[0])] + LowerAscii(s[1..])
  }

  const ASCII: Listing := (AlphabeticalIsTotal(); Listing(LowerAscii, Alphabetical))
}
