/** The `no-top-level-external-import` rule: a depth-first search over module
    imports with a visited set that the whole process shares. */
module SlowImports {
  import opened Prelude

  type Path = string

  /** One top-level import, export-from or require, with its line. */
  datatype Import = Import(source: string, line: nat)

  /** The project the rule runs in: what each readable file imports at its top
      level (nothing when it cannot be parsed), how a module path resolves from a
      file, which names node builds in, and which the configuration ignores. */
  datatype Project = Project(
    files: map<Path, seq<Import>>,
    resolve: (string, Path) -> Option<Path>,
    isBuiltin: string -> bool,
    ignoreModules: set<string>)

  /** Resolution only finds files that exist. */
  ghost predicate ProjectOk(p: Project) {
    forall source, from :: p.resolve(source, from).Some? ==> p.resolve(source, from).value in p.files
  }

  // ----- module-type.js -----

  predicate IsWordChar(c: char) {
    'a' <= c <= 'z' || 'A' <= c <= 'Z' || '0' <= c <= '9' || c == '_'
  }

  /** The expression for scoped names: an at sign, then at least two characters of
      which only one, not the first and not the last of the match, may be a slash. */
  predicate IsScoped(name: string) {
    |name| > 2 && name[0] == '@' && name[1] != '/' &&
    (name[2] != '/' || (|name| > 3 && name[3] != '/'))
  }

  predicate IsExternalModule(name: string) {
    name != "" && (IsWordChar(name[0]) || IsScoped(name))
  }

  predicate Skipped(p: Project, source: string) {
    source in p.ignoreModules || p.isBuiltin(source)
  }

  // ----- what should be reported -----

  /** `b` is imported by `a` and can be resolved. */
  predicate Edge(p: Project, imports: seq<Import>, a: Path, b: Path) {
    exists k :: 0 <= k < |imports| && Leads(p, imports[k], a, b)
  }

  predicate Leads(p: Project, i: Import, a: Path, b: Path) {
    !Skipped(p, i.source) && !IsExternalModule(i.source) && p.resolve(i.source, a) == Some(b)
  }

  predicate IsSlow(p: Project, i: Import) {
    !Skipped(p, i.source) && IsExternalModule(i.source)
  }

  predicate IsLost(p: Project, i: Import, a: Path) {
    !Skipped(p, i.source) && !IsExternalModule(i.source) && p.resolve(i.source, a).None?
  }

  datatype Report =
    | EnforceDynamicImport(dependency: string, filename: Path, line: nat)
    | CannotResolveModule

  /** A chain of resolvable imports through readable files, the first imported by
      `root` whose imports are `imports`, none of them in `avoid`. */
  ghost predicate Chain(p: Project, root: Path, imports: seq<Import>, avoid: set<Path>, c: seq<Path>) {
    && c != [] && Edge(p, imports, root, c[0])
    && (forall i :: 0 <= i < |c| ==> c[i] in p.files && c[i] !in avoid)
    && (forall i :: 0 < i < |c| ==> Edge(p, p.files[c[i - 1]], c[i - 1], c[i]))
  }

  ghost predicate Reachable(p: Project, root: Path, imports: seq<Import>, avoid: set<Path>, m: Path) {
    exists c :: Chain(p, root, imports, avoid, c) && c[|c| - 1] == m
  }

  /** What the search has done when it started with `before` visited: `added` is
      what it visited, closed under edges up to the visited set. */
  ghost predicate Explored(p: Project, before: set<Path>, after: set<Path>) {
    && before <= after && after - before <= p.files.Keys
    && forall m <- after - before :: forall b :: Edge(p, p.files[m], m, b) ==> b in after
  }

  ghost predicate AllReachable(p: Project, root: Path, imports: seq<Import>, before: set<Path>, after: set<Path>) {
    forall m <- after - before :: Reachable(p, root, imports, before, m)
  }

  /** A closed set that contains what the root imports contains every chain. */
  lemma {:induction false} ChainStaysInside(p: Project, root: Path, imports: seq<Import>, before: set<Path>, after: set<Path>, c: seq<Path>)
    requires Explored(p, before, after) && Chain(p, root, imports, before, c)
    requires forall b :: Edge(p, imports, root, b) ==> b in after
    ensures c[|c| - 1] in after
  {
    if |c| > 1 {
      var d := c[..|c| - 1];
      assert Chain(p, root, imports, before, d);
      ChainStaysInside(p, root, imports, before, after, d);
      assert d[|d| - 1] in after - before;
    }
  }

  /** The modules visited are exactly those reachable around the visited ones. */
  lemma VisitedAreTheReachable(p: Project, root: Path, imports: seq<Import>, before: set<Path>, after: set<Path>, m: Path)
    requires Explored(p, before, after) && AllReachable(p, root, imports, before, after)
    requires forall b :: Edge(p, imports, root, b) ==> b in after
    ensures m in after - before <==> Reachable(p, root, imports, before, m)
  {
    if Reachable(p, root, imports, before, m) {
      var c :| Chain(p, root, imports, before, c) && c[|c| - 1] == m;
      ChainStaysInside(p, root, imports, before, after, c);
    }
  }

  /** A chain from an imported module is a longer chain from the importing one,
      also when it had to avoid more. */
  lemma ReachThrough(p: Project, root: Path, imports: seq<Import>, before: set<Path>, more: set<Path>, m: Path, b: Path)
    requires Edge(p, imports, root, m) && m in p.files && m !in before && before <= more
    requires Reachable(p, m, p.files[m], more, b)
    ensures Reachable(p, root, imports, before, b)
  {
    var c :| Chain(p, m, p.files[m], more, c) && c[|c| - 1] == b;
    var d := [m] + c;
    assert forall i :: 0 < i < |d| ==> d[i] == c[i - 1];
    assert Chain(p, root, imports, before, d) && d[|d| - 1] == b;
  }

  lemma ReachDirectly(p: Project, root: Path, imports: seq<Import>, before: set<Path>, m: Path)
    requires Edge(p, imports, root, m) && m in p.files && m !in before
    ensures Reachable(p, root, imports, before, m)
  {
    assert Chain(p, root, imports, before, [m]);
  }

  // ----- what is reported -----

  /** What one import of `a` is reported for. */
  function ReportOf(p: Project, i: Import, a: Path): multiset<Report> {
    if IsSlow(p, i) then multiset{EnforceDynamicImport(i.source, a, i.line)}
    else if IsLost(p, i, a) then multiset{CannotResolveModule}
    else multiset{}
  }

  /** What a list of imports of `a` is reported for: one report an import. */
  ghost function ReportsOf(p: Project, imports: seq<Import>, a: Path): multiset<Report> {
    if imports == [] then multiset{}
    else ReportsOf(p, imports[..|imports| - 1], a) + ReportOf(p, imports[|imports| - 1], a)
  }

  ghost function ReportsOfAll(p: Project, modules: seq<Path>): multiset<Report>
    requires forall m <- modules :: m in p.files
  {
    if modules == [] then multiset{}
    else
      var last := modules[|modules| - 1];
      ReportsOfAll(p, modules[..|modules| - 1]) + ReportsOf(p, p.files[last], last)
  }

  lemma {:induction false} InReports(p: Project, imports: seq<Import>, a: Path, r: Report)
    ensures r in ReportsOf(p, imports, a) <==> exists k :: 0 <= k < |imports| && r in ReportOf(p, imports[k], a)
  {
    if imports != [] {
      var rest, last := imports[..|imports| - 1], imports[|imports| - 1];
      assert imports == rest + [last];
      assert ReportsOf(p, imports, a) == ReportsOf(p, rest, a) + ReportOf(p, last, a);
      hide ReportOf, ReportsOf;
      InReports(p, rest, a, r);
      SomeSnoc(p, rest, last, a, r);
    }
  }

  lemma SomeSnoc(p: Project, rest: seq<Import>, last: Import, a: Path, r: Report)
    ensures (exists k :: 0 <= k < |rest + [last]| && r in ReportOf(p, (rest + [last])[k], a)) <==>
            (exists k :: 0 <= k < |rest| && r in ReportOf(p, rest[k], a)) || r in ReportOf(p, last, a)
  {
    hide ReportOf;
    var all := rest + [last];
    if k :| 0 <= k < |rest| && r in ReportOf(p, rest[k], a) {
      assert all[k] == rest[k];
    }
    if r in ReportOf(p, last, a) {
      assert all[|rest|] == last;
    }
  }

  lemma {:induction false} InReportsOfAll(p: Project, modules: seq<Path>, r: Report)
    requires forall m <- modules :: m in p.files
    ensures r in ReportsOfAll(p, modules) <==> exists m <- modules :: r in ReportsOf(p, p.files[m], m)
  {
    if modules != [] {
      hide ReportsOf;
      InReportsOfAll(p, modules[..|modules| - 1], r);
    }
  }

  /** An import is followed to `b` if and only if its path is neither ignored nor built
      in, does not look like a module's name, and resolves to `b`. */
  lemma EdgeExactly(p: Project, imports: seq<Import>, a: Path, b: Path)
    ensures Edge(p, imports, a, b) <==>
            exists i <- imports :: i.source !in p.ignoreModules && !p.isBuiltin(i.source) && !LooksExternal(i.source) &&
              p.resolve(i.source, a) == Some(b)
  {
    if Edge(p, imports, a, b) {
      var k :| 0 <= k < |imports| && Leads(p, imports[k], a, b);
      NamesExactly(imports[k].source);
      assert imports[k] in imports;
    }
    if i :| i in imports && i.source !in p.ignoreModules && !p.isBuiltin(i.source) && !LooksExternal(i.source) && p.resolve(i.source, a) == Some(b) {
      NamesExactly(i.source);
      var k :| 0 <= k < |imports| && imports[k] == i;
      assert Leads(p, imports[k], a, b);
    }
  }

  /** A report is due for a list of imports of `a` if and only if one of them, neither
      ignored nor built in, looks like a module's name and is the one reported, or does
      not and cannot be resolved. */
  lemma DueExactly(p: Project, imports: seq<Import>, a: Path, r: Report)
    ensures r in ReportsOf(p, imports, a) <==>
            exists i <- imports :: i.source !in p.ignoreModules && !p.isBuiltin(i.source) &&
              if LooksExternal(i.source) then r == EnforceDynamicImport(i.source, a, i.line)
              else p.resolve(i.source, a) == None && r == CannotResolveModule
  {
    InReports(p, imports, a, r);
    hide ReportsOf, ReportOf, LooksExternal;
    if k :| 0 <= k < |imports| && r in ReportOf(p, imports[k], a) {
      OneDueExactly(p, imports[k], a, r);
      assert imports[k] in imports;
    }
    if i :| i in imports && i.source !in p.ignoreModules && !p.isBuiltin(i.source) &&
            if LooksExternal(i.source) then r == EnforceDynamicImport(i.source, a, i.line)
            else p.resolve(i.source, a) == None && r == CannotResolveModule {
      OneDueExactly(p, i, a, r);
      var k :| 0 <= k < |imports| && imports[k] == i;
      assert r in ReportOf(p, imports[k], a);
    }
  }

  lemma OneDueExactly(p: Project, i: Import, a: Path, r: Report)
    ensures r in ReportOf(p, i, a) <==>
            i.source !in p.ignoreModules && !p.isBuiltin(i.source) &&
            if LooksExternal(i.source) then r == EnforceDynamicImport(i.source, a, i.line)
            else p.resolve(i.source, a) == None && r == CannotResolveModule
  {
    NamesExactly(i.source);
    hide LooksExternal, IsExternalModule;
  }

  /** `\w` from its first to its last characters, and their neighbours. */
  lemma WordChars()
    ensures forall c <- ['A', 'M', 'Z', 'a', 'm', 'z', '0', '5', '9', '_'] :: IsWordChar(c)
    ensures forall c <- ['@', '[', '`', '{', '/', ':', '.', '-', '$', ' '] :: !IsWordChar(c)
    ensures forall c :: IsWordChar(c) ==> c < 128 as char
  {
  }

  /** The two expressions by what they match: a word character at the start, or an at
      sign, characters other than a slash, perhaps a slash, and another such character. */
  ghost predicate LooksExternal(name: string) {
    (name != "" && IsWordChar(name[0])) || exists i, j :: ScopedMatch(name, i, j)
  }

  /** `@[^/]+\/?[^/]` matches `name[..j + 1]`, the first run of characters ending at `i`. */
  ghost predicate ScopedMatch(name: string, i: int, j: int) {
    && 1 < i <= j < |name| && name[0] == '@' && (forall k :: 1 <= k < i ==> name[k] != '/')
    && (j == i || (j == i + 1 && name[i] == '/')) && name[j] != '/'
  }

  lemma NamesExactly(name: string)
    ensures IsExternalModule(name) <==> LooksExternal(name)
  {
    if name != "" && IsScoped(name) {
      if name[2] != '/' {
        assert ScopedMatch(name, 2, 2);
      } else {
        assert ScopedMatch(name, 2, 3);
      }
    }
    if i, j :| ScopedMatch(name, i, j) {
      assert name[1] != '/' && (i > 2 ==> name[2] != '/');
    }
  }

  ghost function ToSet<T>(s: seq<T>): set<T> {
    set x | x in s
  }

  ghost predicate NoRepeats<T>(s: seq<T>) {
    forall i, j :: 0 <= i < j < |s| ==> s[i] != s[j]
  }

  /** The search from the file `a` over `imports` has taken the visited set from
      `before` to `after`, reported `reps` and parsed the modules `read`. */
  ghost predicate Searched(p: Project, a: Path, imports: seq<Import>, before: set<Path>, after: set<Path>, reps: multiset<Report>, read: seq<Path>) {
    && Explored(p, before, after)
    && AllReachable(p, a, imports, before, after)
    && (forall b :: Edge(p, imports, a, b) ==> b in after)
    && NoRepeats(read) && ToSet(read) == after - before && (forall m <- read :: m in p.files)
    && reps == Due(p, a, imports, read)
  }

  /** One report for each import of `a`, and of the modules read, that calls for one. */
  ghost function Due(p: Project, a: Path, imports: seq<Import>, read: seq<Path>): multiset<Report>
    requires forall m <- read :: m in p.files
  {
    ReportsOf(p, imports, a) + ReportsOfAll(p, read)
  }

  lemma DueSnoc(p: Project, a: Path, imports: seq<Import>, i: Import, read1: seq<Path>, read2: seq<Path>)
    requires forall m <- read1 + read2 :: m in p.files
    ensures (forall m <- read1 :: m in p.files) && (forall m <- read2 :: m in p.files)
    ensures Due(p, a, imports + [i], read1 + read2) == Due(p, a, imports, read1) + Due(p, a, [i], read2)
  {
    assert forall m <- read1 :: m in read1 + read2;
    assert forall m <- read2 :: m in read1 + read2;
    hide ReportsOf, ReportsOfAll;
    ReportsSnoc(p, imports, i, a);
    ReportsOfBoth(p, read1, read2);
    FourBags(ReportsOf(p, imports, a), ReportsOf(p, [i], a), ReportsOfAll(p, read1), ReportsOfAll(p, read2));
  }

  lemma FourBags(a: multiset<Report>, b: multiset<Report>, c: multiset<Report>, d: multiset<Report>)
    ensures a + b + (c + d) == a + c + (b + d)
  {
  }

  lemma DueInside(p: Project, a: Path, i: Import, m: Path, read: seq<Path>)
    requires Leads(p, i, a, m) && m in p.files && forall n <- read :: n in p.files
    ensures Due(p, a, [i], [m] + read) == Due(p, m, p.files[m], read)
  {
    OneImport(p, i, a);
    assert ReportOf(p, i, a) == multiset{};
    hide ReportsOf, ReportsOfAll, ReportOf;
    InsideReports(p, m, read);
  }

  lemma NothingRead(p: Project, a: Path, imports: seq<Import>)
    ensures Due(p, a, imports, []) == ReportsOf(p, imports, a)
  {
    hide ReportsOf;
    assert ReportsOfAll(p, []) == multiset{};
  }

  lemma NothingSearched(p: Project, a: Path, imports: seq<Import>, v: set<Path>, reps: multiset<Report>)
    requires reps == ReportsOf(p, imports, a) && forall b :: Edge(p, imports, a, b) ==> b in v
    ensures Searched(p, a, imports, v, v, reps, [])
  {
    assert v - v == {};
    hide Due, ReportsOf;
    NothingRead(p, a, imports);
  }

  lemma OneImport(p: Project, i: Import, a: Path)
    ensures ReportsOf(p, [i], a) == ReportOf(p, i, a)
    ensures forall b :: Edge(p, [i], a, b) <==> Leads(p, i, a, b)
  {
    assert [i][0] == i && [i][..0] == [];
  }

  lemma EdgeSnoc(p: Project, imports: seq<Import>, i: Import, a: Path, b: Path)
    ensures Edge(p, imports + [i], a, b) <==> Edge(p, imports, a, b) || Edge(p, [i], a, b)
  {
    var all := imports + [i];
    if Edge(p, imports, a, b) {
      var k :| 0 <= k < |imports| && Leads(p, imports[k], a, b);
      assert all[k] == imports[k];
    }
    if Edge(p, [i], a, b) {
      assert all[|imports|] == i;
    }
  }

  lemma ReportsSnoc(p: Project, imports: seq<Import>, i: Import, a: Path)
    ensures ReportsOf(p, imports + [i], a) == ReportsOf(p, imports, a) + ReportsOf(p, [i], a)
  {
    OneImport(p, i, a);
    assert (imports + [i])[..|imports|] == imports;
  }

  lemma {:induction false} ReportsOfBoth(p: Project, x: seq<Path>, y: seq<Path>)
    requires forall m <- x + y :: m in p.files
    ensures ReportsOfAll(p, x + y) == ReportsOfAll(p, x) + ReportsOfAll(p, y)
  {
    assert forall m <- y :: m in x + y;
    assert forall m <- x :: m in x + y;
    if y == [] {
      assert x + y == x;
    } else {
      var rest := y[..|y| - 1];
      assert (x + y)[..|x + y| - 1] == x + rest && (x + y)[|x + y| - 1] == y[|y| - 1];
      ReportsOfBoth(p, x, rest);
    }
  }

  /** Around fewer visited modules, and from more imports, more is reachable. */
  lemma ReachMore(p: Project, a: Path, imports: seq<Import>, more: seq<Import>, before: set<Path>, mid: set<Path>, m: Path)
    requires Reachable(p, a, imports, mid, m) && before <= mid
    requires forall b :: Edge(p, imports, a, b) ==> Edge(p, more, a, b)
    ensures Reachable(p, a, more, before, m)
  {
    var c :| Chain(p, a, imports, mid, c) && c[|c| - 1] == m;
    assert Chain(p, a, more, before, c);
  }

  lemma ReadSnoc(x: seq<Path>, y: seq<Path>)
    requires NoRepeats(x) && NoRepeats(y) && ToSet(x) !! ToSet(y)
    ensures NoRepeats(x + y) && ToSet(x + y) == ToSet(x) + ToSet(y)
  {
    var z := x + y;
    forall i, j | 0 <= i < j < |z|
      ensures z[i] != z[j]
    {
      if i < |x| <= j {
        assert z[i] in ToSet(x) && z[j] in ToSet(y);
      }
    }
  }

  /** Going on with one more import. */
  lemma SearchedSnoc(p: Project, a: Path, imports: seq<Import>, i: Import, before: set<Path>, mid: set<Path>, after: set<Path>,
                     reps1: multiset<Report>, reps2: multiset<Report>, read1: seq<Path>, read2: seq<Path>)
    requires Searched(p, a, imports, before, mid, reps1, read1)
    requires Searched(p, a, [i], mid, after, reps2, read2)
    ensures Searched(p, a, imports + [i], before, after, reps1 + reps2, read1 + read2)
  {
    SnocIsExplored(p, a, imports, i, before, mid, after);
    assert ToSet(read1) !! ToSet(read2) && after - before == (mid - before) + (after - mid);
    hide Due, Explored, AllReachable, Edge;
    assert forall m <- read1 + read2 :: m in p.files;
    DueSnoc(p, a, imports, i, read1, read2);
    ReadSnoc(read1, read2);
  }

  lemma SnocIsExplored(p: Project, a: Path, imports: seq<Import>, i: Import, before: set<Path>, mid: set<Path>, after: set<Path>)
    requires Explored(p, before, mid) && AllReachable(p, a, imports, before, mid)
    requires Explored(p, mid, after) && AllReachable(p, a, [i], mid, after)
    requires forall b :: Edge(p, imports, a, b) ==> b in mid
    requires forall b :: Edge(p, [i], a, b) ==> b in after
    ensures Explored(p, before, after) && AllReachable(p, a, imports + [i], before, after)
    ensures forall b :: Edge(p, imports + [i], a, b) ==> b in after
  {
    hide Chain, Reachable, Edge;
    forall b
      ensures Edge(p, imports + [i], a, b) <==> Edge(p, imports, a, b) || Edge(p, [i], a, b)
    {
      EdgeSnoc(p, imports, i, a, b);
    }
    forall m | m in after - before
      ensures Reachable(p, a, imports + [i], before, m)
    {
      if m in mid {
        ReachMore(p, a, imports, imports + [i], before, before, m);
      } else {
        ReachMore(p, a, [i], imports + [i], before, mid, m);
      }
    }
  }

  /** Entering a module that was not visited yet. */
  lemma SearchedInside(p: Project, a: Path, i: Import, m: Path, before: set<Path>, after: set<Path>, reps: multiset<Report>, read: seq<Path>)
    requires Leads(p, i, a, m) && m in p.files && m !in before
    requires Searched(p, m, p.files[m], before + {m}, after, reps, read)
    ensures Searched(p, a, [i], before, after, reps, [m] + read)
  {
    var inner := after - (before + {m});
    assert after - before == {m} + inner;
    OneImport(p, i, a);
    InsideIsReachable(p, a, i, m, before, after);
    InsideIsExplored(p, m, before, after);
    assert NoRepeats([m]) && ToSet([m]) == {m} && ToSet(read) == inner;
    hide Due, ReportsOf, ReportOf, Explored, AllReachable, NoRepeats, ToSet;
    DueInside(p, a, i, m, read);
    ReadSnoc([m], read);
  }

  lemma InsideReports(p: Project, m: Path, read: seq<Path>)
    requires m in p.files && forall n <- read :: n in p.files
    ensures ReportsOfAll(p, [m] + read) == ReportsOf(p, p.files[m], m) + ReportsOfAll(p, read)
  {
    assert [m][..0] == [] && [m][0] == m;
    assert ReportsOfAll(p, [m]) == ReportsOf(p, p.files[m], m);
    ReportsOfBoth(p, [m], read);
  }

  lemma InsideIsExplored(p: Project, m: Path, before: set<Path>, after: set<Path>)
    requires m in p.files && Explored(p, before + {m}, after) && forall b :: Edge(p, p.files[m], m, b) ==> b in after
    ensures Explored(p, before, after)
  {
  }

  lemma InsideIsReachable(p: Project, a: Path, i: Import, m: Path, before: set<Path>, after: set<Path>)
    requires Leads(p, i, a, m) && m in p.files && m !in before
    requires AllReachable(p, m, p.files[m], before + {m}, after)
    ensures AllReachable(p, a, [i], before, after)
  {
    OneImport(p, i, a);
    ReachDirectly(p, a, [i], before, m);
    hide Reachable;
    forall b | b in after - before
      ensures Reachable(p, a, [i], before, b)
    {
      if b != m {
        ReachThrough(p, a, [i], before, before + {m}, m, b);
      }
    }
  }

  /** `r` is due for the linted file itself or for a module reachable from it. */
  ghost predicate ShouldReport(p: Project, root: Path, imports: seq<Import>, before: set<Path>, r: Report) {
    r in ReportsOf(p, imports, root) ||
    exists m :: m in p.files && Reachable(p, root, imports, before, m) && r in ReportsOf(p, p.files[m], m)
  }

  lemma SearchIsExact(p: Project, a: Path, imports: seq<Import>, before: set<Path>, after: set<Path>, reps: multiset<Report>, read: seq<Path>)
    requires Searched(p, a, imports, before, after, reps, read)
    ensures forall m :: m in ToSet(read) <==> Reachable(p, a, imports, before, m)
    ensures forall r :: r in reps <==> ShouldReport(p, a, imports, before, r)
  {
    hide ReportsOf, ReportsOfAll, Chain, Edge;
    forall m
      ensures m in after - before <==> Reachable(p, a, imports, before, m)
    {
      VisitedAreTheReachable(p, a, imports, before, after, m);
    }
    forall r
      ensures r in reps <==> ShouldReport(p, a, imports, before, r)
    {
      InReportsOfAll(p, read, r);
      assert forall m :: m in read <==> m in ToSet(read);
    }
  }

  /** A slow dependency is among the exact reports if and only if it is imported,
      neither ignored nor built in, by the linted file or by a reachable module. */
  lemma SlowDependencyReported(p: Project, root: Path, imports: seq<Import>, before: set<Path>, dependency: string)
    ensures (exists filename, line :: ShouldReport(p, root, imports, before, EnforceDynamicImport(dependency, filename, line)))
       <==> (exists m :: Mentions(p, root, imports, before, m, dependency))
  {
    hide ReportsOf, Reachable;
    if exists filename, line :: ShouldReport(p, root, imports, before, EnforceDynamicImport(dependency, filename, line)) {
      var filename, line :| ShouldReport(p, root, imports, before, EnforceDynamicImport(dependency, filename, line));
      var r := EnforceDynamicImport(dependency, filename, line);
      if r in ReportsOf(p, imports, root) {
        SlowReported(p, imports, root, dependency);
        assert Mentions(p, root, imports, before, None, dependency);
      } else {
        var m :| m in p.files && Reachable(p, root, imports, before, m) && r in ReportsOf(p, p.files[m], m);
        SlowReported(p, p.files[m], m, dependency);
        assert Mentions(p, root, imports, before, Some(m), dependency);
      }
    }
    if exists m :: Mentions(p, root, imports, before, m, dependency) {
      var m :| Mentions(p, root, imports, before, m, dependency);
      var list, a := if m.None? then imports else p.files[m.value], if m.None? then root else m.value;
      SlowReported(p, list, a, dependency);
      var filename, line :| EnforceDynamicImport(dependency, filename, line) in ReportsOf(p, list, a);
      assert ShouldReport(p, root, imports, before, EnforceDynamicImport(dependency, filename, line));
    }
  }

  lemma SlowReported(p: Project, list: seq<Import>, a: Path, dependency: string)
    ensures (exists filename, line :: EnforceDynamicImport(dependency, filename, line) in ReportsOf(p, list, a)) <==>
            exists k :: 0 <= k < |list| && IsSlow(p, list[k]) && list[k].source == dependency
  {
    hide ReportsOf, IsSlow;
    if filename, line :| EnforceDynamicImport(dependency, filename, line) in ReportsOf(p, list, a) {
      InReports(p, list, a, EnforceDynamicImport(dependency, filename, line));
    }
    if k :| 0 <= k < |list| && IsSlow(p, list[k]) && list[k].source == dependency {
      var r := EnforceDynamicImport(dependency, a, list[k].line);
      InReports(p, list, a, r);
      assert r in ReportOf(p, list[k], a);
    }
  }

  /** `dependency` is a slow import of the linted file (None) or of the reachable module. */
  ghost predicate Mentions(p: Project, root: Path, imports: seq<Import>, before: set<Path>, m: Option<Path>, dependency: string) {
    match m
    case None => exists k :: 0 <= k < |imports| && IsSlow(p, imports[k]) && imports[k].source == dependency
    case Some(n) =>
      n in p.files && Reachable(p, root, imports, before, n) &&
      exists k :: 0 <= k < |p.files[n]| && IsSlow(p, p.files[n][k]) && p.files[n][k].source == dependency
  }

  // ----- the visited set outlives the file -----

  const SHARED: Project := Project(
    map["helper" := [Import("lodash", 1)]],
    (source, from) => if source == "./helper" then Some("helper") else None,
    source => false,
    {})

  const IMPORTS: seq<Import> := [Import("./helper", 1)]

  const LODASH: Report := EnforceDynamicImport("lodash", "helper", 1)

  lemma SharedIsOk()
    ensures ProjectOk(SHARED)
  {
  }

  /** The helper is reachable from any file that imports it, and nothing else is. */
  lemma OnlyTheHelper(root: Path, m: Path)
    ensures Reachable(SHARED, root, IMPORTS, {}, m) <==> m == "helper"
  {
    OneImport(SHARED, IMPORTS[0], root);
    assert !IsExternalModule("./helper");
    assert Leads(SHARED, IMPORTS[0], root, "helper");
    ReachDirectly(SHARED, root, IMPORTS, {}, "helper");
    if Reachable(SHARED, root, IMPORTS, {}, m) {
      var c :| Chain(SHARED, root, IMPORTS, {}, c) && c[|c| - 1] == m;
      assert m in SHARED.files;
    }
  }

  lemma LodashIsDue(root: Path)
    ensures ShouldReport(SHARED, root, IMPORTS, {}, LODASH)
  {
    OnlyTheHelper(root, "helper");
    assert IsExternalModule("lodash");
    OneImport(SHARED, Import("lodash", 1), "helper");
  }

  /** Around the visited helper nothing is due. */
  lemma NothingIsDue(root: Path, r: Report)
    ensures !ShouldReport(SHARED, root, IMPORTS, {"helper"}, r)
  {
    OneImport(SHARED, IMPORTS[0], root);
    assert !IsExternalModule("./helper");
  }

  /** Two files import the same helper.  Linting the second one reports nothing,
      although the slow dependency is due for it as well: the helper was visited. */
  method SecondFileIsNotReported() returns (first: seq<Report>, second: seq<Report>)
    ensures LODASH in first && second == []
    ensures ShouldReport(SHARED, "second", IMPORTS, {}, LODASH)
  {
    var rule := new Rule(SHARED);
    SharedIsOk();
    LodashIsDue("first");
    LodashIsDue("second");
    hide ShouldReport, Reachable;
    rule.Lint("first", IMPORTS);
    first := rule.reports;
    assert first[0..] == first && rule.parsed[0..] == rule.parsed;
    forall m
      ensures m in rule.parsed <==> m == "helper"
    {
      OnlyTheHelper("first", m);
    }
    assert rule.traversed == {"helper"};
    rule.Lint("second", IMPORTS);
    second := rule.reports[|first|..];
    if second != [] {
      assert second[0] in second;
      NothingIsDue("second", second[0]);
    }
  }

  class Rule {
    const project: Project
    // module-level in the source: shared by all files linted in the process
    var traversed: set<Path>
    var reports: seq<Report>
    // history: the modules read and parsed, in order
    ghost var parsed: seq<Path>

    constructor (project: Project)
      ensures this.project == project && traversed == {} && reports == [] && parsed == []
    {
      this.project := project;
      traversed, reports, parsed := {}, [], [];
    }

    /** Linting one file: exactly the modules reachable around those visited before
        are parsed, each once, and exactly what they and the file mention is reported. */
    method Lint(filename: Path, imports: seq<Import>)
      requires ProjectOk(project)
      modifies this
      ensures old(reports) <= reports && old(parsed) <= parsed
      ensures NoRepeats(parsed[|old(parsed)|..])
      ensures forall m :: m in parsed[|old(parsed)|..] <==> Reachable(project, filename, imports, old(traversed), m)
      ensures traversed == old(traversed) + ToSet(parsed[|old(parsed)|..])
      ensures forall r :: r in reports[|old(reports)|..] <==>
                ShouldReport(project, filename, imports, old(traversed), r)
      ensures (forall m <- parsed[|old(parsed)|..] :: m in project.files) &&
              multiset(reports[|old(reports)|..]) ==
                Due(project, filename, imports, parsed[|old(parsed)|..])
    {
      VisitImports(filename, imports);
      SearchIsExact(project, filename, imports, old(traversed), traversed,
                    multiset(reports[|old(reports)|..]), parsed[|old(parsed)|..]);
      assert forall r :: r in reports[|old(reports)|..] <==> r in multiset(reports[|old(reports)|..]);
      assert forall m :: m in parsed[|old(parsed)|..] <==> m in ToSet(parsed[|old(parsed)|..]);
    }

    /** `visitModules` over the top-level imports of the file `filename`. */
    method VisitImports(filename: Path, imports: seq<Import>)
      requires ProjectOk(project)
      modifies this
      ensures old(reports) <= reports && old(parsed) <= parsed
      ensures Searched(project, filename, imports, old(traversed), traversed,
                       multiset(reports[|old(reports)|..]), parsed[|old(parsed)|..])
      decreases project.files.Keys - traversed, 1
    {
      var k := 0;
      assert imports[..0] == [];
      NothingSearched(project, filename, [], traversed, multiset{});
      hide Searched, ReportsOf, Edge;
      while k < |imports|
        invariant 0 <= k <= |imports|
        invariant old(traversed) <= traversed && old(reports) <= reports && old(parsed) <= parsed
        invariant Searched(project, filename, imports[..k], old(traversed), traversed,
                           multiset(reports[|old(reports)|..]), parsed[|old(parsed)|..])
      {
        ghost var v, rs, ps := traversed, reports, parsed;
        Visitor(filename, imports[k]);
        assert v <= traversed by { SearchedGrows(project, filename, [imports[k]], v, traversed, multiset(reports[|rs|..]), parsed[|ps|..]); }
        SearchedOn(project, filename, imports, k, old(traversed), v, traversed,
                   old(reports), rs, reports, old(parsed), ps, parsed);
        k := k + 1;
      }
      assert imports[..k] == imports;
    }

    /** `visitor` together with `detectTopLevelExternalDependency`. */
    method Visitor(filename: Path, i: Import)
      requires ProjectOk(project)
      modifies this
      ensures old(reports) <= reports && old(parsed) <= parsed
      ensures Searched(project, filename, [i], old(traversed), traversed,
                       multiset(reports[|old(reports)|..]), parsed[|old(parsed)|..])
      decreases project.files.Keys - traversed, 0
    {
      OneImport(project, i, filename);
      hide Searched, ReportsOf, Chain;
      if i.source in project.ignoreModules || project.isBuiltin(i.source) {
        NothingSearched(project, filename, [i], traversed, multiset{});
        assert reports[|old(reports)|..] == [] && parsed[|old(parsed)|..] == [];
        return;
      }
      if !IsExternalModule(i.source) {
        var absoluteModulePath := project.resolve(i.source, filename);
        if absoluteModulePath.None? {
          reports := reports + [CannotResolveModule];
          NothingSearched(project, filename, [i], traversed, multiset{CannotResolveModule});
          assert reports[|old(reports)|..] == [CannotResolveModule] && parsed[|old(parsed)|..] == [];
          return;
        }
        var m := absoluteModulePath.value;
        if m in traversed {
          NothingSearched(project, filename, [i], traversed, multiset{});
          assert reports[|old(reports)|..] == [] && parsed[|old(parsed)|..] == [];
          return;
        }
        traversed := traversed + {m};
        parsed := parsed + [m];
        VisitImports(m, project.files[m]);
        SearchedInside(project, filename, i, m, old(traversed), traversed,
                       multiset(reports[|old(reports)|..]), parsed[|old(parsed)| + 1..]);
        assert parsed[|old(parsed)|..] == [m] + parsed[|old(parsed)| + 1..];
      } else {
        var report := EnforceDynamicImport(i.source, filename, i.line);
        reports := reports + [report];
        NothingSearched(project, filename, [i], traversed, multiset{report});
        assert reports[|old(reports)|..] == [report] && parsed[|old(parsed)|..] == [];
      }
    }
  }

  lemma SearchedOn(p: Project, a: Path, imports: seq<Import>, k: nat, before: set<Path>, mid: set<Path>, after: set<Path>,
                   reps0: seq<Report>, reps1: seq<Report>, reps2: seq<Report>, read0: seq<Path>, read1: seq<Path>, read2: seq<Path>)
    requires k < |imports| && reps0 <= reps1 <= reps2 && read0 <= read1 <= read2
    requires Searched(p, a, imports[..k], before, mid, multiset(reps1[|reps0|..]), read1[|read0|..])
    requires Searched(p, a, [imports[k]], mid, after, multiset(reps2[|reps1|..]), read2[|read1|..])
    ensures Searched(p, a, imports[..k + 1], before, after, multiset(reps2[|reps0|..]), read2[|read0|..])
  {
    hide Searched;
    SearchedSnoc(p, a, imports[..k], imports[k], before, mid, after,
                 multiset(reps1[|reps0|..]), multiset(reps2[|reps1|..]), read1[|read0|..], read2[|read1|..]);
    assert imports[..k + 1] == imports[..k] + [imports[k]];
    Appended(reps0, reps1, reps2);
    Appended(read0, read1, read2);
  }

  lemma SearchedGrows(p: Project, a: Path, imports: seq<Import>, before: set<Path>, after: set<Path>, reps: multiset<Report>, read: seq<Path>)
    requires Searched(p, a, imports, before, after, reps, read)
    ensures before <= after
  {
  }

  lemma Appended<T>(a: seq<T>, b: seq<T>, c: seq<T>)
    requires a <= b <= c
    ensures c[|a|..] == b[|a|..] + c[|b|..]
    ensures ToSet(c[|a|..]) == ToSet(b[|a|..]) + ToSet(c[|b|..])
    ensures multiset(c[|a|..]) == multiset(b[|a|..]) + multiset(c[|b|..])
  {
    assert c[|a|..] == b[|a|..] + c[|b|..];
  }
}
