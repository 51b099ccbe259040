/** Runs of the Solidity compile task that do not end as a build from scratch would:
    contracts renamed within a process, and contracts whose names differ in case only. */
module SolidityRenaming {
  import opened SolidityBuildSpec
  import opened SolidityRuns
  import opened TrueCase

  // ----- names that differ in case only -----

  /** A look-up of `m` meets the artifact `n` of the same source first, which is there
      or emitted and has the same name in lower case. */
  lemma EarlierTwinStops(env: Env, a: Around, s: State, c: Contents, p: Project, f: SolidityBuildSpec.Path, n: string, m: string)
    requires LocalCompiler(env) && CollisionFree(env) && Fresh(env, s, c) && ProjectOk(env, p)
    requires s.cache.Keys * p.contents.Keys <= p.graph
    requires f in p.graph && m in Clean(env, p).disk[f] && (n in Clean(env, p).disk[f] || n in Dir(s.disk, f))
    requires a.fs.lower(n + ".json") == a.fs.lower(m + ".json") && a.fs.precedes(n + ".json", m + ".json")
    ensures Compilable(p) && Run(env, a, s, p).Stopped?
  {
    var x, y := Contract(f, n), Contract(f, m);
    CleanNames(env, p, x);
    CleanNames(env, p, y);
    StoredIs(s.disk, x);
    assert x.source == y.source == f && x.name == n && y.name == m;
    assert Dir(Clean(env, p).disk, f) == Clean(env, p).disk[f];
    hide *;
    CompletesInGraph(env, a, s, c, p);
    TwinIsMet(a, Stored(s.disk) + Clean(env, p).named, s.named + Clean(env, p).named, x, y);
  }

  lemma TwinIsMet(a: Around, stored: set<Contract>, named: set<Contract>, x: Contract, y: Contract)
    requires x in stored && y in stored && y in named && x.source == y.source
    requires a.fs.lower(x.name + ".json") == a.fs.lower(y.name + ".json") && a.fs.precedes(x.name + ".json", y.name + ".json")
    ensures !NoTwins(a, stored, named)
  {
    var nodes := PathsOf(stored) + a.others;
    var dir := ContractNames.Split(x.source, '/');
    assert PathOf(x) == dir + [x.name + ".json"] && PathOf(y) == dir + [y.name + ".json"];
    assert PathOf(x) in nodes && PathOf(y) in nodes;
    hide PathOf, PathsOf, Shadowed;
    NotBeforeItself(a.fs.precedes, x.name + ".json");
    OneTwinIsShadowed(a.fs, nodes, dir, x.name + ".json", y.name + ".json");
  }

  lemma NotBeforeItself(order: Order, x: string)
    ensures !order(x, x)
  {
    assert TotalOrder(order);
  }

  /** Two contracts of one source whose names differ in case only stop every run, from
      any cache and whatever the order of listings. */
  lemma CaseTwinsStop(env: Env, a: Around, s: State, c: Contents, p: Project, f: SolidityBuildSpec.Path, n: string, m: string)
    requires LocalCompiler(env) && CollisionFree(env) && Fresh(env, s, c) && ProjectOk(env, p)
    requires s.cache.Keys * p.contents.Keys <= p.graph
    requires f in p.graph && n in Clean(env, p).disk[f] && m in Clean(env, p).disk[f] && n != m
    requires a.fs.lower(n + ".json") == a.fs.lower(m + ".json")
    ensures Compilable(p) && Run(env, a, s, p).Stopped?
  {
    ContractNames.SameSuffix(n, m, ".json");
    var order: Order := a.fs.precedes;
    assert TotalOrder(order);
    hide *;
    if order(n + ".json", m + ".json") {
      EarlierTwinStops(env, a, s, c, p, f, n, m);
    } else {
      OneComesFirst(order, n + ".json", m + ".json");
      EarlierTwinStops(env, a, s, c, p, f, m, n);
    }
  }

  lemma OneComesFirst(order: Order, x: string, y: string)
    requires x != y
    ensures order(x, y) || order(y, x)
  {
    assert TotalOrder(order);
  }

  // ----- a contract renamed within a process -----

  /** The content of a file is the name of its only contract. */
  const RENAMING: Env := Env(
    s => s,
    (f, s) => {},
    (config, sources: Contents, f) => if f in sources then map[sources[f] := "artifact"] else map[],
    config => false)

  const JOB_A := Job("solc", [JobFile("A.sol", true)])

  function Naming(name: string): Project {
    Project(map["A.sol" := name], {"A.sol"}, [JOB_A], false)
  }

  function NamedIn(name: string): Contract {
    Contract("A.sol", name)
  }

  lemma RenamingEnv()
    ensures CollisionFree(RENAMING) && LocalCompiler(RENAMING)
  {
    forall config: Config, s: Contents, t: Contents, f | SameClosure(RENAMING, s, t, f)
      ensures RENAMING.compile(config, s, f) == RENAMING.compile(config, t, f)
    {
      var k :| Agree(RENAMING, s, t, f, k);
      assert s[f] == t[f];
    }
  }

  lemma NamingOk(name: string)
    ensures ProjectOk(RENAMING, Naming(name)) && Compilable(Naming(name))
  {
    PathIsListed(JOB_A, 0);
    assert JOB_A.files[0] == JobFile("A.sol", true);
    assert Paths(JOB_A) == {"A.sol"};
    assert Closed(RENAMING, Naming(name).contents, {"A.sol"});
    assert Emits(Naming(name).jobs[0], "A.sol");
    assert JobOk(RENAMING, Naming(name), JOB_A);
  }

  lemma NamingClean(name: string)
    requires ProjectOk(RENAMING, Naming(name))
    ensures var clean := Clean(RENAMING, Naming(name));
            clean.named == {NamedIn(name)} && Stored(clean.disk) == {NamedIn(name)} && clean.cache.Keys == {"A.sol"}
  {
    NamingShape(name);
    CleanNamesCache(RENAMING, Naming(name));
    hide *;
    OneContract(Clean(RENAMING, Naming(name)), name);
  }

  lemma OneContract(clean: State, name: string)
    requires clean.disk == map["A.sol" := map[name := "artifact"]]
    requires clean.cache.Keys == {"A.sol"} && clean.cache["A.sol"].artifacts == {name}
    ensures NamesIn(clean.cache) == {NamedIn(name)} && Stored(clean.disk) == {NamedIn(name)}
  {
  }

  lemma NamingShape(name: string)
    requires ProjectOk(RENAMING, Naming(name))
    ensures var clean := Clean(RENAMING, Naming(name));
            && clean.disk == map["A.sol" := map[name := "artifact"]]
            && clean.cache.Keys == {"A.sol"} && clean.cache["A.sol"].artifacts == {name}
  {
    Compiling(name);
    hide ProjectOk, ConfigFor;
    var config := ConfigFor(RENAMING, Naming(name), "A.sol");
    assert RENAMING.compile(config, Naming(name).contents, "A.sol") == map[name := "artifact"];
  }

  lemma Compiling(name: string)
    ensures forall config :: RENAMING.compile(config, Naming(name).contents, "A.sol") == map[name := "artifact"]
    ensures Naming(name).graph == {"A.sol"}
  {
  }

  lemma CleanNamesCache(env: Env, p: Project)
    requires ProjectOk(env, p)
    ensures Clean(env, p).named == NamesIn(Clean(env, p).cache)
  {
  }

  /** What a process that compiled `A.sol` with the contract `x` has named. */
  lemma AfterNaming(x: string, y: string)
    requires x != y
    ensures ProjectOk(RENAMING, Naming(x)) && ProjectOk(RENAMING, Naming(y)) && Compilable(Naming(y))
    ensures var s := Clean(RENAMING, Naming(x));
            && s.named == {NamedIn(x)} && Stored(s.disk) == {NamedIn(x)} && s.cache.Keys == Naming(y).graph
            && Clean(RENAMING, Naming(y)).named == {NamedIn(y)} && NamedIn(x) != NamedIn(y)
            && Fresh(RENAMING, s, Naming(x).contents)
  {
    NamingOk(x);
    NamingOk(y);
    hide ProjectOk, Compilable, Clean, Fresh, Stored;
    NamingClean(x);
    NamingClean(y);
    CleanIsFresh(RENAMING, Naming(x));
  }

  /** An obsolete artifact that the process has named before stays, and is no reason
      for the run not to complete. */
  lemma NamedBeforeStays(env: Env, a: Around, s: State, c: Contents, p: Project, x: Contract)
    requires LocalCompiler(env) && CollisionFree(env) && Fresh(env, s, c) && ProjectOk(env, p)
    requires s.cache.Keys * p.contents.Keys <= p.graph
    requires s.named <= Stored(s.disk) && x in s.named && x !in Clean(env, p).named
    ensures Compilable(p)
    ensures var r := Run(env, a, s, p);
            && x in Stored(r.after.disk) && r != Completed(Clean(env, p))
            && (r.Completed? <==> NoTwins(a, Stored(s.disk) + Clean(env, p).named, s.named + Clean(env, p).named))
  {
    hide *;
    NamedStay(env, a, s, p);
    CompletesInGraph(env, a, s, c, p);
    IncrementalIsClean(env, a, s, c, p);
  }

  /** One that is gone stops it. */
  lemma NamedBeforeStops(env: Env, a: Around, s: State, c: Contents, p: Project, x: Contract)
    requires LocalCompiler(env) && CollisionFree(env) && Fresh(env, s, c) && ProjectOk(env, p)
    requires s.cache.Keys * p.contents.Keys <= p.graph
    requires x in s.named && x !in Stored(s.disk) && x !in Clean(env, p).named
    ensures Compilable(p) && Run(env, a, s, p).Stopped?
  {
    hide *;
    CompletesInGraph(env, a, s, c, p);
  }

  /** Compiling again in the same process after the contract `x` was renamed to `y`: the
      artifact of `x` is still there, so the run does not end as a build from scratch,
      although it completes unless a look-up meets an earlier twin. */
  lemma RenamedContractStays(a: Around, x: string, y: string)
    requires x != y
    ensures ProjectOk(RENAMING, Naming(x)) && ProjectOk(RENAMING, Naming(y)) && Compilable(Naming(y))
    ensures var r := Run(RENAMING, a, Clean(RENAMING, Naming(x)), Naming(y));
            && NamedIn(x) in Stored(r.after.disk) && r != Completed(Clean(RENAMING, Naming(y)))
            && (r.Completed? <==> NoTwins(a, {NamedIn(x), NamedIn(y)}, {NamedIn(x), NamedIn(y)}))
  {
    hide *;
    RenamingEnv();
    AfterNaming(x, y);
    Pair(NamedIn(x), NamedIn(y));
    NamedBeforeStays(RENAMING, a, Clean(RENAMING, Naming(x)), Naming(x).contents, Naming(y), NamedIn(x));
  }

  lemma Pair(x: Contract, y: Contract)
    ensures {x} + {y} == {x, y}
  {
  }

  /** After the `clean` task, which forgets no valid artifact, that run even stops: the
      artifact of `x` is looked up, and nothing emits it. */
  lemma RenamedContractStopsAfterClean(a: Around, x: string, y: string)
    requires x != y
    ensures ProjectOk(RENAMING, Naming(x)) && Compilable(Naming(y))
    ensures Run(RENAMING, a, Begin(Clean(RENAMING, Naming(x)), CleanedRound(a, y)), Naming(y)).Stopped?
  {
    AfterNaming(x, y);
    var s := Begin(Clean(RENAMING, Naming(x)), CleanedRound(a, y));
    assert s.named == {NamedIn(x)} && s.cache == map[] && s.disk == map[];
    hide *;
    NothingStored(s, y);
    RenamingEnv();
    NamedBeforeStops(RENAMING, a, s, Naming(y).contents, Naming(y), NamedIn(x));
  }

  /** The `clean` task and a run, in the same process. */
  function CleanedRound(a: Around, name: string): Round {
    Round(false, true, map[], Naming(name), a)
  }

  lemma NothingStored(s: State, name: string)
    requires s.cache == map[] && s.disk == map[]
    ensures Stored(s.disk) == {} && Fresh(RENAMING, s, Naming(name).contents)
    ensures s.cache.Keys * Naming(name).contents.Keys <= Naming(name).graph
  {
  }

  // ----- that directory holds no twins -----

  lemma LowerDiffer()
    ensures LowerAscii("A.json") != LowerAscii("B.json")
  {
    assert LowerAscii("A.json")[0] == 'a' && LowerAscii("B.json")[0] == 'b';
  }

  lemma PathOfA(name: string)
    ensures PathOf(NamedIn(name)) == ["A.sol", name + ".json"]
  {
    ContractNames.SplitPlain("A.sol", '/');
  }

  /** On a directory with only these artifacts the run of `RenamedContractStays` completes. */
  lemma RenamedContractHasNoTwin()
    ensures NoTwins(Around(ASCII, {}), {NamedIn("A"), NamedIn("B")}, {NamedIn("A"), NamedIn("B")})
  {
    PathOfA("A");
    PathOfA("B");
    LowerDiffer();
    assert "A" + ".json" == "A.json" && "B" + ".json" == "B.json";
    var p, q := ["A.sol", "A.json"], ["A.sol", "B.json"];
    assert PathsOf({NamedIn("A"), NamedIn("B")}) + {} == {p, q};
    assert ASCII.lower("A.json") != ASCII.lower("B.json");
    hide *;
    TwoFiles(ASCII, "A.sol", "A.json", "B.json");
    BothUnshadowed(p, q);
  }

  lemma BothUnshadowed(p: ContractNames.Path, q: ContractNames.Path)
    requires PathOf(NamedIn("A")) == p && PathOf(NamedIn("B")) == q
    requires PathsOf({NamedIn("A"), NamedIn("B")}) + {} == {p, q}
    requires !Shadowed(ASCII, {p, q}, p) && !Shadowed(ASCII, {p, q}, q)
    ensures NoTwins(Around(ASCII, {}), {NamedIn("A"), NamedIn("B")}, {NamedIn("A"), NamedIn("B")})
  {
    hide PathOf, PathsOf, Shadowed;
  }

  lemma TwoFiles(fs: Listing, folder: string, x: string, y: string)
    requires fs.lower(x) != fs.lower(y)
    ensures !Shadowed(fs, {[folder, x], [folder, y]}, [folder, x]) && !Shadowed(fs, {[folder, x], [folder, y]}, [folder, y])
  {
    var nodes := {[folder, x], [folder, y]};
    assert Entries(nodes, []) <= {folder};
    assert Entries(nodes, [folder]) <= {x, y};
    forall p | p in nodes
      ensures !Shadowed(fs, nodes, p)
    {
      assert p[..0] == [] && p[..1] == [folder] && p[0] == folder;
    }
  }
}
