/** Whole runs of the Solidity compile task: filtering, merging, compiling, and the
    clean-up, which looks up every artifact that the process has named valid. */
module SolidityRuns {
  import ContractNames
  import TrueCase
  import opened SolidityBuildSpec
  import opened SolidityMerging

  /** The jobs `p.jobs[..k]` that the cache, before any compilation, calls for. */
  ghost function Needed(env: Env, p: Project, cache: Cache, k: nat): (jobs: seq<Job>)
    requires k <= |p.jobs| && Compilable(p)
    ensures forall job <- jobs :: job in p.jobs
  {
    if k == 0 then []
    else
      assert p.jobs[k - 1] in p.jobs;
      Needed(env, p, cache, k - 1) +
      if p.force || NeedsCompilation(env, p.contents, cache, p.jobs[k - 1]) then [p.jobs[k - 1]] else []
  }

  ghost function NeededJobs(env: Env, s: State, p: Project): (jobs: seq<Job>)
    requires Compilable(p)
    ensures forall job <- jobs :: job in p.jobs
  {
    Needed(env, p, Invalidated(s, p), |p.jobs|)
  }

  lemma {:induction false} FilteringFirst(env: Env, p: Project, cache: Cache, k: nat, s: State)
    requires k <= |p.jobs| && Compilable(p)
    ensures Readable(p.contents, Needed(env, p, cache, k))
    ensures CompileAll(env, p.contents, Needed(env, p, cache, k), s) == CompileJobs(env, p, cache, k, s)
  {
    if k > 0 {
      hide NeedsCompilation, CompileJob;
      FilteringFirst(env, p, cache, k - 1, s);
      var before, now := Needed(env, p, cache, k - 1), Needed(env, p, cache, k);
      if now != before {
        assert now[..|now| - 1] == before;
      }
    }
  }

  lemma {:induction false} AddedReadable(env: Env, contents: Contents, groups: seq<Group>, job: Job)
    requires GroupsOk(env, groups) && Readable(contents, Flatten(groups)) && Paths(job) <= contents.Keys
    ensures Readable(contents, Flatten(AddJob(env, groups, job)))
  {
    if groups == [] {
      FlattenOne(Group(job.solcConfig, [job]));
    } else {
      var g, rest := groups[0], groups[1..];
      assert g in groups && (forall h <- rest :: h in groups) && groups == [g] + rest;
      FlattenCons(g, rest);
      assert Readable(contents, g.jobs) && Readable(contents, Flatten(rest));
      hide Flatten, Merge, Paths;
      if g.solcConfig == job.solcConfig {
        MergedPaths(g.jobs[0], job);
        FlattenCons(Grown(env, g, job), rest);
      } else {
        AddedReadable(env, contents, rest, job);
        FlattenCons(g, AddJob(env, rest, job));
      }
    }
  }

  lemma MergedPaths(a: Job, b: Job)
    ensures Paths(Merge(a, b)) <= Paths(a) + Paths(b)
  {
    forall f | f in Paths(Merge(a, b))
      ensures f in Paths(a) + Paths(b)
    {
      HasIsPath(Merge(a, b), f);
      HasIsPath(a, f);
      HasIsPath(b, f);
      MergedHas(a.files, b.files, f);
    }
  }

  lemma {:induction false} MergedHas(files: seq<JobFile>, more: seq<JobFile>, f: Path)
    ensures Has(MergeFiles(files, more), f) <==> Has(files, f) || Has(more, f)
  {
    if more != [] {
      var rest, last := more[..|more| - 1], more[|more| - 1];
      hide Has, AddFileToCompile;
      MergedHas(files, rest, f);
      AddedFile(MergeFiles(files, rest), last, f);
      assert more == rest + [last];
      HasSnoc(rest, last, f);
    } else {
      assert !Has(more, f);
    }
  }

  /** Merging asks for no file that the jobs do not list. */
  lemma {:induction false} MergedReadable(env: Env, contents: Contents, jobs: seq<Job>)
    requires Readable(contents, jobs)
    ensures Readable(contents, MergeJobs(env, jobs))
  {
    if jobs != [] {
      var rest, last := jobs[..|jobs| - 1], jobs[|jobs| - 1];
      assert last in jobs && Paths(last) <= contents.Keys;
      MergedReadable(env, contents, rest);
      hide Flatten, AddJob, Paths;
      AddedReadable(env, contents, GroupJobs(env, rest), last);
    }
  }

  /** The cache and the artifacts once the needed jobs are merged and compiled. */
  ghost function Compiled(env: Env, s: State, p: Project): (t: State)
    requires Compilable(p)
    ensures t.named == s.named
  {
    var needed := NeededJobs(env, s, p);
    assert Readable(p.contents, needed);
    MergedReadable(env, p.contents, needed);
    CompileAll(env, p.contents, MergeJobs(env, needed), s.(cache := Invalidated(s, p)))
  }

  // ----- the clean-up -----

  /** Where the artifact lies in the artifacts directory. */
  function PathOf(c: Contract): ContractNames.Path {
    ContractNames.Split(c.source, '/') + [c.name + ".json"]
  }

  function PathsOf(named: set<Contract>): set<ContractNames.Path> {
    set c | c in named :: PathOf(c)
  }

  function Stored(disk: Disk): set<Contract> {
    set f, n | f in disk && n in disk[f] :: Contract(f, n)
  }

  /** What surrounds the clean-up: how the artifacts directory is searched, and what
      lies in it besides the artifacts: folders, debug files, build infos. */
  datatype Around = Around(fs: TrueCase.Listing, others: set<ContractNames.Path>)

  /** No look-up of a named artifact runs into an earlier name that differs in case. */
  ghost predicate NoTwins(a: Around, stored: set<Contract>, named: set<Contract>) {
    forall c <- named :: !TrueCase.Shadowed(a.fs, PathsOf(stored) + a.others, PathOf(c))
  }

  ghost predicate AllFound(a: Around, t: State) {
    t.named <= Stored(t.disk) && NoTwins(a, Stored(t.disk), t.named)
  }

  datatype Outcome = Completed(after: State) | Stopped(after: State)

  /** The cache file is written and its entries are named valid before the clean-up,
      which stops, with nothing deleted, when it does not find a valid artifact. */
  ghost function CleanedUp(a: Around, t: State): Outcome {
    if AllFound(a, NameValid(t)) then Completed(Swept(t)) else Stopped(NameValid(t))
  }

  /** A run of the compile task. */
  ghost function Run(env: Env, a: Around, s: State, p: Project): Outcome
    requires Compilable(p)
  {
    CleanedUp(a, Compiled(env, s, p))
  }

  // ----- a run is a build -----

  lemma NeededAreOk(env: Env, s: State, p: Project)
    requires ProjectOk(env, p) && Compilable(p)
    ensures AllOk(env, p, NeededJobs(env, s, p)) && Consistent(NeededJobs(env, s, p))
  {
    var needed := NeededJobs(env, s, p);
    assert forall job <- p.jobs :: JobOk(env, p, job);
    hide NeededJobs, JobOk;
    forall a, b, f | a in needed && b in needed && Emits(a, f) && Emits(b, f)
      ensures a.solcConfig == b.solcConfig
    {
      var i :| 0 <= i < |p.jobs| && p.jobs[i] == a;
      var j :| 0 <= j < |p.jobs| && p.jobs[j] == b;
      hide Emits;
      assert i == j;
    }
  }

  /** What the clean-up finds is the same as without merging. */
  lemma CompiledIsBuild(env: Env, s: State, p: Project)
    requires LocalCompiler(env) && ProjectOk(env, p)
    ensures Compilable(p)
    ensures SameState(Compiled(env, s, p), BeforeSweep(env, s, p))
  {
    ProjectCompiles(env, p);
    NeededAreOk(env, s, p);
    assert p.graph <= p.contents.Keys;
    hide LocalCompiler, ProjectOk, CompileAll, MergeJobs, AllOk, Consistent, Readable, Invalidated;
    MergingIsIrrelevant(env, p, NeededJobs(env, s, p), s.(cache := Invalidated(s, p)));
    FilteringFirst(env, p, Invalidated(s, p), |p.jobs|, s.(cache := Invalidated(s, p)));
  }

  lemma StoredIs(disk: Disk, c: Contract)
    ensures c in Stored(disk) <==> c.name in Dir(disk, c.source)
  {
  }

  lemma SameStored(s: Disk, t: Disk)
    requires forall f :: Dir(s, f) == Dir(t, f)
    ensures Stored(s) == Stored(t)
  {
    forall c: Contract
      ensures c in Stored(s) <==> c in Stored(t)
    {
      StoredIs(s, c);
      StoredIs(t, c);
    }
  }

  lemma SameSweep(s: State, t: State)
    requires SameState(s, t)
    ensures Swept(s) == Swept(t)
  {
    SameMap(Sweep(NameValid(s)), Sweep(NameValid(t)));
  }

  /** A completed run leaves what building job by job leaves; a run that is stopped
      leaves the new cache and deletes nothing. */
  lemma RunIsBuild(env: Env, a: Around, s: State, p: Project)
    requires LocalCompiler(env) && ProjectOk(env, p)
    ensures Compilable(p)
    ensures var t := BeforeSweep(env, s, p);
            if AllFound(a, NameValid(t)) then Run(env, a, s, p) == Completed(Build(env, s, p))
            else Run(env, a, s, p).Stopped? && SameState(Run(env, a, s, p).after, NameValid(t))
  {
    CompiledIsBuild(env, s, p);
    var t, u := BeforeSweep(env, s, p), Compiled(env, s, p);
    assert Build(env, s, p) == Swept(t);
    hide BeforeSweep, Compiled, Build, Swept, TrueCase.Shadowed, NamesIn, Stored, LocalCompiler, ProjectOk;
    SameStored(u.disk, t.disk);
    SameSweep(u, t);
  }

  // ----- when a run completes -----

  /** The job of the graph file `f` is compiled in this run. */
  ghost predicate Recompiled(env: Env, s: State, p: Project, f: Path)
    requires ProjectOk(env, p) && Compilable(p) && f in p.graph
  {
    p.force || NeedsCompilation(env, p.contents, Invalidated(s, p), p.jobs[Emitter(env, p, f)])
  }

  /** The artifacts that this run emits. */
  ghost function Emitted(env: Env, s: State, p: Project): set<Contract>
    requires ProjectOk(env, p) && Compilable(p)
  {
    set f, n | f in p.graph && Recompiled(env, s, p, f) && n in Clean(env, p).disk[f] :: Contract(f, n)
  }

  /** What a run makes of one graph file, before the clean-up. */
  lemma GraphFileAfter(env: Env, s: State, p: Project, f: Path)
    requires LocalCompiler(env) && ProjectOk(env, p) && Compilable(p) && f in p.graph
    ensures var t := BeforeSweep(env, s, p);
            if Recompiled(env, s, p, f) then
              && f in t.cache && t.cache[f] == Clean(env, p).cache[f]
              && Dir(t.disk, f) == Dir(s.disk, f) + Clean(env, p).disk[f]
            else
              && Dir(t.disk, f) == Dir(s.disk, f)
              && (f in t.cache <==> f in s.cache && !Missing(s.cache[f], s.disk, f))
              && (f in t.cache ==> t.cache[f] == s.cache[f])
  {
    var e := Emitter(env, p, f);
    CompileJobsAt(env, p, Invalidated(s, p), |p.jobs|, s.(cache := Invalidated(s, p)), f, e);
    InvalidatedAt(env, s, p, f);
    EmittedIsListed(p.jobs[e], f);
    JobIsLocal(env, p, p.jobs[e], f);
    hide CompileJobs, NeedsCompilation, LocalCompiler, Invalidated, Missing;
  }

  /** Before the clean-up every stored artifact is still there, and the emitted ones. */
  lemma StoredAfter(env: Env, s: State, p: Project)
    requires LocalCompiler(env) && ProjectOk(env, p)
    ensures Compilable(p)
    ensures Stored(BeforeSweep(env, s, p).disk) == Stored(s.disk) + Emitted(env, s, p)
  {
    ProjectCompiles(env, p);
    var t := BeforeSweep(env, s, p);
    hide BeforeSweep, ProjectOk, LocalCompiler, Recompiled, Clean, Stored;
    forall c: Contract
      ensures c in Stored(t.disk) <==> c in Stored(s.disk) || c in Emitted(env, s, p)
    {
      StoredIs(t.disk, c);
      StoredIs(s.disk, c);
      if c.source in p.graph {
        GraphFileAfter(env, s, p, c.source);
      } else {
        OutsideFileIsAsBefore(env, s, p, c.source);
      }
    }
  }

  /** A cached file that is still on disk but has left the graph. */
  ghost predicate LeftBehind(s: State, p: Project, f: Path) {
    f in s.cache && f !in p.graph && f in p.contents
  }

  /** The artifacts that cached files name without being compiled in this run. */
  ghost function StillNamed(env: Env, s: State, p: Project): set<Contract>
    requires ProjectOk(env, p) && Compilable(p)
  {
    set c | c in NamesIn(s.cache) &&
      if c.source in p.graph then !Recompiled(env, s, p, c.source) && !Missing(s.cache[c.source], s.disk, c.source)
      else c.source in p.contents
  }

  lemma NamedAfter(env: Env, s: State, p: Project)
    requires LocalCompiler(env) && ProjectOk(env, p)
    ensures Compilable(p)
    ensures NamesIn(BeforeSweep(env, s, p).cache) == StillNamed(env, s, p) + Emitted(env, s, p)
  {
    ProjectCompiles(env, p);
    var t := BeforeSweep(env, s, p);
    hide *;
    forall c: Contract
      ensures c in NamesIn(t.cache) <==> c in StillNamed(env, s, p) || c in Emitted(env, s, p)
    {
      NamedAfterAt(env, s, p, c);
    }
  }

  lemma NamedAfterAt(env: Env, s: State, p: Project, c: Contract)
    requires LocalCompiler(env) && ProjectOk(env, p) && Compilable(p)
    ensures c in NamesIn(BeforeSweep(env, s, p).cache) <==> c in StillNamed(env, s, p) || c in Emitted(env, s, p)
  {
    CleanNames(env, p, c);
    assert c.source in p.graph ==> Clean(env, p).cache[c.source].artifacts == Clean(env, p).disk[c.source].Keys;
    hide BeforeSweep, ProjectOk, LocalCompiler, Recompiled, Clean, Missing;
    if c.source in p.graph {
      GraphFileAfter(env, s, p, c.source);
    } else {
      OutsideFileIsAsBefore(env, s, p, c.source);
    }
  }

  /** A run completes if and only if every cached file that has left the graph still
      has its artifacts, every artifact that the process named before is on disk or
      emitted again, and no look-up meets an earlier twin. */
  lemma CompletesExactly(env: Env, a: Around, s: State, p: Project)
    requires LocalCompiler(env) && ProjectOk(env, p)
    ensures Compilable(p)
    ensures Run(env, a, s, p).Completed? <==>
            && (forall f <- s.cache :: LeftBehind(s, p, f) ==> !Missing(s.cache[f], s.disk, f))
            && s.named <= Stored(s.disk) + Emitted(env, s, p)
            && NoTwins(a, Stored(s.disk) + Emitted(env, s, p), s.named + StillNamed(env, s, p) + Emitted(env, s, p))
  {
    RunIsBuild(env, a, s, p);
    StoredAfter(env, s, p);
    NamedAfter(env, s, p);
    var t := BeforeSweep(env, s, p);
    StillNamedAreStored(env, s, p);
    var still, emitted := StillNamed(env, s, p), Emitted(env, s, p);
    assert NameValid(t).named == s.named + (still + emitted) == s.named + still + emitted;
    hide BeforeSweep, Run, NamesIn, Stored, LocalCompiler, ProjectOk, StillNamed, Emitted, Missing, LeftBehind, NoTwins;
  }

  lemma StillNamedAreStored(env: Env, s: State, p: Project)
    requires ProjectOk(env, p) && Compilable(p)
    ensures StillNamed(env, s, p) <= Stored(s.disk) + Emitted(env, s, p) <==>
            forall f <- s.cache :: LeftBehind(s, p, f) ==> !Missing(s.cache[f], s.disk, f)
  {
    var still, emitted := StillNamed(env, s, p), Emitted(env, s, p);
    hide Recompiled, Clean, ProjectOk;
    if still <= Stored(s.disk) + emitted {
      forall f, n | LeftBehind(s, p, f) && n in s.cache[f].artifacts
        ensures n in Dir(s.disk, f)
      {
        assert Contract(f, n) in still && Contract(f, n) !in emitted;
        StoredIs(s.disk, Contract(f, n));
      }
    }
    if forall f <- s.cache :: LeftBehind(s, p, f) ==> !Missing(s.cache[f], s.disk, f) {
      forall c | c in still
        ensures c in Stored(s.disk)
      {
        StoredIs(s.disk, c);
        assert LeftBehind(s, p, c.source) || c.source in p.graph;
      }
    }
  }

  /** Whatever the outcome, no artifact that the process has named before is deleted. */
  lemma NamedStay(env: Env, a: Around, s: State, p: Project)
    requires LocalCompiler(env) && ProjectOk(env, p)
    ensures Compilable(p)
    ensures s.named * Stored(s.disk) <= Stored(Run(env, a, s, p).after.disk)
  {
    RunIsBuild(env, a, s, p);
    StoredAfter(env, s, p);
    var t := BeforeSweep(env, s, p);
    assert Build(env, s, p) == Swept(t);
    hide BeforeSweep, Build, Run, NamesIn, LocalCompiler, ProjectOk, Emitted, AllFound, Stored, Swept;
    forall c | c in s.named * Stored(s.disk)
      ensures c in Stored(Run(env, a, s, p).after.disk)
    {
      StoredIs(t.disk, c);
      SweptAt(t, c.source);
      StoredIs(Swept(t).disk, c);
      StoredIs(Run(env, a, s, p).after.disk, c);
    }
  }

  lemma StoppedBy(env: Env, a: Around, s: State, p: Project, f: Path)
    requires LocalCompiler(env) && ProjectOk(env, p)
    requires f in s.cache && LeftBehind(s, p, f) && Missing(s.cache[f], s.disk, f)
    ensures Compilable(p) && Run(env, a, s, p).Stopped?
  {
    hide *;
    CompletesExactly(env, a, s, p);
  }

  lemma BHasLost(s: State)
    requires "b" in s.cache && s.cache["b"] == Entry("import c", "solc", {"B"}) && s.disk == map[]
    ensures LeftBehind(s, OnlyC("1"), "b") && Missing(s.cache["b"], s.disk, "b")
  {
    assert "b"[0] != "c"[0];
    assert "B" in s.cache["b"].artifacts && "B" !in Dir(map[], "b");
  }

  /** `b` is cached, has lost its artifact and is no longer in the graph: the run that
      compiles `c` again ends without a clean-up. */
  lemma LostArtifactStopsTheCleanUp(a: Around)
    ensures ProjectOk(IMPORTING, Both("1")) && Compilable(OnlyC("1"))
    ensures Run(IMPORTING, a, State(Clean(IMPORTING, Both("1")).cache, map[], {}), OnlyC("1")).Stopped?
  {
    CleanBoth("1");
    CleanHasB("1");
    ImportingEnv();
    ImportingProjects("1");
    hide *;
    var s := State(Clean(IMPORTING, Both("1")).cache, map[], {});
    BHasLost(s);
    StoppedBy(IMPORTING, a, s, OnlyC("1"), "b");
  }

  // ----- skipping jobs changes nothing -----

  /** What the clean-up finds when every cached file still on disk is in the graph. */
  lemma InGraph(env: Env, s: State, c: Contents, p: Project)
    requires LocalCompiler(env) && CollisionFree(env) && Fresh(env, s, c) && ProjectOk(env, p)
    requires s.cache.Keys * p.contents.Keys <= p.graph
    ensures Compilable(p)
    ensures var t := BeforeSweep(env, s, p);
            && NameValid(t).named == s.named + Clean(env, p).named
            && Stored(t.disk) == Stored(s.disk) + Clean(env, p).named
  {
    CacheIsClean(env, s, c, p);
    var t, clean := BeforeSweep(env, s, p), Clean(env, p);
    assert clean.named == NamesIn(clean.cache);
    hide *;
    forall x: Contract
      ensures x in Stored(t.disk) <==> x in Stored(s.disk) || x in clean.named
    {
      InGraphAt(env, s, c, p, x);
    }
  }

  lemma InGraphAt(env: Env, s: State, c: Contents, p: Project, x: Contract)
    requires LocalCompiler(env) && CollisionFree(env) && Fresh(env, s, c) && ProjectOk(env, p) && Compilable(p)
    ensures x in Stored(BeforeSweep(env, s, p).disk) <==> x in Stored(s.disk) || x in Clean(env, p).named
  {
    CleanNames(env, p, x);
    hide BeforeSweep, Clean, ProjectOk, LocalCompiler, CollisionFree, Fresh, Stored;
    StoredIs(BeforeSweep(env, s, p).disk, x);
    StoredIs(s.disk, x);
    if x.source in p.graph {
      FileIsClean(env, s, c, p, x.source);
    } else {
      OutsideFileIsAsBefore(env, s, p, x.source);
    }
  }

  /** If every cached file still on disk is in the dependency graph, a run completes if
      and only if every artifact that the process named before is on disk or among those
      of a build from scratch, and no look-up meets an earlier twin. */
  lemma CompletesInGraph(env: Env, a: Around, s: State, c: Contents, p: Project)
    requires LocalCompiler(env) && CollisionFree(env) && Fresh(env, s, c) && ProjectOk(env, p)
    requires s.cache.Keys * p.contents.Keys <= p.graph
    ensures Compilable(p)
    ensures Run(env, a, s, p).Completed? <==>
            && s.named <= Stored(s.disk) + Clean(env, p).named
            && NoTwins(a, Stored(s.disk) + Clean(env, p).named, s.named + Clean(env, p).named)
  {
    RunIsBuild(env, a, s, p);
    InGraph(env, s, c, p);
    hide BeforeSweep, Clean, Run, Stored, NoTwins, ProjectOk, LocalCompiler, CollisionFree, Fresh;
  }

  /** It then leaves exactly the cache and the artifacts of a build from scratch if and
      only if, besides, none of the artifacts named before is obsolete now. */
  lemma IncrementalIsClean(env: Env, a: Around, s: State, c: Contents, p: Project)
    requires LocalCompiler(env) && CollisionFree(env) && Fresh(env, s, c) && ProjectOk(env, p)
    requires s.cache.Keys * p.contents.Keys <= p.graph
    ensures Compilable(p)
    ensures Run(env, a, s, p) == Completed(Clean(env, p)) <==>
            s.named <= Clean(env, p).named && NoTwins(a, Stored(s.disk) + Clean(env, p).named, Clean(env, p).named)
  {
    CompletesInGraph(env, a, s, c, p);
    RunIsBuild(env, a, s, p);
    JobByJobIsClean(env, s, c, p);
    hide BeforeSweep, Clean, Run, Build, Stored, NoTwins, ProjectOk, LocalCompiler, CollisionFree, Fresh;
    if s.named <= Clean(env, p).named {
      assert s.named + Clean(env, p).named == Clean(env, p).named;
    }
  }

  /** In particular the first run of a process, unless a look-up meets an earlier twin. */
  lemma FirstRunIsClean(env: Env, a: Around, s: State, c: Contents, p: Project)
    requires LocalCompiler(env) && CollisionFree(env) && Fresh(env, s, c) && ProjectOk(env, p)
    requires s.cache.Keys * p.contents.Keys <= p.graph && s.named == {}
    ensures Compilable(p)
    ensures Run(env, a, s, p) == Completed(Clean(env, p)) <==>
            NoTwins(a, Stored(s.disk) + Clean(env, p).named, Clean(env, p).named)
  {
    hide *;
    IncrementalIsClean(env, a, s, c, p);
  }

  // ----- sequences of runs -----

  /** One round: perhaps a new process, perhaps the `clean` task, which deletes the
      cache but forgets nothing; what is left of the artifacts; then a run. */
  datatype Round = Round(newProcess: bool, cleaned: bool, disk: Disk, project: Project, around: Around)

  function Begin(s: State, r: Round): State {
    State(if r.cleaned then map[] else s.cache, r.disk, if r.newProcess then {} else s.named)
  }

  /** In each round sources change at will, artifacts may have got lost, and the cached
      files still on disk are in the graph; `s` is what the round before should leave. */
  ghost predicate RoundsOk(env: Env, s: State, rounds: seq<Round>)
    decreases |rounds|
  {
    rounds == [] ||
    var r := rounds[0];
    && Lost(s.disk, r.disk) && ProjectOk(env, r.project)
    && Begin(s, r).cache.Keys * r.project.contents.Keys <= r.project.graph
    && RoundsOk(env, Clean(env, r.project), rounds[1..])
  }

  /** Every run completes and leaves exactly what a build from scratch would. */
  ghost predicate EveryRunEndsClean(env: Env, s: State, rounds: seq<Round>)
    requires RoundsOk(env, s, rounds)
    decreases |rounds|
  {
    rounds == [] ||
    var r := rounds[0];
    ProjectCompiles(env, r.project);
    && Run(env, r.around, Begin(s, r), r.project) == Completed(Clean(env, r.project))
    && EveryRunEndsClean(env, Clean(env, r.project), rounds[1..])
  }

  /** Within a process, no artifact of one round is obsolete in the next, and no look-up
      meets an earlier twin. */
  ghost predicate NothingGetsObsolete(env: Env, s: State, rounds: seq<Round>)
    requires RoundsOk(env, s, rounds)
    decreases |rounds|
  {
    rounds == [] ||
    var r, clean := rounds[0], Clean(env, rounds[0].project);
    && (r.newProcess || s.named <= clean.named)
    && NoTwins(r.around, Stored(r.disk) + clean.named, clean.named)
    && NothingGetsObsolete(env, clean, rounds[1..])
  }

  /** Over any sequence of such rounds, every run completes and leaves what a build from
      scratch would, if and only if nothing gets obsolete within a process. */
  lemma {:induction false} EveryRunIsCleanExactly(env: Env, s: State, c: Contents, rounds: seq<Round>)
    requires LocalCompiler(env) && CollisionFree(env) && Fresh(env, s, c) && RoundsOk(env, s, rounds)
    ensures EveryRunEndsClean(env, s, rounds) <==> NothingGetsObsolete(env, s, rounds)
    decreases |rounds|
  {
    if rounds != [] {
      var r, rest := rounds[0], rounds[1..];
      var clean := Clean(env, r.project);
      ProjectCompiles(env, r.project);
      hide LocalCompiler, CollisionFree, ProjectOk, Run, Clean, Fresh, Compilable, NoTwins, Stored;
      BeginIsFresh(env, s, c, r);
      IncrementalIsClean(env, r.around, Begin(s, r), c, r.project);
      CleanIsFresh(env, r.project);
      EveryRunIsCleanExactly(env, clean, r.project.contents, rest);
    }
  }

  lemma BeginIsFresh(env: Env, s: State, c: Contents, r: Round)
    requires Fresh(env, s, c) && Lost(s.disk, r.disk)
    ensures Fresh(env, Begin(s, r), c)
  {
    LossKeepsFresh(env, s, c, r.disk);
    forall f | f in Begin(s, r).cache
      ensures FreshEntry(env, Begin(s, r), c, f)
    {
      assert FreshEntry(env, s.(disk := r.disk), c, f);
    }
  }
}
