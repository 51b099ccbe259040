/** When a Solidity job is skipped, and what a second run of the same project compiles. */
module SolidityRerun {
  import opened Prelude
  import opened SolidityBuildSpec
  import opened SolidityRuns

  /** A job needs no compilation if and only if each of its files is cached with the hash
      of its content, and each file it emits is cached with the job's configuration; with
      which configuration its other files are cached does not matter. */
  lemma NeedsNoneExactly(env: Env, contents: Contents, cache: Cache, job: Job)
    requires Paths(job) <= contents.Keys
    requires forall i, j :: 0 <= i < j < |job.files| ==> job.files[i].path != job.files[j].path
    ensures !NeedsCompilation(env, contents, cache, job) <==>
            && (forall f <- Paths(job) :: f in cache && cache[f].contentHash == env.hash(contents[f]))
            && (forall f <- Paths(job) :: Emits(job, f) ==> cache[f].solcConfig == job.solcConfig)
  {
    forall i | 0 <= i < |job.files|
      ensures job.files[i].path in Paths(job)
    {
      PathIsListed(job, i);
    }
    if !NeedsCompilation(env, contents, cache, job) {
      forall f | f in Paths(job)
        ensures f in cache && cache[f].contentHash == env.hash(contents[f])
        ensures Emits(job, f) ==> cache[f].solcConfig == job.solcConfig
      {
        var i :| 0 <= i < |job.files| && job.files[i].path == f;
        assert !FileForces(env, contents, cache, job, i);
      }
    } else {
      var i :| 0 <= i < |job.files| && FileForces(env, contents, cache, job, i);
      var f := job.files[i].path;
      assert f in Paths(job) && (job.files[i].emits ==> job.files[i] == JobFile(f, true) && Emits(job, f));
    }
  }

  /** The cache has the graph file as its own job compiles it. */
  ghost predicate UpToDate(env: Env, p: Project, cache: Cache, f: Path)
    requires ProjectOk(env, p) && f in p.graph
  {
    f in cache && cache[f].contentHash == env.hash(p.contents[f]) && cache[f].solcConfig == ConfigFor(env, p, f)
  }

  /** Every graph file is so after any run, from any cache. */
  lemma RunBringsUpToDate(env: Env, s: State, p: Project, f: Path)
    requires LocalCompiler(env) && ProjectOk(env, p) && Compilable(p) && f in p.graph
    ensures UpToDate(env, p, BeforeSweep(env, s, p).cache, f)
  {
    GraphFileAfter(env, s, p, f);
    var job := p.jobs[Emitter(env, p, f)];
    EmittedIsListed(job, f);
    assert JobOk(env, p, job);
    if !Recompiled(env, s, p, f) {
      NeedsNoneExactly(env, p.contents, Invalidated(s, p), job);
      InvalidatedAt(env, s, p, f);
    }
    hide BeforeSweep, LocalCompiler, NeedsCompilation, Invalidated;
  }

  lemma EmittersConfig(env: Env, p: Project, job: Job, f: Path)
    requires ProjectOk(env, p) && f in p.graph && job in p.jobs && Emits(job, f)
    ensures job.solcConfig == ConfigFor(env, p, f)
  {
    var i :| 0 <= i < |p.jobs| && p.jobs[i] == job;
    OneEmitter(env, p, i, Emitter(env, p, f), f);
  }

  /** With every graph file up to date, a job needs compilation if and only if one of its
      files has lost an artifact. */
  lemma LostArtifactForces(env: Env, s: State, p: Project, job: Job)
    requires ProjectOk(env, p) && Compilable(p) && job in p.jobs
    requires forall f <- p.graph :: UpToDate(env, p, s.cache, f)
    ensures NeedsCompilation(env, p.contents, Invalidated(s, p), job) <==>
            exists f :: f in Paths(job) && f in s.cache && Missing(s.cache[f], s.disk, f)
  {
    assert JobOk(env, p, job) && Paths(job) <= p.graph;
    NeedsNoneExactly(env, p.contents, Invalidated(s, p), job);
    forall f | f in Paths(job)
      ensures f in s.cache && (f in Invalidated(s, p) <==> !Missing(s.cache[f], s.disk, f))
      ensures f in Invalidated(s, p) ==> Invalidated(s, p)[f] == s.cache[f]
      ensures f in Invalidated(s, p) ==> Invalidated(s, p)[f].contentHash == env.hash(p.contents[f])
      ensures f in Invalidated(s, p) && Emits(job, f) ==> Invalidated(s, p)[f].solcConfig == job.solcConfig
    {
      assert f in p.graph && UpToDate(env, p, s.cache, f);
      InvalidatedAt(env, s, p, f);
      if Emits(job, f) {
        EmittersConfig(env, p, job, f);
      }
    }
  }

  /** The same project, without the `force` flag. */
  function Unforced(p: Project): Project {
    p.(force := false)
  }

  lemma UnforcedIsOk(env: Env, p: Project)
    requires ProjectOk(env, p)
    ensures ProjectOk(env, Unforced(p)) && Compilable(Unforced(p)) && Unforced(p).jobs == p.jobs
    ensures forall f <- p.graph :: ConfigFor(env, Unforced(p), f) == ConfigFor(env, p, f)
  {
    var q := Unforced(p);
    assert forall job <- q.jobs :: JobOk(env, p, job) && JobOk(env, q, job);
    forall f | f in p.graph
      ensures ConfigFor(env, q, f) == ConfigFor(env, p, f)
    {
      OneEmitter(env, p, Emitter(env, q, f), Emitter(env, p, f), f);
    }
  }

  /** After a run of a project, whatever the cache was before, an unforced run of the same
      project compiles exactly the jobs of which a file has lost an artifact since. */
  lemma SecondRunCompilesExactly(env: Env, a: Around, s: State, p: Project, disk: Disk, job: Job)
    requires LocalCompiler(env) && ProjectOk(env, p) && job in p.jobs
    ensures Compilable(p) && Compilable(Unforced(p)) && Paths(job) <= p.contents.Keys
    ensures var t := Run(env, a, s, p).after.(disk := disk);
            NeedsCompilation(env, p.contents, Invalidated(t, Unforced(p)), job) <==>
            exists f :: f in Paths(job) && f in t.cache && Missing(t.cache[f], disk, f)
  {
    ProjectCompiles(env, p);
    UnforcedIsOk(env, p);
    RunIsBuild(env, a, s, p);
    var t := Run(env, a, s, p).after.(disk := disk);
    assert t.cache == BeforeSweep(env, s, p).cache;
    hide LocalCompiler, ProjectOk, Run, BeforeSweep, Build, NeedsCompilation, Invalidated, ConfigFor, Missing;
    forall f | f in p.graph
      ensures UpToDate(env, Unforced(p), t.cache, f)
    {
      RunBringsUpToDate(env, s, p, f);
    }
    LostArtifactForces(env, t, Unforced(p), job);
  }

  lemma {:induction false} NothingIsNeeded(env: Env, p: Project, cache: Cache, k: nat)
    requires k <= |p.jobs| && Compilable(p) && !p.force
    requires forall job <- p.jobs :: !NeedsCompilation(env, p.contents, cache, job)
    ensures Needed(env, p, cache, k) == []
  {
    if k > 0 {
      NothingIsNeeded(env, p, cache, k - 1);
    }
  }

  /** So after a completed run, with its artifacts still there, a second run compiles
      nothing, whatever configurations the jobs of its files use. */
  lemma SecondRunCompilesNothing(env: Env, a: Around, s: State, p: Project)
    requires LocalCompiler(env) && ProjectOk(env, p)
    ensures Compilable(p) && Compilable(Unforced(p))
    ensures Run(env, a, s, p).Completed? ==> NeededJobs(env, Run(env, a, s, p).after, Unforced(p)) == []
  {
    ProjectCompiles(env, p);
    UnforcedIsOk(env, p);
    var r := Run(env, a, s, p);
    if r.Completed? {
      CompletedHasAll(env, a, s, p);
      assert r.after == r.after.(disk := r.after.disk);
      hide LocalCompiler, ProjectOk, Run, NeedsCompilation, Invalidated, Missing, Compilable;
      forall job | job in p.jobs
        ensures Paths(job) <= p.contents.Keys && !NeedsCompilation(env, p.contents, Invalidated(r.after, Unforced(p)), job)
      {
        SecondRunCompilesExactly(env, a, s, p, r.after.disk, job);
      }
      NothingIsNeeded(env, Unforced(p), Invalidated(r.after, Unforced(p)), |p.jobs|);
    }
  }

  /** What a completed run leaves has every artifact its cache names. */
  lemma CompletedHasAll(env: Env, a: Around, s: State, p: Project)
    requires LocalCompiler(env) && ProjectOk(env, p) && Compilable(p) && Run(env, a, s, p).Completed?
    ensures var t := Run(env, a, s, p).after; forall f <- t.cache :: !Missing(t.cache[f], t.disk, f)
  {
    RunIsBuild(env, a, s, p);
    var t := BeforeSweep(env, s, p);
    assert Build(env, s, p) == Swept(t) && NameValid(t).named <= Stored(t.disk);
    hide BeforeSweep, Run, Build, ProjectOk, LocalCompiler;
    forall f, n | f in t.cache && n in t.cache[f].artifacts
      ensures n in Dir(Swept(t).disk, f)
    {
      assert Contract(f, n) in NamesIn(t.cache) && Contract(f, n) in NameValid(t).named;
      StoredIs(t.disk, Contract(f, n));
      SweptAt(t, f);
    }
  }
}
