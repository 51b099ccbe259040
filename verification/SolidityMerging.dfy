/** Merging the jobs of one configuration (compilation-job.ts), and why it changes
    nothing of what a run leaves. */
module SolidityMerging {
  import opened SolidityBuildSpec

  // ----- two jobs -----

  /** `addFileToCompile`: a file already there is only ever switched to emitting. */
  function AddFileToCompile(files: seq<JobFile>, file: JobFile): seq<JobFile> {
    if files == [] then [file]
    else if files[0].path == file.path then if file.emits then [file] + files[1..] else files
    else [files[0]] + AddFileToCompile(files[1..], file)
  }

  function MergeFiles(files: seq<JobFile>, more: seq<JobFile>): seq<JobFile> {
    if more == [] then files
    else AddFileToCompile(MergeFiles(files, more[..|more| - 1]), more[|more| - 1])
  }

  /** `merge`, for jobs with equal configurations. */
  function Merge(a: Job, b: Job): Job {
    Job(a.solcConfig, MergeFiles(a.files, b.files))
  }

  ghost predicate DistinctFiles(files: seq<JobFile>) {
    forall i, j :: 0 <= i < j < |files| ==> files[i].path != files[j].path
  }

  ghost predicate Has(files: seq<JobFile>, path: Path) {
    exists i :: 0 <= i < |files| && files[i].path == path
  }

  lemma {:induction false} AddedFile(files: seq<JobFile>, file: JobFile, f: Path)
    ensures var r := AddFileToCompile(files, file);
            && (Has(r, f) <==> Has(files, f) || f == file.path)
            && (DistinctFiles(files) ==> (JobFile(f, true) in r <==> JobFile(f, true) in files || JobFile(f, true) == file))
  {
    if files != [] {
      assert files == [files[0]] + files[1..];
      AddedFile(files[1..], file, f);
      HasCons(files[0], files[1..], f);
      HasCons(file, files[1..], f);
      HasCons(files[0], AddFileToCompile(files[1..], file), f);
    } else {
      HasCons(file, [], f);
      assert [file] + [] == [file];
    }
  }

  lemma HasCons(file: JobFile, files: seq<JobFile>, f: Path)
    ensures Has([file] + files, f) <==> Has(files, f) || f == file.path
  {
    var r := [file] + files;
    if Has(files, f) {
      var i :| 0 <= i < |files| && files[i].path == f;
      assert r[i + 1].path == f;
    }
    assert r[0] == file;
  }

  lemma DistinctCons(file: JobFile, files: seq<JobFile>)
    ensures DistinctFiles([file] + files) <==> DistinctFiles(files) && !Has(files, file.path)
  {
    var r := [file] + files;
    assert forall i :: 0 <= i < |files| ==> r[i + 1] == files[i];
    if DistinctFiles(files) && !Has(files, file.path) {
      forall i, j | 0 <= i < j < |r|
        ensures r[i].path != r[j].path
      {
        assert r[j] == files[j - 1];
      }
    }
    if DistinctFiles(r) {
      forall i | 0 <= i < |files|
        ensures files[i].path != file.path
      {
        assert r[i + 1].path != r[0].path;
      }
      forall i, j | 0 <= i < j < |files|
        ensures files[i].path != files[j].path
      {
        assert r[i + 1].path != r[j + 1].path;
      }
    }
  }

  lemma {:induction false} AddedDistinct(files: seq<JobFile>, file: JobFile)
    requires DistinctFiles(files)
    ensures DistinctFiles(AddFileToCompile(files, file))
  {
    if files != [] {
      assert files == [files[0]] + files[1..];
      DistinctCons(files[0], files[1..]);
      AddedDistinct(files[1..], file);
      DistinctCons(files[0], AddFileToCompile(files[1..], file));
      AddedFile(files[1..], file, files[0].path);
      DistinctCons(file, files[1..]);
    }
  }

  lemma {:induction false} MergedFiles(files: seq<JobFile>, more: seq<JobFile>, f: Path)
    requires DistinctFiles(files)
    ensures var r := MergeFiles(files, more);
            && DistinctFiles(r)
            && (Has(r, f) <==> Has(files, f) || Has(more, f))
            && (JobFile(f, true) in r <==> JobFile(f, true) in files || JobFile(f, true) in more)
  {
    hide AddFileToCompile, DistinctFiles;
    if more != [] {
      var rest, last := more[..|more| - 1], more[|more| - 1];
      MergedFiles(files, rest, f);
      AddedDistinct(MergeFiles(files, rest), last);
      AddedFile(MergeFiles(files, rest), last, f);
      assert more == rest + [last];
      HasSnoc(rest, last, f);
    }
  }

  lemma HasSnoc(files: seq<JobFile>, file: JobFile, f: Path)
    ensures Has(files + [file], f) <==> Has(files, f) || f == file.path
  {
    var r := files + [file];
    if Has(files, f) {
      var i :| 0 <= i < |files| && files[i].path == f;
      assert r[i].path == f;
    }
    assert r[|files|] == file;
  }

  lemma HasIsPath(job: Job, f: Path)
    ensures Has(job.files, f) <==> f in Paths(job)
    ensures JobFile(f, true) in job.files <==> Emits(job, f)
  {
  }

  /** A merged job lists the files of both, once each, and emits what either does. */
  lemma MergedJob(env: Env, p: Project, a: Job, b: Job)
    requires JobOk(env, p, a) && JobOk(env, p, b)
    ensures JobOk(env, p, Merge(a, b)) && Paths(Merge(a, b)) == Paths(a) + Paths(b)
    ensures forall f :: Emits(Merge(a, b), f) <==> Emits(a, f) || Emits(b, f)
  {
    var m := Merge(a, b);
    hide MergeFiles, Emits, Paths, Has;
    forall f
      ensures f in Paths(m) <==> f in Paths(a) || f in Paths(b)
      ensures Emits(m, f) <==> Emits(a, f) || Emits(b, f)
    {
      MergedFiles(a.files, b.files, f);
      HasIsPath(m, f);
      HasIsPath(a, f);
      HasIsPath(b, f);
    }
    MergedFiles(a.files, b.files, "");
    assert Paths(m) == Paths(a) + Paths(b);
  }

  ghost function PathsIn(files: seq<JobFile>): set<Path> {
    set file | file in files :: file.path
  }

  /** The job made for one file lists that file and its transitive dependencies,
      once each even when it is among them, and emits that file alone. */
  lemma CreatedJob(env: Env, p: Project, config: Config, f: Path, dependencies: seq<JobFile>)
    requires f in p.graph && forall d <- dependencies :: !d.emits && d.path in p.graph
    requires Closed(env, p.contents, {f} + PathsIn(dependencies))
    ensures var job := Job(config, MergeFiles([JobFile(f, true)], dependencies));
            && JobOk(env, p, job) && Paths(job) == {f} + PathsIn(dependencies)
            && forall g :: Emits(job, g) <==> g == f
  {
    var job := Job(config, MergeFiles([JobFile(f, true)], dependencies));
    hide MergeFiles, Closed;
    forall g
      ensures g in Paths(job) <==> g in {f} + PathsIn(dependencies)
      ensures Emits(job, g) <==> g == f
    {
      MergedFiles([JobFile(f, true)], dependencies, g);
      HasIsPath(job, g);
      assert Has([JobFile(f, true)], f) by { assert [JobFile(f, true)][0].path == f; }
      assert Has(dependencies, g) <==> g in PathsIn(dependencies);
    }
    MergedFiles([JobFile(f, true)], dependencies, f);
    assert DistinctFiles(job.files);
    assert Paths(job) == {f} + PathsIn(dependencies) && Paths(job) <= p.graph;
  }

  lemma CompiledAt(env: Env, contents: Contents, job: Job, s: State, f: Path)
    requires Paths(job) <= contents.Keys && f in contents
    ensures var t := CompileJob(env, contents, job, s);
            if Emits(job, f) then Done(env, contents, job, s, t, f) else SameAt(s, t, f)
  {
    RecordFilesAt(env, contents, job, |job.files|, s, f);
  }

  /** The same cache, artifacts and valid names. */
  ghost predicate SameState(s: State, t: State) {
    s.cache == t.cache && s.named == t.named && forall f :: Dir(s.disk, f) == Dir(t.disk, f)
  }

  lemma SameEverywhere(s: State, t: State)
    requires s.named == t.named && forall f :: SameAt(s, t, f)
    ensures SameState(s, t)
  {
    forall f
      ensures f in s.cache <==> f in t.cache
      ensures f in s.cache ==> s.cache[f] == t.cache[f]
      ensures Dir(s.disk, f) == Dir(t.disk, f)
    {
      assert SameAt(s, t, f);
    }
    SameMap(s.cache, t.cache);
  }

  // ----- a list of jobs -----

  /** One entry of `jobsMap`, which keeps the order in which it was filled. */
  datatype Group = Group(solcConfig: Config, jobs: seq<Job>)

  /** The groups hold jobs of their configuration, and a single one where merging
      is allowed. */
  ghost predicate GroupsOk(env: Env, groups: seq<Group>) {
    forall g <- groups ::
      && g.jobs != [] && (forall job <- g.jobs :: job.solcConfig == g.solcConfig)
      && (!env.hasSolc9573Bug(g.solcConfig) ==> |g.jobs| == 1)
  }

  /** The group after one more job of its configuration. */
  function Grown(env: Env, g: Group, job: Job): Group
    requires g.jobs != []
  {
    if env.hasSolc9573Bug(g.solcConfig) then Group(g.solcConfig, g.jobs + [job])
    else Group(g.solcConfig, [Merge(g.jobs[0], job)])
  }

  function AddJob(env: Env, groups: seq<Group>, job: Job): seq<Group>
    requires forall g <- groups :: g.jobs != []
  {
    if groups == [] then [Group(job.solcConfig, [job])]
    else if groups[0].solcConfig == job.solcConfig then [Grown(env, groups[0], job)] + groups[1..]
    else [groups[0]] + AddJob(env, groups[1..], job)
  }

  lemma {:induction false} AddedGroupsOk(env: Env, groups: seq<Group>, job: Job)
    requires GroupsOk(env, groups)
    ensures GroupsOk(env, AddJob(env, groups, job))
  {
    hide Merge;
    if groups != [] {
      assert groups[0] in groups;
      assert forall g <- groups[1..] :: g in groups;
      if groups[0].solcConfig == job.solcConfig {
        MergeKeepsConfig(groups[0].jobs[0], job);
      } else {
        AddedGroupsOk(env, groups[1..], job);
      }
    }
  }

  lemma MergeKeepsConfig(a: Job, b: Job)
    ensures Merge(a, b).solcConfig == a.solcConfig
  {
  }

  function GroupJobs(env: Env, jobs: seq<Job>): (groups: seq<Group>)
    ensures GroupsOk(env, groups)
  {
    if jobs == [] then []
    else
      var groups := GroupJobs(env, jobs[..|jobs| - 1]);
      AddedGroupsOk(env, groups, jobs[|jobs| - 1]);
      AddJob(env, groups, jobs[|jobs| - 1])
  }

  /** `flat`. */
  function Flatten(groups: seq<Group>): seq<Job> {
    if groups == [] then [] else groups[0].jobs + Flatten(groups[1..])
  }

  /** `mergeCompilationJobsWithoutBug`. */
  function MergeJobs(env: Env, jobs: seq<Job>): seq<Job> {
    Flatten(GroupJobs(env, jobs))
  }

  // ----- what the merged jobs emit -----

  ghost predicate AllOk(env: Env, p: Project, jobs: seq<Job>) {
    forall job <- jobs :: JobOk(env, p, job)
  }

  ghost predicate EmittedBy(jobs: seq<Job>, f: Path, config: Config) {
    exists job <- jobs :: job.solcConfig == config && Emits(job, f)
  }

  lemma EmittedByAppend(a: seq<Job>, b: seq<Job>, f: Path, config: Config)
    ensures EmittedBy(a + b, f, config) <==> EmittedBy(a, f, config) || EmittedBy(b, f, config)
  {
    hide Emits;
    if EmittedBy(a, f, config) {
      var job :| job in a && job.solcConfig == config && Emits(job, f);
      assert job in a + b;
    }
    if EmittedBy(b, f, config) {
      var job :| job in b && job.solcConfig == config && Emits(job, f);
      assert job in a + b;
    }
  }

  lemma EmittedByOne(job: Job, f: Path, config: Config)
    ensures EmittedBy([job], f, config) <==> job.solcConfig == config && Emits(job, f)
  {
    hide Emits;
    assert job in [job];
  }

  /** One group after one more job emits what it emitted and what the job does. */
  lemma GrownEmits(env: Env, p: Project, g: Group, job: Job, f: Path, config: Config)
    requires GroupsOk(env, [g]) && g.solcConfig == job.solcConfig && AllOk(env, p, g.jobs) && JobOk(env, p, job)
    ensures AllOk(env, p, Grown(env, g, job).jobs)
    ensures EmittedBy(Grown(env, g, job).jobs, f, config) <==> EmittedBy(g.jobs, f, config) || EmittedBy([job], f, config)
  {
    assert g in [g];
    hide Emits, JobOk, Merge, EmittedBy;
    if env.hasSolc9573Bug(g.solcConfig) {
      EmittedByAppend(g.jobs, [job], f, config);
    } else {
      var a := g.jobs[0];
      assert a in g.jobs && g.jobs == [a];
      MergedJob(env, p, a, job);
      MergeKeepsConfig(a, job);
      EmittedByOne(a, f, config);
      EmittedByOne(job, f, config);
      EmittedByOne(Merge(a, job), f, config);
    }
  }

  lemma {:induction false} AddedEmits(env: Env, p: Project, groups: seq<Group>, job: Job, f: Path, config: Config)
    requires GroupsOk(env, groups) && AllOk(env, p, Flatten(groups)) && JobOk(env, p, job)
    ensures AllOk(env, p, Flatten(AddJob(env, groups, job)))
    ensures EmittedBy(Flatten(AddJob(env, groups, job)), f, config) <==>
            EmittedBy(Flatten(groups), f, config) || EmittedBy([job], f, config)
  {
    if groups == [] {
      assert AddJob(env, groups, job) == [Group(job.solcConfig, [job])];
      FlattenOne(Group(job.solcConfig, [job]));
    } else {
      var g, rest := groups[0], groups[1..];
      assert g in groups && forall h <- rest :: h in groups;
      assert AllOk(env, p, g.jobs) && AllOk(env, p, Flatten(rest));
      FlattenCons(g, rest);
      assert groups == [g] + rest;
      hide JobOk, EmittedBy, Flatten, Grown;
      EmittedByAppend(g.jobs, Flatten(rest), f, config);
      if g.solcConfig == job.solcConfig {
        GrownEmits(env, p, g, job, f, config);
        FlattenCons(Grown(env, g, job), rest);
        EmittedByAppend(Grown(env, g, job).jobs, Flatten(rest), f, config);
      } else {
        AddedEmits(env, p, rest, job, f, config);
        FlattenCons(g, AddJob(env, rest, job));
        EmittedByAppend(g.jobs, Flatten(AddJob(env, rest, job)), f, config);
      }
    }
  }

  lemma FlattenOne(g: Group)
    ensures Flatten([g]) == g.jobs
  {
    assert [g][1..] == [] && g.jobs + [] == g.jobs;
  }

  lemma FlattenCons(g: Group, rest: seq<Group>)
    ensures Flatten([g] + rest) == g.jobs + Flatten(rest)
  {
    assert ([g] + rest)[1..] == rest;
  }

  /** The merged jobs are closed under imports and emit exactly what the jobs emit,
      with the same configurations. */
  lemma {:induction false} MergedEmits(env: Env, p: Project, jobs: seq<Job>, f: Path, config: Config)
    requires AllOk(env, p, jobs)
    ensures AllOk(env, p, MergeJobs(env, jobs))
    ensures EmittedBy(MergeJobs(env, jobs), f, config) <==> EmittedBy(jobs, f, config)
  {
    if jobs != [] {
      var rest, last := jobs[..|jobs| - 1], jobs[|jobs| - 1];
      assert last in jobs && jobs == rest + [last];
      hide JobOk, EmittedBy, AddJob, Flatten;
      MergedEmits(env, p, rest, f, config);
      AddedEmits(env, p, GroupJobs(env, rest), last, f, config);
      EmittedByAppend(rest, [last], f, config);
    }
  }

  // ----- compiling a list of jobs -----

  ghost predicate Readable(contents: Contents, jobs: seq<Job>) {
    forall job <- jobs :: Paths(job) <= contents.Keys
  }

  ghost function CompileAll(env: Env, contents: Contents, jobs: seq<Job>, s: State): (t: State)
    requires Readable(contents, jobs)
    ensures t.named == s.named
  {
    if jobs == [] then s
    else
      assert jobs[|jobs| - 1] in jobs;
      CompileJob(env, contents, jobs[|jobs| - 1], CompileAll(env, contents, jobs[..|jobs| - 1], s))
  }

  /** `f` is recorded as compiled with this configuration from the current contents,
      its artifacts added to those of `s`. */
  ghost predicate EmittedAs(env: Env, contents: Contents, s: State, t: State, f: Path, config: Config)
    requires f in contents
  {
    var out := env.compile(config, contents, f);
    && f in t.cache && t.cache[f] == Entry(env.hash(contents[f]), config, out.Keys)
    && Dir(t.disk, f) == Dir(s.disk, f) + out
  }

  lemma DoneIsEmittedAs(env: Env, p: Project, job: Job, s: State, t: State, f: Path)
    requires LocalCompiler(env) && p.graph <= p.contents.Keys && JobOk(env, p, job) && Emits(job, f) && f in p.contents
    requires Paths(job) <= p.contents.Keys && Done(env, p.contents, job, s, t, f)
    ensures EmittedAs(env, p.contents, s, t, f, job.solcConfig)
  {
    EmittedIsListed(job, f);
    JobIsLocal(env, p, job, f);
  }

  /** Emitting again with the same configuration changes nothing. */
  lemma EmittedInTurn(env: Env, contents: Contents, r: State, s: State, t: State, f: Path, config: Config)
    requires f in contents
    ensures EmittedAs(env, contents, r, s, f, config) && SameAt(s, t, f) ==> EmittedAs(env, contents, r, t, f, config)
    ensures SameAt(r, s, f) && EmittedAs(env, contents, s, t, f, config) ==> EmittedAs(env, contents, r, t, f, config)
    ensures EmittedAs(env, contents, r, s, f, config) && EmittedAs(env, contents, s, t, f, config) ==>
              EmittedAs(env, contents, r, t, f, config)
    ensures SameAt(r, s, f) && SameAt(s, t, f) ==> SameAt(r, t, f)
    ensures SameAt(r, r, f)
  {
    var out := env.compile(config, contents, f);
    assert Dir(r.disk, f) + out + out == Dir(r.disk, f) + out;
  }

  lemma OkIsReadable(env: Env, p: Project, jobs: seq<Job>)
    requires AllOk(env, p, jobs) && p.graph <= p.contents.Keys
    ensures Readable(p.contents, jobs)
  {
    forall job | job in jobs
      ensures Paths(job) <= p.contents.Keys
    {
      assert JobOk(env, p, job);
    }
  }

  lemma {:induction false} CompileAllAt(env: Env, p: Project, jobs: seq<Job>, s: State, f: Path, config: Config)
    requires LocalCompiler(env) && p.graph <= p.contents.Keys && AllOk(env, p, jobs) && Readable(p.contents, jobs) && f in p.contents
    requires forall job <- jobs :: Emits(job, f) ==> job.solcConfig == config
    ensures var t := CompileAll(env, p.contents, jobs, s);
            if EmittedBy(jobs, f, config) then EmittedAs(env, p.contents, s, t, f, config) else SameAt(s, t, f)
  {
    if jobs == [] {
      EmittedInTurn(env, p.contents, s, s, s, f, config);
    } else {
      var rest, last := jobs[..|jobs| - 1], jobs[|jobs| - 1];
      assert last in jobs && jobs == rest + [last] && JobOk(env, p, last) && Paths(last) <= p.contents.Keys;
      var before, t := CompileAll(env, p.contents, rest, s), CompileAll(env, p.contents, jobs, s);
      hide LocalCompiler, JobOk, Emits, Paths, CompileJob, EmittedBy, Done, SameAt, EmittedAs;
      CompileAllAt(env, p, rest, s, f, config);
      EmittedByAppend(rest, [last], f, config);
      EmittedByOne(last, f, config);
      CompiledAt(env, p.contents, last, before, f);
      EmittedInTurn(env, p.contents, s, before, t, f, config);
      if Emits(last, f) {
        DoneIsEmittedAs(env, p, last, before, t, f);
      }
    }
  }

  /** A file that cannot be read is left alone. */
  lemma {:induction false} CompileAllElsewhere(env: Env, contents: Contents, jobs: seq<Job>, s: State, f: Path)
    requires Readable(contents, jobs) && f !in contents
    ensures SameAt(s, CompileAll(env, contents, jobs, s), f)
  {
    if jobs != [] {
      var rest, last := jobs[..|jobs| - 1], jobs[|jobs| - 1];
      assert last in jobs && Paths(last) <= contents.Keys;
      CompileAllElsewhere(env, contents, rest, s, f);
      RecordFilesElsewhere(env, contents, last, |last.files|, CompileAll(env, contents, rest, s), f);
    }
  }

  /** No two of the jobs emit a file with different configurations. */
  ghost predicate Consistent(jobs: seq<Job>) {
    forall a <- jobs, b <- jobs, f :: Emits(a, f) && Emits(b, f) ==> a.solcConfig == b.solcConfig
  }

  /** Both lists emit the same files with the same configurations. */
  ghost predicate EmitAlike(jobs: seq<Job>, other: seq<Job>) {
    forall f, config :: EmittedBy(jobs, f, config) <==> EmittedBy(other, f, config)
  }

  lemma OneConfigFor(jobs: seq<Job>, other: seq<Job>, f: Path) returns (config: Config)
    requires Consistent(jobs) && EmitAlike(jobs, other)
    ensures forall job <- jobs :: Emits(job, f) ==> job.solcConfig == config
    ensures forall job <- other :: Emits(job, f) ==> job.solcConfig == config
    ensures EmittedBy(other, f, config) <==> EmittedBy(jobs, f, config)
  {
    hide Emits;
    if exists job <- jobs :: Emits(job, f) {
      var job :| job in jobs && Emits(job, f);
      config := job.solcConfig;
    } else {
      config := "";
    }
    forall job | job in other && Emits(job, f)
      ensures job.solcConfig == config
    {
      assert EmittedBy(other, f, job.solcConfig) && EmittedBy(jobs, f, job.solcConfig);
    }
  }

  /** What the jobs are, beyond which files they emit and how, does not matter. */
  lemma OnlyEmissionsMatter(env: Env, p: Project, jobs: seq<Job>, other: seq<Job>, s: State)
    requires LocalCompiler(env) && p.graph <= p.contents.Keys
    requires AllOk(env, p, jobs) && AllOk(env, p, other) && Consistent(jobs) && EmitAlike(jobs, other)
    ensures Readable(p.contents, jobs) && Readable(p.contents, other)
    ensures SameState(CompileAll(env, p.contents, other, s), CompileAll(env, p.contents, jobs, s))
  {
    OkIsReadable(env, p, jobs);
    OkIsReadable(env, p, other);
    var r, t := CompileAll(env, p.contents, other, s), CompileAll(env, p.contents, jobs, s);
    assert r.named == t.named;
    hide *;
    forall f
      ensures SameAt(r, t, f)
    {
      AlikeAt(env, p, jobs, other, s, f);
    }
    SameEverywhere(r, t);
  }

  lemma AlikeAt(env: Env, p: Project, jobs: seq<Job>, other: seq<Job>, s: State, f: Path)
    requires LocalCompiler(env) && p.graph <= p.contents.Keys
    requires AllOk(env, p, jobs) && AllOk(env, p, other) && Consistent(jobs) && EmitAlike(jobs, other)
    requires Readable(p.contents, jobs) && Readable(p.contents, other)
    ensures SameAt(CompileAll(env, p.contents, other, s), CompileAll(env, p.contents, jobs, s), f)
  {
    hide *;
    var r, t := CompileAll(env, p.contents, other, s), CompileAll(env, p.contents, jobs, s);
    if f !in p.contents {
      CompileAllElsewhere(env, p.contents, jobs, s, f);
      CompileAllElsewhere(env, p.contents, other, s, f);
      SameTwice(s, r, t, f);
    } else {
      var config := OneConfigFor(jobs, other, f);
      CompileAllAt(env, p, jobs, s, f, config);
      CompileAllAt(env, p, other, s, f, config);
      if EmittedBy(jobs, f, config) {
        EmittedTwice(env, p.contents, s, r, t, f, config);
      } else {
        SameTwice(s, r, t, f);
      }
    }
  }

  lemma SameTwice(s: State, t: State, u: State, f: Path)
    requires SameAt(s, t, f) && SameAt(s, u, f)
    ensures SameAt(t, u, f)
  {
  }

  lemma EmittedTwice(env: Env, contents: Contents, s: State, t: State, u: State, f: Path, config: Config)
    requires f in contents && EmittedAs(env, contents, s, t, f, config) && EmittedAs(env, contents, s, u, f, config)
    ensures SameAt(t, u, f)
  {
  }

  /** Compiling the merged jobs leaves the same cache and the same artifacts as
      compiling the jobs one after the other. */
  lemma MergingIsIrrelevant(env: Env, p: Project, jobs: seq<Job>, s: State)
    requires LocalCompiler(env) && p.graph <= p.contents.Keys && AllOk(env, p, jobs) && Consistent(jobs)
    ensures Readable(p.contents, jobs) && Readable(p.contents, MergeJobs(env, jobs))
    ensures SameState(CompileAll(env, p.contents, MergeJobs(env, jobs), s), CompileAll(env, p.contents, jobs, s))
  {
    MergedEmits(env, p, jobs, "", "");
    assert EmitAlike(jobs, MergeJobs(env, jobs)) by {
      hide EmittedBy, MergeJobs;
      forall f, config
        ensures EmittedBy(jobs, f, config) <==> EmittedBy(MergeJobs(env, jobs), f, config)
      {
        MergedEmits(env, p, jobs, f, config);
      }
    }
    hide *;
    OnlyEmissionsMatter(env, p, jobs, MergeJobs(env, jobs), s);
  }

  // ----- which jobs are merged -----

  function OfConfig(jobs: seq<Job>, config: Config): seq<Job> {
    if jobs == [] then []
    else (if jobs[0].solcConfig == config then [jobs[0]] else []) + OfConfig(jobs[1..], config)
  }

  lemma {:induction false} OfConfigAppend(a: seq<Job>, b: seq<Job>, config: Config)
    ensures OfConfig(a + b, config) == OfConfig(a, config) + OfConfig(b, config)
  {
    if a == [] {
      assert a + b == b && [] + OfConfig(b, config) == OfConfig(b, config);
    } else {
      assert (a + b)[1..] == a[1..] + b && (a + b)[0] == a[0];
      OfConfigAppend(a[1..], b, config);
      var first := if a[0].solcConfig == config then [a[0]] else [];
      assert first + (OfConfig(a[1..], config) + OfConfig(b, config)) == first + OfConfig(a[1..], config) + OfConfig(b, config);
    }
  }

  lemma {:induction false} AllOfConfig(jobs: seq<Job>, config: Config)
    ensures (forall job <- jobs :: job.solcConfig == config) ==> OfConfig(jobs, config) == jobs
    ensures (forall job <- jobs :: job.solcConfig != config) ==> OfConfig(jobs, config) == []
  {
    if jobs != [] {
      AllOfConfig(jobs[1..], config);
      assert jobs == [jobs[0]] + jobs[1..] && forall job <- jobs[1..] :: job in jobs;
    }
  }

  ghost predicate DistinctGroups(groups: seq<Group>) {
    forall i, j :: 0 <= i < j < |groups| ==> groups[i].solcConfig != groups[j].solcConfig
  }

  /** The jobs of one configuration after one more. */
  function OneMore(env: Env, config: Config, jobs: seq<Job>, job: Job): seq<Job> {
    if jobs == [] || env.hasSolc9573Bug(config) then jobs + [job] else [Merge(jobs[0], job)]
  }

  /** What the jobs of one configuration become: left alone where merging meets the bug,
      merged into one otherwise. */
  function MergedOf(env: Env, config: Config, jobs: seq<Job>): seq<Job> {
    if jobs == [] then [] else OneMore(env, config, MergedOf(env, config, jobs[..|jobs| - 1]), jobs[|jobs| - 1])
  }

  lemma {:induction false} NoGroupOf(groups: seq<Group>, config: Config)
    requires forall g <- groups :: g.solcConfig != config && forall job <- g.jobs :: job.solcConfig == g.solcConfig
    ensures OfConfig(Flatten(groups), config) == []
  {
    if groups != [] {
      NoGroupOf(groups[1..], config);
      AllOfConfig(groups[0].jobs, config);
      OfConfigAppend(groups[0].jobs, Flatten(groups[1..]), config);
    }
  }

  lemma {:induction false} AddedOfConfig(env: Env, groups: seq<Group>, job: Job, config: Config)
    requires GroupsOk(env, groups) && DistinctGroups(groups)
    ensures DistinctGroups(AddJob(env, groups, job))
    ensures forall g <- AddJob(env, groups, job) :: g.solcConfig == job.solcConfig || exists h <- groups :: h.solcConfig == g.solcConfig
    ensures OfConfig(Flatten(AddJob(env, groups, job)), config) ==
            var before := OfConfig(Flatten(groups), config);
            if job.solcConfig == config then OneMore(env, config, before, job) else before
  {
    if groups == [] {
      assert AddJob(env, groups, job) == [Group(job.solcConfig, [job])];
      FlattenOne(Group(job.solcConfig, [job]));
      assert [job][1..] == [] && [] + [job] == [job];
    } else {
      var g, rest := groups[0], groups[1..];
      assert g in groups && groups == [g] + rest;
      RestOk(env, g, rest);
      hide Flatten, OfConfig, Grown, OneMore, Merge, GroupsOk;
      if g.solcConfig == job.solcConfig {
        AddedToFirst(env, g, rest, job, config);
      } else {
        assert AddJob(env, groups, job) == [g] + AddJob(env, rest, job);
        AddedOfConfig(env, rest, job, config);
        AddedFurther(env, g, rest, AddJob(env, rest, job), job, config);
      }
    }
  }

  lemma RestOk(env: Env, g: Group, rest: seq<Group>)
    requires GroupsOk(env, [g] + rest) && DistinctGroups([g] + rest)
    ensures GroupsOk(env, rest) && DistinctGroups(rest) && g.jobs != [] && forall job <- g.jobs :: job.solcConfig == g.solcConfig
    ensures forall h <- rest :: h.solcConfig != g.solcConfig && forall job <- h.jobs :: job.solcConfig == h.solcConfig
  {
    assert g in [g] + rest && forall h <- rest :: h in [g] + rest;
    assert forall i :: 0 <= i < |rest| ==> ([g] + rest)[i + 1] == rest[i];
    assert ([g] + rest)[0] == g;
  }

  lemma OfGroup(g: Group, rest: seq<Group>, config: Config)
    requires forall job <- g.jobs :: job.solcConfig == g.solcConfig
    ensures OfConfig(Flatten([g] + rest), config) ==
            (if g.solcConfig == config then g.jobs else []) + OfConfig(Flatten(rest), config)
  {
    hide Flatten, OfConfig;
    FlattenCons(g, rest);
    OfConfigAppend(g.jobs, Flatten(rest), config);
    AllOfConfig(g.jobs, config);
  }

  lemma AddedFurther(env: Env, g: Group, rest: seq<Group>, added: seq<Group>, job: Job, config: Config)
    requires GroupsOk(env, [g] + rest) && DistinctGroups([g] + rest) && g.solcConfig != job.solcConfig
    requires DistinctGroups(added) && forall h <- added :: h.solcConfig == job.solcConfig || exists k <- rest :: k.solcConfig == h.solcConfig
    requires OfConfig(Flatten(added), config) ==
             var before := OfConfig(Flatten(rest), config);
             if job.solcConfig == config then OneMore(env, config, before, job) else before
    ensures DistinctGroups([g] + added)
    ensures OfConfig(Flatten([g] + added), config) ==
            var before := OfConfig(Flatten([g] + rest), config);
            if job.solcConfig == config then OneMore(env, config, before, job) else before
  {
    RestOk(env, g, rest);
    hide Flatten, OfConfig, OneMore, GroupsOk;
    OfGroup(g, rest, config);
    OfGroup(g, added, config);
    DistinctFirst(g, added);
    Nothing(OfConfig(Flatten(rest), config));
    Nothing(OfConfig(Flatten(added), config));
  }

  lemma Nothing<T>(s: seq<T>)
    ensures [] + s == s && s + [] == s
  {
  }

  lemma DistinctFirst(g: Group, rest: seq<Group>)
    requires DistinctGroups(rest) && forall h <- rest :: h.solcConfig != g.solcConfig
    ensures DistinctGroups([g] + rest)
  {
  }

  lemma GrownIs(env: Env, g: Group, job: Job)
    requires g.jobs != [] && (forall j <- g.jobs :: j.solcConfig == g.solcConfig) && g.solcConfig == job.solcConfig
    ensures Grown(env, g, job).jobs == OneMore(env, g.solcConfig, g.jobs, job) && Grown(env, g, job).solcConfig == g.solcConfig
    ensures forall j <- Grown(env, g, job).jobs :: j.solcConfig == g.solcConfig
  {
    MergeKeepsConfig(g.jobs[0], job);
  }

  lemma AddedToFirst(env: Env, g: Group, rest: seq<Group>, job: Job, config: Config)
    requires GroupsOk(env, [g] + rest) && DistinctGroups([g] + rest) && g.solcConfig == job.solcConfig
    ensures g.jobs != [] && DistinctGroups([Grown(env, g, job)] + rest)
    ensures OfConfig(Flatten([Grown(env, g, job)] + rest), config) ==
            var before := OfConfig(Flatten([g] + rest), config);
            if job.solcConfig == config then OneMore(env, config, before, job) else before
  {
    RestOk(env, g, rest);
    GrownIs(env, g, job);
    var grown := Grown(env, g, job);
    hide Flatten, OfConfig, OneMore, GroupsOk, Grown;
    OfGroup(g, rest, config);
    OfGroup(grown, rest, config);
    DistinctFirst(grown, rest);
    if g.solcConfig == config {
      NoGroupOf(rest, config);
      Nothing(g.jobs);
      Nothing(grown.jobs);
    }
  }

  /** Merging makes of the jobs of each configuration what `MergedOf` says, whatever
      other jobs stand between them. */
  lemma {:induction false} MergedByConfig(env: Env, jobs: seq<Job>, config: Config)
    ensures OfConfig(MergeJobs(env, jobs), config) == MergedOf(env, config, OfConfig(jobs, config))
    ensures DistinctGroups(GroupJobs(env, jobs))
  {
    if jobs != [] {
      var rest, last := jobs[..|jobs| - 1], jobs[|jobs| - 1];
      assert jobs == rest + [last] && [last][1..] == [];
      MergedByConfig(env, rest, config);
      hide *;
      GroupsSnoc(env, rest, last);
      AddedOfConfig(env, GroupJobs(env, rest), last, config);
      OfConfigSnoc(rest, last, config);
      MergedSnoc(env, config, OfConfig(rest, config), last);
    }
  }

  lemma GroupsSnoc(env: Env, rest: seq<Job>, last: Job)
    ensures GroupJobs(env, rest + [last]) == AddJob(env, GroupJobs(env, rest), last)
    ensures MergeJobs(env, rest + [last]) == Flatten(AddJob(env, GroupJobs(env, rest), last))
    ensures MergeJobs(env, rest) == Flatten(GroupJobs(env, rest))
  {
    hide AddJob, Flatten;
    assert (rest + [last])[..|rest|] == rest;
  }

  lemma OfConfigSnoc(rest: seq<Job>, last: Job, config: Config)
    ensures OfConfig(rest + [last], config) == OfConfig(rest, config) + if last.solcConfig == config then [last] else []
  {
    OfConfigAppend(rest, [last], config);
    assert [last][1..] == [] && [last] + [] == [last] && [] + [] == OfConfig([], config);
  }

  lemma MergedSnoc(env: Env, config: Config, jobs: seq<Job>, job: Job)
    ensures MergedOf(env, config, jobs + [job]) == OneMore(env, config, MergedOf(env, config, jobs), job)
    ensures jobs + [] == jobs
  {
    hide OneMore;
    assert (jobs + [job])[..|jobs|] == jobs;
  }

  /** So the jobs of a configuration with the bug stay as they are, and any others become
      one. */
  lemma {:induction false} OneJobUnlessBuggy(env: Env, config: Config, jobs: seq<Job>)
    ensures env.hasSolc9573Bug(config) ==> MergedOf(env, config, jobs) == jobs
    ensures !env.hasSolc9573Bug(config) ==> |MergedOf(env, config, jobs)| == if jobs == [] then 0 else 1
  {
    if jobs != [] {
      OneJobUnlessBuggy(env, config, jobs[..|jobs| - 1]);
      assert jobs == jobs[..|jobs| - 1] + [jobs[|jobs| - 1]];
    }
  }

  /** The different configurations of the jobs, by first occurrence. */
  function Configs(jobs: seq<Job>): seq<Config> {
    if jobs == [] then []
    else
      var configs := Configs(jobs[..|jobs| - 1]);
      if jobs[|jobs| - 1].solcConfig in configs then configs else configs + [jobs[|jobs| - 1].solcConfig]
  }

  function ConfigsOf(groups: seq<Group>): seq<Config> {
    seq(|groups|, i requires 0 <= i < |groups| => groups[i].solcConfig)
  }

  lemma {:induction false} AddedConfigs(env: Env, groups: seq<Group>, job: Job)
    requires GroupsOk(env, groups)
    ensures ConfigsOf(AddJob(env, groups, job)) ==
            if job.solcConfig in ConfigsOf(groups) then ConfigsOf(groups) else ConfigsOf(groups) + [job.solcConfig]
  {
    if groups == [] {
      assert ConfigsOf([Group(job.solcConfig, [job])]) == [job.solcConfig];
    } else {
      var g, rest := groups[0], groups[1..];
      assert g in groups && groups == [g] + rest && forall h <- rest :: h in groups;
      var grown := Grown(env, g, job);
      assert grown.solcConfig == g.solcConfig;
      assert AddJob(env, groups, job) == if g.solcConfig == job.solcConfig then [grown] + rest else [g] + AddJob(env, rest, job);
      hide Grown, AddJob, ConfigsOf;
      ConfigsCons(g, rest);
      if g.solcConfig == job.solcConfig {
        ConfigsCons(grown, rest);
      } else {
        AddedConfigs(env, rest, job);
        ConfigsCons(g, AddJob(env, rest, job));
        TailIn(g.solcConfig, ConfigsOf(rest), job.solcConfig);
      }
    }
  }

  lemma ConfigsCons(g: Group, rest: seq<Group>)
    ensures ConfigsOf([g] + rest) == [g.solcConfig] + ConfigsOf(rest)
  {
  }

  lemma TailIn(first: Config, rest: seq<Config>, config: Config)
    requires first != config
    ensures config in [first] + rest <==> config in rest
    ensures [first] + (rest + [config]) == [first] + rest + [config]
  {
  }

  /** The merged jobs come in the order in which their configurations first come up. */
  lemma {:induction false} GroupsInOrder(env: Env, jobs: seq<Job>)
    ensures ConfigsOf(GroupJobs(env, jobs)) == Configs(jobs)
  {
    if jobs != [] {
      GroupsInOrder(env, jobs[..|jobs| - 1]);
      AddedConfigs(env, GroupJobs(env, jobs[..|jobs| - 1]), jobs[|jobs| - 1]);
    }
  }
}
