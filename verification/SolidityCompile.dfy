/** The loops of the Solidity compile task over its cache object and the `Artifacts`
    object, which holds the artifacts directory and outlives the runs of a process. */
module SolidityCompile {
  import opened Prelude
  import opened SolidityBuildSpec
  import opened SolidityMerging
  import opened SolidityRuns
  import opened SolidityStore
  import ContractNames
  import ArtifactStore
  import ArtifactsObject

  class SolidityFilesCache {
    var files: Cache

    constructor (files: Cache)
      ensures this.files == files
    {
      this.files := files;
    }

    method AddFile(f: Path, entry: Entry)
      modifies this
      ensures files == old(files)[f := entry]
    {
      files := files[f := entry];
    }

    method RemoveEntry(f: Path)
      modifies this
      ensures files == old(files) - {f}
    {
      files := files - {f};
    }

    method HasFileChanged(f: Path, contentHash: string, config: Option<Config>) returns (changed: bool)
      ensures changed == SolidityBuildSpec.HasFileChanged(files, f, contentHash, config)
    {
      if f !in files {
        return true;
      }
      if files[f].contentHash != contentHash {
        return true;
      }
      if config.Some? && config.value != files[f].solcConfig {
        return true;
      }
      return false;
    }
  }

  function SetOf(files: seq<Path>): set<Path> {
    set f | f in files
  }

  /** `invalidateCacheMissingArtifacts`. */
  method InvalidateCacheMissingArtifacts(cache: SolidityFilesCache, artifacts: ArtifactsObject.Artifacts, resolvedFiles: seq<Path>)
    requires artifacts.Coherent()
    modifies cache, artifacts`cache
    ensures artifacts.Coherent()
    ensures cache.files ==
            InvalidateListed(old(cache.files), ArtifactStore.ArtifactsOn(artifacts.disk), SetOf(resolvedFiles))
  {
    var paths := artifacts.GetArtifactPaths();
    var i := 0;
    assert SetOf(resolvedFiles[..0]) == {};
    while i < |resolvedFiles|
      invariant 0 <= i <= |resolvedFiles|
      invariant cache.files == InvalidateListed(old(cache.files), paths, SetOf(resolvedFiles[..i]))
      invariant artifacts.Coherent()
    {
      var f := resolvedFiles[i];
      InvalidatedStep(old(cache.files), paths, SetOf(resolvedFiles[..i]), f);
      hide InvalidateListed, Unlisted;
      if f in cache.files {
        var missing := SomeMissing(cache.files[f], paths, f);
        if missing {
          cache.RemoveEntry(f);
        }
      }
      assert SetOf(resolvedFiles[..i + 1]) == SetOf(resolvedFiles[..i]) + {f};
      i := i + 1;
    }
    assert resolvedFiles[..i] == resolvedFiles;
  }

  lemma InvalidatedStep(files: Cache, paths: set<ContractNames.Path>, done: set<Path>, f: Path)
    ensures var now := InvalidateListed(files, paths, done);
            && (f in now ==> now[f] == files[f])
            && InvalidateListed(files, paths, done + {f}) ==
               if f in now && Unlisted(now[f], paths, f) then now - {f} else now
  {
    hide Unlisted;
  }

  /** The inner loop, up to its `break`. */
  method SomeMissing(entry: Entry, paths: set<ContractNames.Path>, f: Path) returns (missing: bool)
    ensures missing <==> Unlisted(entry, paths, f)
  {
    var left := entry.artifacts;
    while left != {}
      invariant left <= entry.artifacts
      invariant forall n <- entry.artifacts ::
                  n in left || (PathOfName(f, n).Some? && PathOfName(f, n).value in paths)
      decreases left
    {
      var n :| n in left;
      var path := PathOfName(f, n);
      if path.None? || path.value !in paths {
        return true;
      }
      left := left - {n};
    }
    return false;
  }

  /** `needsCompilation`: the first changed file decides. */
  method NeedsCompilation(env: Env, contents: Contents, job: Job, cache: SolidityFilesCache) returns (needed: bool)
    requires Paths(job) <= contents.Keys
    ensures needed <==> SolidityBuildSpec.NeedsCompilation(env, contents, cache.files, job)
  {
    var i := 0;
    while i < |job.files|
      invariant 0 <= i <= |job.files|
      invariant forall k :: 0 <= k < i ==>
                  job.files[k].path in contents && !FileForces(env, contents, cache.files, job, k)
    {
      PathIsListed(job, i);
      var file := job.files[i];
      var changed := cache.HasFileChanged(
        file.path, env.hash(contents[file.path]), if file.emits then Some(job.solcConfig) else None);
      if changed {
        assert FileForces(env, contents, cache.files, job, i);
        return true;
      }
      i := i + 1;
    }
    return false;
  }

  /** Filtering the jobs: the ones the whole cache, before any compilation, calls for. */
  method FilterJobs(env: Env, p: Project, cache: SolidityFilesCache) returns (needed: seq<Job>)
    requires Compilable(p)
    ensures needed == Needed(env, p, cache.files, |p.jobs|)
  {
    needed := [];
    var i := 0;
    while i < |p.jobs|
      invariant 0 <= i <= |p.jobs|
      invariant needed == Needed(env, p, cache.files, i)
    {
      assert p.jobs[i] in p.jobs;
      var compile := p.force;
      if !compile {
        compile := NeedsCompilation(env, p.contents, p.jobs[i], cache);
      }
      if compile {
        needed := needed + [p.jobs[i]];
      }
      i := i + 1;
    }
  }

  /** `addFileToCompile` and `merge`. */
  method MergeTwo(a: Job, b: Job) returns (merged: Job)
    ensures merged == Merge(a, b)
  {
    var files := a.files;
    var i := 0;
    assert b.files[..0] == [];
    while i < |b.files|
      invariant 0 <= i <= |b.files|
      invariant files == MergeFiles(a.files, b.files[..i])
    {
      assert b.files[..i + 1][..i] == b.files[..i];
      files := AddFile(files, b.files[i]);
      i := i + 1;
    }
    assert b.files[..i] == b.files;
    merged := Job(a.solcConfig, files);
  }

  method AddFile(files: seq<JobFile>, file: JobFile) returns (after: seq<JobFile>)
    ensures after == AddFileToCompile(files, file)
  {
    var i := 0;
    while i < |files| && files[i].path != file.path
      invariant 0 <= i <= |files|
      invariant forall k :: 0 <= k < i ==> files[k].path != file.path
    {
      i := i + 1;
    }
    AddFileAt(files, file, i);
    if i == |files| {
      return files + [file];
    }
    after := if file.emits then files[i := file] else files;
  }

  lemma {:induction false} AddFileAt(files: seq<JobFile>, file: JobFile, i: nat)
    requires i <= |files| && forall k :: 0 <= k < i ==> files[k].path != file.path
    requires i < |files| ==> files[i].path == file.path
    ensures AddFileToCompile(files, file) ==
            if i == |files| then files + [file] else if file.emits then files[i := file] else files
  {
    if files == [] {
      assert files + [file] == [file];
    } else if i == 0 {
      assert files[0 := file] == [file] + files[1..];
    } else {
      AddFileAt(files[1..], file, i - 1);
      assert files == [files[0]] + files[1..];
      assert i == |files| ==> [files[0]] + (files[1..] + [file]) == files + [file];
      assert i < |files| ==> [files[0]] + files[1..][i - 1 := file] == files[i := file];
    }
  }

  /** `mergeCompilationJobsWithoutBug`.  The invariant that a group which may be
      merged holds one job is the one the source asserts. */
  method MergeCompilationJobs(env: Env, jobs: seq<Job>) returns (merged: seq<Job>)
    ensures merged == MergeJobs(env, jobs)
  {
    var groups: seq<Group> := [];
    var i := 0;
    assert jobs[..0] == [];
    hide AddJob, GroupsOk;
    while i < |jobs|
      invariant 0 <= i <= |jobs|
      invariant groups == GroupJobs(env, jobs[..i])
    {
      assert jobs[..i + 1][..i] == jobs[..i] && jobs[..i + 1][i] == jobs[i];
      groups := AddToGroups(env, groups, jobs[i]);
      i := i + 1;
    }
    assert jobs[..i] == jobs;
    merged := [];
    var k := |groups|;
    assert groups[k..] == [];
    while k > 0
      invariant 0 <= k <= |groups|
      invariant merged == Flatten(groups[k..])
    {
      k := k - 1;
      assert groups[k..] == [groups[k]] + groups[k + 1..];
      FlattenCons(groups[k], groups[k + 1..]);
      merged := groups[k].jobs + merged;
    }
    assert groups[0..] == groups;
  }

  method AddToGroups(env: Env, groups: seq<Group>, job: Job) returns (after: seq<Group>)
    requires GroupsOk(env, groups)
    ensures after == AddJob(env, groups, job)
  {
    var i := 0;
    while i < |groups| && groups[i].solcConfig != job.solcConfig
      invariant 0 <= i <= |groups|
      invariant forall k :: 0 <= k < i ==> groups[k].solcConfig != job.solcConfig
    {
      i := i + 1;
    }
    AddJobAt(env, groups, job, i);
    if i == |groups| {
      return groups + [Group(job.solcConfig, [job])];
    }
    assert groups[i] in groups;
    if env.hasSolc9573Bug(job.solcConfig) {
      return groups[i := Group(job.solcConfig, groups[i].jobs + [job])];
    }
    assert |groups[i].jobs| == 1;
    var newJob := MergeTwo(groups[i].jobs[0], job);
    after := groups[i := Group(job.solcConfig, [newJob])];
  }

  lemma AddJobAt(env: Env, groups: seq<Group>, job: Job, i: nat)
    requires GroupsOk(env, groups)
    requires i <= |groups| && forall k :: 0 <= k < i ==> groups[k].solcConfig != job.solcConfig
    requires i < |groups| ==> groups[i].solcConfig == job.solcConfig
    ensures i == |groups| ==> AddJob(env, groups, job) == groups + [Group(job.solcConfig, [job])]
    ensures i < |groups| ==> groups[i] in groups && AddJob(env, groups, job) == groups[i := Grown(env, groups[i], job)]
  {
    var others, rest := groups[..i], groups[i..];
    hide *;
    SplitAt(groups, i);
    PassedBy(env, others, rest, job);
    if i == |groups| {
      AddedLast(env, job);
    } else {
      AddedHere(env, rest, job);
      Replaced(groups, i, Grown(env, groups[i], job));
    }
  }

  lemma SplitAt<T>(s: seq<T>, i: nat)
    requires i <= |s|
    ensures s == s[..i] + s[i..] && (i == |s| ==> s[i..] == [] && s[..i] == s) && (i < |s| ==> s[i..] != [] && s[i..][0] == s[i])
    ensures i < |s| ==> s[i] in s
  {
  }

  lemma Replaced<T>(s: seq<T>, i: nat, x: T)
    requires i < |s|
    ensures s[..i] + ([x] + s[i..][1..]) == s[i := x]
  {
  }

  lemma Cons<T>(s: seq<T>, t: seq<T>, r: seq<T>)
    requires s != []
    ensures s + t == [s[0]] + (s[1..] + t) && [s[0]] + (s[1..] + r) == s + r
  {
  }

  lemma {:induction false} PassedBy(env: Env, others: seq<Group>, rest: seq<Group>, job: Job)
    requires GroupsOk(env, others + rest) && forall k :: 0 <= k < |others| ==> others[k].solcConfig != job.solcConfig
    ensures GroupsOk(env, rest) && AddJob(env, others + rest, job) == others + AddJob(env, rest, job)
  {
    if others == [] {
      assert others + rest == rest;
      assert others + AddJob(env, rest, job) == AddJob(env, rest, job);
    } else {
      hide *;
      Cons(others, rest, []);
      AddedFurther(env, others[0], others[1..] + rest, job);
      PassedBy(env, others[1..], rest, job);
      Cons(others, rest, AddJob(env, rest, job));
    }
  }

  lemma AddedFurther(env: Env, first: Group, rest: seq<Group>, job: Job)
    requires GroupsOk(env, [first] + rest) && first.solcConfig != job.solcConfig
    ensures GroupsOk(env, rest) && AddJob(env, [first] + rest, job) == [first] + AddJob(env, rest, job)
  {
    assert forall g <- rest :: g in [first] + rest;
    assert ([first] + rest)[1..] == rest;
  }

  lemma AddedHere(env: Env, groups: seq<Group>, job: Job)
    requires GroupsOk(env, groups) && groups != [] && groups[0].solcConfig == job.solcConfig
    ensures groups[0] in groups && AddJob(env, groups, job) == [Grown(env, groups[0], job)] + groups[1..]
  {
    assert groups[0] in groups;
  }

  lemma AddedLast(env: Env, job: Job)
    ensures AddJob(env, [], job) == [Group(job.solcConfig, [job])]
  {
  }

  // ----- compiling and saving -----

  /** The build info of a job: the hash that names it, and its text. */
  type BuildInfoOf = Job -> (string, string)

  /** The objects hold the cache, the artifacts and the valid names of `s`. */
  ghost predicate Represents(cache: SolidityFilesCache, artifacts: ArtifactsObject.Artifacts, s: State)
    reads cache, artifacts
  {
    && artifacts.Coherent() && cache.files == s.cache && NamesProper(s.cache)
    && Tidy(artifacts.disk) && Holds(artifacts.disk, s.disk)
    && NamesAgree(artifacts.validArtifacts, s.named)
  }

  /** Some more artifacts of `f`. */
  ghost function Adding(s: State, f: Path, emitted: Emitted): State {
    s.(disk := s.disk[f := Dir(s.disk, f) + emitted])
  }

  ghost function Except(emitted: Emitted, left: set<string>): Emitted {
    map n | n in emitted && n !in left :: emitted[n]
  }

  /** Saving the artifacts of one file; the order does not matter. */
  method SaveArtifacts(artifacts: ArtifactsObject.Artifacts, f: Path, emitted: Emitted, buildInfo: ContractNames.Path, ghost s: State)
    requires Tidy(artifacts.disk) && Holds(artifacts.disk, s.disk) && artifacts.Coherent()
    requires forall n <- emitted :: Proper(Contract(f, n))
    modifies artifacts`disk, artifacts`cache
    ensures artifacts.Coherent() && Tidy(artifacts.disk) && old(artifacts.disk).Keys <= artifacts.disk.Keys
    ensures Holds(artifacts.disk, Adding(s, f, emitted).disk)
  {
    var left := emitted.Keys;
    NothingSaved(artifacts.disk, s, f);
    hide Holds, Tidy, Proper, Adding;
    assert Except(emitted, left) == map[];
    while left != {}
      invariant left <= emitted.Keys
      invariant artifacts.Coherent() && Tidy(artifacts.disk)
      invariant Holds(artifacts.disk, Adding(s, f, Except(emitted, left)).disk)
      invariant old(artifacts.disk).Keys <= artifacts.disk.Keys
      decreases left
    {
      var n :| n in left;
      OneMore(s, f, emitted, left, n);
      SaveArtifact(artifacts, f, n, emitted[n], buildInfo, Adding(s, f, Except(emitted, left)));
      left := left - {n};
    }
    assert Except(emitted, left) == emitted;
  }

  method SaveArtifact(
    artifacts: ArtifactsObject.Artifacts, f: Path, n: string, text: string, buildInfo: ContractNames.Path, ghost t: State)
    requires Tidy(artifacts.disk) && Holds(artifacts.disk, t.disk) && artifacts.Coherent() && Proper(Contract(f, n))
    modifies artifacts`disk, artifacts`cache
    ensures artifacts.Coherent() && Tidy(artifacts.disk) && old(artifacts.disk).Keys <= artifacts.disk.Keys
    ensures Holds(artifacts.disk, Adding(t, f, map[n := text]).disk)
  {
    ghost var c := Contract(f, n);
    SavedHolds(artifacts.disk, t, c, text, Some(buildInfo));
    SavedIsTidy(artifacts.disk, c, text, Some(buildInfo));
    ProperIsPlain(c);
    hide Holds, Tidy, Proper, PathOf, ContractNames.FormArtifactPath;
    var _ := artifacts.SaveArtifactAndDebugFile(f, n, text, Some(buildInfo));
  }

  lemma NothingSaved(dir: Directory, s: State, f: Path)
    requires Holds(dir, s.disk)
    ensures Holds(dir, Adding(s, f, map[]).disk)
  {
    var disk := s.disk[f := Dir(s.disk, f) + map[]];
    assert Dir(s.disk, f) + map[] == Dir(s.disk, f);
    assert forall g :: Dir(disk, g) == Dir(s.disk, g);
    SameStored(disk, s.disk);
    hide Stored;
    forall c | c in Stored(disk)
      ensures disk[c.source][c.name] == s.disk[c.source][c.name]
    {
      StoredIs(s.disk, c);
    }
  }

  lemma OneMore(s: State, f: Path, emitted: Emitted, left: set<string>, n: string)
    requires n in left && n in emitted
    ensures Adding(Adding(s, f, Except(emitted, left)), f, map[n := emitted[n]]) == Adding(s, f, Except(emitted, left - {n}))
  {
    assert Except(emitted, left - {n}) == Except(emitted, left) + map[n := emitted[n]];
    hide Except;
    AddedTwice(s, f, Except(emitted, left), map[n := emitted[n]]);
  }

  lemma AddedTwice(s: State, f: Path, some: Emitted, more: Emitted)
    ensures Adding(Adding(s, f, some), f, more) == Adding(s, f, some + more)
  {
    MoreTwice(Dir(s.disk, f), some, more);
    assert Dir(s.disk[f := Dir(s.disk, f) + some], f) == Dir(s.disk, f) + some;
    hide Dir;
  }

  lemma MoreTwice(stored: Emitted, some: Emitted, more: Emitted)
    ensures stored + some + more == stored + (some + more)
  {
  }

  /** One file of a job: its artifacts are saved, and it is recorded. */
  method RecordOne(
    env: Env, contents: Contents, job: Job, file: JobFile, cache: SolidityFilesCache,
    artifacts: ArtifactsObject.Artifacts, buildInfo: ContractNames.Path, ghost s: State)
    requires Paths(job) <= contents.Keys && file.path in contents && EmitsProper(env) && Represents(cache, artifacts, s)
    modifies cache, artifacts`disk, artifacts`cache
    ensures Represents(cache, artifacts, RecordFile(env, contents, job, file, s))
    ensures old(artifacts.disk).Keys <= artifacts.disk.Keys
  {
    if file.emits {
      var emitted := env.compile(job.solcConfig, Sources(contents, job), file.path);
      EmittedIsProper(env, job.solcConfig, Sources(contents, job), file.path);
      EntryIsProper(s.cache, file.path, Entry(env.hash(contents[file.path]), job.solcConfig, emitted.Keys));
      hide Holds, Tidy, NamesProper, NamesAgree, EmitsProper;
      SaveArtifacts(artifacts, file.path, emitted, buildInfo, s);
      cache.AddFile(file.path, Entry(env.hash(contents[file.path]), job.solcConfig, emitted.Keys));
    }
  }

  lemma EmittedIsProper(env: Env, config: Config, sources: Contents, f: Path)
    requires EmitsProper(env)
    ensures forall n <- env.compile(config, sources, f) :: Proper(Contract(f, n))
  {
  }

  lemma EntryIsProper(cache: Cache, f: Path, entry: Entry)
    requires NamesProper(cache) && forall n <- entry.artifacts :: Proper(Contract(f, n))
    ensures NamesProper(cache[f := entry])
  {
    hide Proper;
    forall c | c in NamesIn(cache[f := entry])
      ensures Proper(c)
    {
      assert c.source != f ==> c in NamesIn(cache);
    }
  }

  /** `TASK_COMPILE_SOLIDITY_EMIT_ARTIFACTS`, and recording what was emitted. */
  method CompileOne(
    env: Env, contents: Contents, job: Job, cache: SolidityFilesCache,
    artifacts: ArtifactsObject.Artifacts, info: BuildInfoOf, ghost s: State)
    requires Paths(job) <= contents.Keys && EmitsProper(env) && Represents(cache, artifacts, s)
    modifies cache, artifacts`disk, artifacts`cache
    ensures Represents(cache, artifacts, CompileJob(env, contents, job, s))
    ensures old(artifacts.disk).Keys <= artifacts.disk.Keys
  {
    BuildInfoSaved(artifacts.disk, s.disk, info(job).0, info(job).1);
    hide Holds, Tidy, NamesProper, NamesAgree, EmitsProper, RecordFile;
    var buildInfo := artifacts.SaveBuildInfo(info(job).0, info(job).1);
    var i := 0;
    while i < |job.files|
      invariant 0 <= i <= |job.files|
      invariant Represents(cache, artifacts, RecordFiles(env, contents, job, i, s))
      invariant old(artifacts.disk).Keys <= artifacts.disk.Keys
    {
      PathIsListed(job, i);
      RecordOne(env, contents, job, job.files[i], cache, artifacts, buildInfo, RecordFiles(env, contents, job, i, s));
      i := i + 1;
    }
  }

  method CompileNeeded(
    env: Env, contents: Contents, jobs: seq<Job>, cache: SolidityFilesCache,
    artifacts: ArtifactsObject.Artifacts, info: BuildInfoOf, ghost s: State)
    requires Readable(contents, jobs) && EmitsProper(env) && Represents(cache, artifacts, s)
    modifies cache, artifacts`disk, artifacts`cache
    ensures Represents(cache, artifacts, CompileAll(env, contents, jobs, s))
    ensures old(artifacts.disk).Keys <= artifacts.disk.Keys
  {
    var i := 0;
    assert jobs[..0] == [];
    hide Holds, Tidy, NamesProper, NamesAgree, EmitsProper, CompileJob, Represents;
    while i < |jobs|
      invariant 0 <= i <= |jobs|
      invariant Represents(cache, artifacts, CompileAll(env, contents, jobs[..i], s))
      invariant old(artifacts.disk).Keys <= artifacts.disk.Keys
    {
      assert jobs[..i + 1][..i] == jobs[..i] && jobs[..i + 1][i] == jobs[i];
      CompileOne(env, contents, jobs[i], cache, artifacts, info, CompileAll(env, contents, jobs[..i], s));
      i := i + 1;
    }
    assert jobs[..i] == jobs;
  }

  // ----- naming the artifacts valid -----

  /** `getEntries`; the order does not matter. */
  method GetEntries(files: Cache) returns (entries: seq<ArtifactsObject.ValidArtifacts>)
    ensures forall n :: n in ArtifactsObject.ValidNames(entries) <==> exists c :: c in NamesIn(files) && n == Fqn(c)
  {
    entries := [];
    var left := files.Keys;
    while left != {}
      invariant left <= files.Keys
      invariant forall n :: n in ArtifactsObject.ValidNames(entries) <==>
                  exists c :: c in NamesIn(files) && c.source !in left && n == Fqn(c)
      decreases left
    {
      var f :| f in left;
      var names := Listed(files[f].artifacts);
      NamesAppended(entries, f, names);
      NamesOfMore(files, left, f);
      hide ArtifactsObject.ValidNames, Fqn, NamesIn;
      entries := entries + [ArtifactsObject.ValidArtifacts(f, names)];
      left := left - {f};
    }
  }

  lemma NamesOfMore(files: Cache, left: set<Path>, f: Path)
    requires f in left && left <= files.Keys
    ensures forall c :: c in NamesIn(files) && c.source !in left - {f} <==>
                        (c in NamesIn(files) && c.source !in left) || (c.source == f && c.name in files[f].artifacts)
  {
  }

  method Listed(names: set<string>) returns (list: seq<string>)
    ensures forall n :: n in list <==> n in names
  {
    list := [];
    var left := names;
    while left != {}
      invariant left <= names && forall n :: n in list <==> n in names && n !in left
      decreases left
    {
      var n :| n in left;
      list := list + [n];
      left := left - {n};
    }
  }

  lemma {:induction false} ValidNamesAppend(a: seq<ArtifactsObject.ValidArtifacts>, b: seq<ArtifactsObject.ValidArtifacts>)
    ensures ArtifactsObject.ValidNames(a + b) == ArtifactsObject.ValidNames(a) + ArtifactsObject.ValidNames(b)
  {
    if a == [] {
      assert a + b == b;
    } else {
      assert (a + b)[1..] == a[1..] + b && (a + b)[0] == a[0];
      ValidNamesAppend(a[1..], b);
    }
  }

  lemma NamesAppended(entries: seq<ArtifactsObject.ValidArtifacts>, f: Path, names: seq<string>)
    ensures forall n :: n in ArtifactsObject.ValidNames(entries + [ArtifactsObject.ValidArtifacts(f, names)]) <==>
                        n in ArtifactsObject.ValidNames(entries) || exists c: Contract :: c.source == f && c.name in names && n == Fqn(c)
  {
    var last := ArtifactsObject.ValidArtifacts(f, names);
    ValidNamesAppend(entries, [last]);
    var of := ArtifactsObject.NamesOf(last);
    assert [last][1..] == [] && ArtifactsObject.ValidNames([last]) == of + [];
    forall n
      ensures n in of <==> exists c: Contract :: c.source == f && c.name in names && n == Fqn(c)
    {
      if n in of {
        var i :| 0 <= i < |of| && of[i] == n;
        assert n == Fqn(Contract(f, names[i]));
      }
      if c: Contract :| c.source == f && c.name in names && n == Fqn(c) {
        var i :| 0 <= i < |names| && names[i] == c.name;
        assert of[i] == n;
      }
    }
  }

  lemma NamedValid(valid: seq<ArtifactsObject.ValidArtifacts>, entries: seq<ArtifactsObject.ValidArtifacts>, t: State)
    requires NamesAgree(valid, t.named) && NamesProper(t.cache)
    requires forall n :: n in ArtifactsObject.ValidNames(entries) <==> exists c :: c in NamesIn(t.cache) && n == Fqn(c)
    ensures NamesAgree(valid + entries, NameValid(t).named)
  {
    ValidNamesAppend(valid, entries);
    hide ArtifactsObject.ValidNames, Fqn, NamesIn, Proper;
  }

  // ----- the tasks -----

  /** `TASK_COMPILE_SOLIDITY`, from the cache as read to naming its entries valid. */
  method CompileSolidity(
    env: Env, p: Project, resolvedFiles: seq<Path>, cache: SolidityFilesCache,
    artifacts: ArtifactsObject.Artifacts, info: BuildInfoOf, ghost s: State)
    requires Compilable(p) && p.graph == SetOf(resolvedFiles) && EmitsProper(env) && Represents(cache, artifacts, s)
    modifies cache, artifacts`disk, artifacts`cache, artifacts`validArtifacts
    ensures Represents(cache, artifacts, NameValid(Compiled(env, s, p)))
    ensures old(artifacts.disk).Keys <= artifacts.disk.Keys
  {
    cache.files := map f | f in cache.files && f in p.contents :: cache.files[f];
    FewerAreProper(s.cache, p.contents);
    InvalidateAgrees(artifacts.disk, s.disk, cache.files, p.graph);
    InvalidateCacheMissingArtifacts(cache, artifacts, resolvedFiles);
    assert cache.files == Invalidated(s, p);
    assert NamesProper(cache.files) by { LessIsProper(RemoveNonExistingFiles(s.cache, p.contents), cache.files); }
    ghost var start := s.(cache := Invalidated(s, p));
    assert Represents(cache, artifacts, start);
    hide Holds, Tidy, NamesProper, NamesAgree, EmitsProper, Invalidated, Represents;
    var needed := FilterJobs(env, p, cache);
    assert needed == NeededJobs(env, s, p) && Readable(p.contents, needed);
    MergedReadable(env, p.contents, needed);
    var merged := MergeCompilationJobs(env, needed);
    CompileNeeded(env, p.contents, merged, cache, artifacts, info, start);
    NameEntries(cache, artifacts, Compiled(env, s, p));
  }

  method NameEntries(cache: SolidityFilesCache, artifacts: ArtifactsObject.Artifacts, ghost t: State)
    requires Represents(cache, artifacts, t)
    modifies artifacts`validArtifacts
    ensures Represents(cache, artifacts, NameValid(t))
  {
    var entries := GetEntries(cache.files);
    NamedValid(artifacts.validArtifacts, entries, t);
    hide Holds, Tidy, NamesProper, NamesAgree, ArtifactsObject.ValidNames, Fqn;
    artifacts.AddValidArtifacts(entries);
  }

  lemma LessIsProper(cache: Cache, less: Cache)
    requires NamesProper(cache) && forall f <- less :: f in cache && cache[f] == less[f]
    ensures NamesProper(less)
  {
    hide Proper;
    forall c | c in NamesIn(less)
      ensures c in NamesIn(cache)
    {
    }
  }

  lemma FewerAreProper(cache: Cache, contents: Contents)
    requires NamesProper(cache)
    ensures NamesProper(RemoveNonExistingFiles(cache, contents))
  {
    LessIsProper(cache, RemoveNonExistingFiles(cache, contents));
  }

  /** The compile task: compiling, then `removeObsoleteArtifacts`.  `before` is the
      directory between the two, in which nothing has been deleted. */
  method Compile(
    env: Env, p: Project, resolvedFiles: seq<Path>, cache: SolidityFilesCache,
    artifacts: ArtifactsObject.Artifacts, info: BuildInfoOf, ghost s: State)
    returns (completed: bool, ghost before: Directory)
    requires Compilable(p) && p.graph == SetOf(resolvedFiles) && EmitsProper(env) && Represents(cache, artifacts, s)
    modifies cache, artifacts`disk, artifacts`cache, artifacts`validArtifacts
    ensures old(artifacts.disk).Keys <= before.Keys && (!completed ==> artifacts.disk == before)
    ensures var outcome := Run(env, Around(artifacts.fs, before.Keys), s, p);
            && (completed <==> outcome.Completed?)
            && cache.files == outcome.after.cache
            && Holds(artifacts.disk, outcome.after.disk)
            && NamesAgree(artifacts.validArtifacts, outcome.after.named)
  {
    CompileSolidity(env, p, resolvedFiles, cache, artifacts, info, s);
    ghost var t := NameValid(Compiled(env, s, p));
    before := artifacts.disk;
    AllFoundAgrees(artifacts.fs, before, t, artifacts.validArtifacts);
    CleanedAgrees(before, t, artifacts.validArtifacts);
    hide Holds, NamesAgree, NamesProper, Tidy, Compiled, Sweep, NamesIn, SetOf;
    hide ArtifactsObject.AllFound, ArtifactsObject.ValidNames, ArtifactsObject.ValidPaths, SolidityRuns.AllFound;
    completed := artifacts.RemoveObsoleteArtifacts();
  }
}
