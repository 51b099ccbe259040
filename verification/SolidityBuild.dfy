/** The Solidity compile task: which jobs are skipped, and why what it leaves is
    what a build from scratch would leave. */
module SolidityBuildSpec {
  import opened Prelude

  /** Files are known by their source names. */
  type Path = string
  type Contents = map<Path, string>

  /** A compiler configuration, compared by value (`lodash.isequal`). */
  type Config = string

  /** Contract name to artifact, for one source file. */
  type Emitted = map<string, string>

  /** What surrounds a run: the content hash, the imports of a file (by its
      content alone), what the compiler emits for one file of its input, and the
      configurations whose jobs must not be merged. */
  datatype Env = Env(
    hash: string -> string,
    imports: (Path, string) -> set<Path>,
    compile: (Config, Contents, Path) -> Emitted,
    hasSolc9573Bug: Config -> bool)

  /** One entry of the solidity files cache; `artifacts` are the names emitted. */
  datatype Entry = Entry(contentHash: string, solcConfig: Config, artifacts: set<string>)

  type Cache = map<Path, Entry>

  /** The artifacts directory: source file to the artifacts stored for it. */
  type Disk = map<Path, Emitted>

  datatype JobFile = JobFile(path: Path, emits: bool)

  datatype Job = Job(solcConfig: Config, files: seq<JobFile>)

  /** What one run finds: all files on disk with their contents, those in the
      dependency graph, the jobs made from it, and the `force` flag. */
  datatype Project = Project(contents: Contents, graph: set<Path>, jobs: seq<Job>, force: bool)

  datatype Contract = Contract(source: Path, name: string)

  /** `named` is what this process has named valid so far: `addValidArtifacts` only
      ever appends. */
  datatype State = State(cache: Cache, disk: Disk, named: set<Contract>)

  function Dir(disk: Disk, f: Path): Emitted {
    if f in disk then disk[f] else map[]
  }

  ghost predicate CollisionFree(env: Env) {
    forall a, b :: env.hash(a) == env.hash(b) ==> a == b
  }

  ghost predicate Closed(env: Env, s: Contents, k: set<Path>) {
    k <= s.Keys && forall g <- k :: env.imports(g, s[g]) <= k
  }

  /** `f` and everything it imports, directly or not, is the same in `s` and `t`. */
  ghost predicate SameClosure(env: Env, s: Contents, t: Contents, f: Path) {
    exists k: set<Path> :: Agree(env, s, t, f, k)
  }

  ghost predicate Agree(env: Env, s: Contents, t: Contents, f: Path, k: set<Path>) {
    f in k && Closed(env, s, k) && k <= t.Keys && forall g <- k :: s[g] == t[g]
  }

  /** What the compiler emits for a file depends on that file and its imports only. */
  ghost predicate LocalCompiler(env: Env) {
    forall config: Config, s: Contents, t: Contents, f: Path ::
      SameClosure(env, s, t, f) ==> env.compile(config, s, f) == env.compile(config, t, f)
  }

  function Paths(job: Job): set<Path> {
    set i | 0 <= i < |job.files| :: job.files[i].path
  }

  ghost predicate Emits(job: Job, f: Path) {
    exists i :: 0 <= i < |job.files| && job.files[i] == JobFile(f, true)
  }

  /** A job lists graph files without repetition and is closed under imports. */
  ghost predicate JobOk(env: Env, p: Project, job: Job) {
    && Paths(job) <= p.graph
    && Closed(env, p.contents, Paths(job))
    && forall i, j :: 0 <= i < j < |job.files| ==> job.files[i].path != job.files[j].path
  }

  /** The graph is on disk, and each of its files is emitted by exactly one job. */
  ghost predicate ProjectOk(env: Env, p: Project) {
    && p.graph <= p.contents.Keys
    && (forall job <- p.jobs :: JobOk(env, p, job))
    && (forall f <- p.graph :: exists i :: 0 <= i < |p.jobs| && Emits(p.jobs[i], f))
    && (forall i, j :: 0 <= i < j < |p.jobs| ==> forall f :: !(Emits(p.jobs[i], f) && Emits(p.jobs[j], f)))
  }

  /** The files of every job can be read. */
  ghost predicate Compilable(p: Project) {
    forall job <- p.jobs :: Paths(job) <= p.contents.Keys
  }

  lemma ProjectCompiles(env: Env, p: Project)
    requires ProjectOk(env, p)
    ensures Compilable(p)
  {
    assert forall job <- p.jobs :: JobOk(env, p, job);
  }

  // ----- the stages of a run -----

  ghost function RemoveNonExistingFiles(cache: Cache, contents: Contents): Cache {
    map f | f in cache && f in contents :: cache[f]
  }

  ghost predicate Missing(entry: Entry, disk: Disk, f: Path) {
    exists n :: n in entry.artifacts && n !in Dir(disk, f)
  }

  ghost function Invalidate(cache: Cache, disk: Disk, graph: set<Path>): Cache {
    map f | f in cache && !(f in graph && Missing(cache[f], disk, f)) :: cache[f]
  }

  function HasFileChanged(cache: Cache, f: Path, contentHash: string, config: Option<Config>): bool {
    f !in cache || cache[f].contentHash != contentHash ||
    (config.Some? && cache[f].solcConfig != config.value)
  }

  /** Does the file at place `i` of the job force it to be compiled? */
  function FileForces(env: Env, contents: Contents, cache: Cache, job: Job, i: nat): bool
    requires i < |job.files| && job.files[i].path in contents
  {
    var file := job.files[i];
    HasFileChanged(cache, file.path, env.hash(contents[file.path]), if file.emits then Some(job.solcConfig) else None)
  }

  ghost predicate NeedsCompilation(env: Env, contents: Contents, cache: Cache, job: Job)
    requires Paths(job) <= contents.Keys
  {
    exists i :: 0 <= i < |job.files| && FileForces(env, contents, cache, job, i)
  }

  /** The input of the compiler: the files of the job. */
  function Sources(contents: Contents, job: Job): Contents
    requires Paths(job) <= contents.Keys
  {
    map f | f in Paths(job) :: contents[f]
  }

  /** The compiler is given the present contents of exactly the files of the job. */
  lemma SourcesAre(contents: Contents, job: Job)
    requires Paths(job) <= contents.Keys
    ensures Sources(contents, job).Keys == Paths(job)
    ensures forall file <- job.files :: file.path in Sources(contents, job) && Sources(contents, job)[file.path] == contents[file.path]
  {
    assert forall file <- job.files :: file.path in Paths(job);
  }

  function EntryFor(env: Env, contents: Contents, job: Job, f: Path): Entry
    requires Paths(job) <= contents.Keys && f in contents
  {
    Entry(env.hash(contents[f]), job.solcConfig, env.compile(job.solcConfig, Sources(contents, job), f).Keys)
  }

  /** Saving the artifacts of one file and recording it in the cache, if it emits. */
  function RecordFile(env: Env, contents: Contents, job: Job, file: JobFile, s: State): (t: State)
    requires Paths(job) <= contents.Keys && file.path in contents
    ensures t.named == s.named
  {
    if !file.emits then s
    else
      var out := env.compile(job.solcConfig, Sources(contents, job), file.path);
      s.(cache := s.cache[file.path := EntryFor(env, contents, job, file.path)],
         disk := s.disk[file.path := Dir(s.disk, file.path) + out])
  }

  function RecordFiles(env: Env, contents: Contents, job: Job, k: nat, s: State): (t: State)
    requires Paths(job) <= contents.Keys && k <= |job.files|
    ensures t.named == s.named
  {
    if k == 0 then s
    else
      assert job.files[k - 1].path in Paths(job);
      RecordFile(env, contents, job, job.files[k - 1], RecordFiles(env, contents, job, k - 1, s))
  }

  function CompileJob(env: Env, contents: Contents, job: Job, s: State): (t: State)
    requires Paths(job) <= contents.Keys
    ensures t.named == s.named
  {
    RecordFiles(env, contents, job, |job.files|, s)
  }

  ghost function MaybeCompile(env: Env, p: Project, cache: Cache, job: Job, s: State): (t: State)
    requires Paths(job) <= p.contents.Keys
    ensures t.named == s.named
  {
    if p.force || NeedsCompilation(env, p.contents, cache, job) then CompileJob(env, p.contents, job, s) else s
  }

  /** The jobs `p.jobs[..k]`, skipping those that need no compilation. */
  ghost function CompileJobs(env: Env, p: Project, cache: Cache, k: nat, s: State): (t: State)
    requires k <= |p.jobs| && Compilable(p)
    ensures t.named == s.named
  {
    if k == 0 then s
    else
      MaybeCompile(env, p, cache, p.jobs[k - 1], CompileJobs(env, p, cache, k - 1, s))
  }

  function Named(dir: Emitted, names: set<string>): Emitted {
    map n | n in dir && n in names :: dir[n]
  }

  /** The artifacts that the cache entries name. */
  function NamesIn(cache: Cache): set<Contract> {
    set f, n | f in cache && n in cache[f].artifacts :: Contract(f, n)
  }

  function NamesOf(named: set<Contract>, f: Path): set<string> {
    set c | c in named && c.source == f :: c.name
  }

  function SourcesOf(named: set<Contract>): set<Path> {
    set c | c in named :: c.source
  }

  /** `addValidArtifacts` with the entries of the cache. */
  function NameValid(t: State): State {
    t.(named := t.named + NamesIn(t.cache))
  }

  /** What `removeObsoleteArtifacts` leaves when it completes. */
  function Sweep(t: State): Disk {
    map f | f in t.cache.Keys + SourcesOf(t.named) :: Named(Dir(t.disk, f), NamesOf(t.named, f))
  }

  function Swept(t: State): State {
    NameValid(t).(disk := Sweep(NameValid(t)))
  }

  /** What a completed run of the compile task leaves, compiling job by job. */
  ghost function Build(env: Env, s: State, p: Project): State
    requires Compilable(p)
  {
    Swept(BeforeSweep(env, s, p))
  }

  /** What the jobs of a run leave, before obsolete artifacts are removed. */
  ghost function BeforeSweep(env: Env, s: State, p: Project): (t: State)
    requires Compilable(p)
    ensures t.named == s.named
  {
    var cache := Invalidated(s, p);
    CompileJobs(env, p, cache, |p.jobs|, s.(cache := cache))
  }

  ghost function Invalidated(s: State, p: Project): Cache {
    Invalidate(RemoveNonExistingFiles(s.cache, p.contents), s.disk, p.graph)
  }

  // ----- what a build from scratch leaves -----

  ghost function Emitter(env: Env, p: Project, f: Path): (i: nat)
    requires ProjectOk(env, p) && f in p.graph
    ensures i < |p.jobs| && Emits(p.jobs[i], f)
  {
    var i :| 0 <= i < |p.jobs| && Emits(p.jobs[i], f); i
  }

  ghost function ConfigFor(env: Env, p: Project, f: Path): Config
    requires ProjectOk(env, p) && f in p.graph
  {
    p.jobs[Emitter(env, p, f)].solcConfig
  }

  ghost function CleanCache(env: Env, p: Project): Cache
    requires ProjectOk(env, p)
  {
    map f | f in p.graph ::
      Entry(env.hash(p.contents[f]), ConfigFor(env, p, f), env.compile(ConfigFor(env, p, f), p.contents, f).Keys)
  }

  /** Every graph file compiled from its current contents, and nothing else, by a
      process that has named nothing else valid. */
  ghost function Clean(env: Env, p: Project): State
    requires ProjectOk(env, p)
  {
    State(
      CleanCache(env, p),
      map f | f in p.graph :: env.compile(ConfigFor(env, p, f), p.contents, f),
      NamesIn(CleanCache(env, p)))
  }

  /** Every cache entry describes what its file and its imports compiled to when
      the contents were `c`; stored artifacts it names are those, unless lost. */
  ghost predicate Fresh(env: Env, s: State, c: Contents) {
    forall f <- s.cache :: FreshEntry(env, s, c, f)
  }

  ghost predicate FreshEntry(env: Env, s: State, c: Contents, f: Path)
    requires f in s.cache
  {
    && f in c && s.cache[f].contentHash == env.hash(c[f])
    && var out := env.compile(s.cache[f].solcConfig, c, f);
       s.cache[f].artifacts == out.Keys &&
       forall n <- out :: n in Dir(s.disk, f) ==> s.disk[f][n] == out[n]
  }

  // ----- skipping is sound -----

  lemma PathIsListed(job: Job, i: nat)
    requires i < |job.files|
    ensures job.files[i].path in Paths(job)
  {
  }

  /** Compiling a job is compiling each of its files among all contents. */
  lemma JobIsLocal(env: Env, p: Project, job: Job, f: Path)
    requires LocalCompiler(env) && JobOk(env, p, job) && p.graph <= p.contents.Keys && f in Paths(job)
    ensures env.compile(job.solcConfig, Sources(p.contents, job), f) == env.compile(job.solcConfig, p.contents, f)
  {
    assert Agree(env, p.contents, Sources(p.contents, job), f, Paths(job));
    assert SameClosure(env, p.contents, Sources(p.contents, job), f);
  }

  /** A skipped job emits nothing new: its files are as they were when cached. */
  lemma SkippedIsFresh(env: Env, s: State, c: Contents, p: Project, cache: Cache, job: Job, f: Path)
    requires LocalCompiler(env) && CollisionFree(env) && Fresh(env, s, c)
    requires p.graph <= p.contents.Keys && JobOk(env, p, job) && Emits(job, f)
    requires cache == Invalidate(RemoveNonExistingFiles(s.cache, p.contents), s.disk, p.graph)
    requires !NeedsCompilation(env, p.contents, cache, job)
    ensures f in cache && cache[f] == EntryFor(env, p.contents, job, f)
    ensures var out := env.compile(job.solcConfig, p.contents, f);
            cache[f].artifacts == out.Keys && forall n <- out :: n in Dir(s.disk, f) && s.disk[f][n] == out[n]
  {
    var k := Paths(job);
    forall g | g in k
      ensures g in cache && g in c && c[g] == p.contents[g]
    {
      var i :| 0 <= i < |job.files| && job.files[i].path == g;
      assert !FileForces(env, p.contents, cache, job, i);
      assert FreshEntry(env, s, c, g);
    }
    var i :| 0 <= i < |job.files| && job.files[i] == JobFile(f, true);
    assert !FileForces(env, p.contents, cache, job, i);
    PathIsListed(job, i);
    assert Agree(env, p.contents, c, f, k);
    assert SameClosure(env, p.contents, c, f);
    assert FreshEntry(env, s, c, f);
    JobIsLocal(env, p, job, f);
    assert !Missing(cache[f], s.disk, f);
  }

  // ----- what the stages do to one file -----

  ghost predicate SameAt(s: State, t: State, f: Path) {
    && (f in s.cache <==> f in t.cache)
    && (f in s.cache ==> s.cache[f] == t.cache[f])
    && Dir(s.disk, f) == Dir(t.disk, f)
  }

  /** `job` has emitted `f`: its artifacts were added to those of `s`. */
  ghost predicate Done(env: Env, contents: Contents, job: Job, s: State, t: State, f: Path)
    requires Paths(job) <= contents.Keys && f in contents
  {
    && f in t.cache && t.cache[f] == EntryFor(env, contents, job, f)
    && Dir(t.disk, f) == Dir(s.disk, f) + env.compile(job.solcConfig, Sources(contents, job), f)
  }

  lemma RecordFileAt(env: Env, contents: Contents, job: Job, file: JobFile, s: State, f: Path)
    requires Paths(job) <= contents.Keys && file.path in contents && f in contents
    ensures var t := RecordFile(env, contents, job, file, s);
            if file == JobFile(f, true) then Done(env, contents, job, s, t, f)
            else SameAt(s, t, f)
  {
  }

  lemma {:induction false} RecordFilesAt(env: Env, contents: Contents, job: Job, k: nat, s: State, f: Path)
    requires Paths(job) <= contents.Keys && k <= |job.files| && f in contents
    ensures var t := RecordFiles(env, contents, job, k, s);
            if exists i :: 0 <= i < k && job.files[i] == JobFile(f, true) then Done(env, contents, job, s, t, f)
            else SameAt(s, t, f)
  {
    if k > 0 {
      PathIsListed(job, k - 1);
      var before := RecordFiles(env, contents, job, k - 1, s);
      var t := RecordFiles(env, contents, job, k, s);
      RecordFilesAt(env, contents, job, k - 1, s, f);
      RecordFileAt(env, contents, job, job.files[k - 1], before, f);
      hide Done, SameAt, RecordFile;
      InTurn(env, contents, job, s, before, t, f);
    } else {
      InTurn(env, contents, job, s, s, s, f);
    }
  }

  lemma MaybeCompileAt(env: Env, p: Project, cache: Cache, job: Job, s: State, f: Path)
    requires Paths(job) <= p.contents.Keys && f in p.contents
    ensures var t := MaybeCompile(env, p, cache, job, s);
            if Emits(job, f) && (p.force || NeedsCompilation(env, p.contents, cache, job))
            then Done(env, p.contents, job, s, t, f)
            else SameAt(s, t, f)
  {
    RecordFilesAt(env, p.contents, job, |job.files|, s, f);
  }

  /** Leaving alone and emitting, one after the other; emitting twice is emitting once. */
  lemma InTurn(env: Env, contents: Contents, job: Job, r: State, s: State, t: State, f: Path)
    requires Paths(job) <= contents.Keys && f in contents
    ensures Done(env, contents, job, r, s, f) && SameAt(s, t, f) ==> Done(env, contents, job, r, t, f)
    ensures SameAt(r, s, f) && Done(env, contents, job, s, t, f) ==> Done(env, contents, job, r, t, f)
    ensures Done(env, contents, job, r, s, f) && Done(env, contents, job, s, t, f) ==> Done(env, contents, job, r, t, f)
    ensures SameAt(r, s, f) && SameAt(s, t, f) ==> SameAt(r, t, f)
    ensures SameAt(r, r, f)
  {
    var out := env.compile(job.solcConfig, Sources(contents, job), f);
    assert Dir(r.disk, f) + out + out == Dir(r.disk, f) + out;
  }

  lemma OneEmitter(env: Env, p: Project, i: nat, e: nat, f: Path)
    requires ProjectOk(env, p) && i < |p.jobs| && e < |p.jobs| && Emits(p.jobs[e], f)
    ensures Emits(p.jobs[i], f) <==> i == e
  {
  }

  /** The run so far has emitted `f` if its job came up and was needed; otherwise
      it has left `f` alone. */
  lemma {:induction false} CompileJobsAt(env: Env, p: Project, cache: Cache, k: nat, s: State, f: Path, e: nat)
    requires ProjectOk(env, p) && f in p.graph && e < |p.jobs| && Emits(p.jobs[e], f)
    requires k <= |p.jobs| && Compilable(p)
    ensures var t := CompileJobs(env, p, cache, k, s);
            if e < k && (p.force || NeedsCompilation(env, p.contents, cache, p.jobs[e]))
            then Done(env, p.contents, p.jobs[e], s, t, f)
            else SameAt(s, t, f)
  {
    if k == 0 {
      InTurn(env, p.contents, p.jobs[e], s, s, s, f);
    } else {
      var before, t := CompileJobs(env, p, cache, k - 1, s), CompileJobs(env, p, cache, k, s);
      var job := p.jobs[k - 1];
      OneEmitter(env, p, k - 1, e, f);
      assert t == MaybeCompile(env, p, cache, job, before);
      hide CompileJobs, MaybeCompile, NeedsCompilation, Done, SameAt, Emits, ProjectOk;
      CompileJobsAt(env, p, cache, k - 1, s, f, e);
      MaybeCompileAt(env, p, cache, job, before, f);
      InTurn(env, p.contents, p.jobs[e], s, before, t, f);
    }
  }

  /** Files outside the graph are never touched. */
  lemma {:induction false} CompileJobsOutside(env: Env, p: Project, cache: Cache, k: nat, s: State)
    requires ProjectOk(env, p) && k <= |p.jobs| && Compilable(p)
    ensures CompileJobs(env, p, cache, k, s).cache.Keys <= s.cache.Keys + p.graph
  {
    if k > 0 {
      CompileJobsOutside(env, p, cache, k - 1, s);
      var job := p.jobs[k - 1];
      assert job in p.jobs && JobOk(env, p, job);
      RecordFilesOutside(env, p.contents, job, |job.files|, CompileJobs(env, p, cache, k - 1, s));
    }
  }

  lemma {:induction false} RecordFilesOutside(env: Env, contents: Contents, job: Job, k: nat, s: State)
    requires Paths(job) <= contents.Keys && k <= |job.files|
    ensures RecordFiles(env, contents, job, k, s).cache.Keys <= s.cache.Keys + Paths(job)
  {
    if k > 0 {
      PathIsListed(job, k - 1);
      RecordFilesOutside(env, contents, job, k - 1, s);
    }
  }

  /** After all jobs a graph file has the entry of a clean build, and its artifacts
      were added to those stored. */
  lemma FileIsClean(env: Env, s: State, c: Contents, p: Project, f: Path)
    requires LocalCompiler(env) && CollisionFree(env) && Fresh(env, s, c) && ProjectOk(env, p) && f in p.graph
    ensures Compilable(p)
    ensures var t := BeforeSweep(env, s, p);
            && f in t.cache && t.cache[f] == Clean(env, p).cache[f]
            && Dir(t.disk, f) == Dir(s.disk, f) + Clean(env, p).disk[f]
  {
    ProjectCompiles(env, p);
    var cache := Invalidated(s, p);
    var e := Emitter(env, p, f);
    var job := p.jobs[e];
    CompileJobsAt(env, p, cache, |p.jobs|, s.(cache := cache), f, e);
    EmittedIsListed(job, f);
    JobIsLocal(env, p, job, f);
    if !p.force && !NeedsCompilation(env, p.contents, cache, job) {
      SkippedIsFresh(env, s, c, p, cache, job, f);
      SameMap(Dir(s.disk, f) + env.compile(job.solcConfig, p.contents, f), Dir(s.disk, f));
    }
  }

  lemma EmittedIsListed(job: Job, f: Path)
    requires Emits(job, f)
    ensures f in Paths(job)
  {
  }

  /** What the clean-up leaves of one file. */
  lemma SweptAt(t: State, f: Path)
    ensures Dir(Swept(t).disk, f) == Named(Dir(t.disk, f), NamesOf(t.named, f) + if f in t.cache then t.cache[f].artifacts else {})
  {
    var u := NameValid(t);
    NamesAt(t.cache, f);
    assert NamesOf(u.named, f) == NamesOf(t.named, f) + NamesOf(NamesIn(t.cache), f);
    if f !in t.cache.Keys + SourcesOf(u.named) {
      assert NamesOf(u.named, f) == {};
    }
  }

  lemma NamesAt(cache: Cache, f: Path)
    ensures NamesOf(NamesIn(cache), f) == if f in cache then cache[f].artifacts else {}
  {
    if f in cache {
      forall n | n in cache[f].artifacts
        ensures n in NamesOf(NamesIn(cache), f)
      {
        assert Contract(f, n) in NamesIn(cache);
      }
    }
  }

  /** No artifact that the process has named before is left of `f` beyond those of `clean`. */
  ghost predicate NothingLeftOver(s: State, clean: State, f: Path) {
    forall n <- NamesOf(s.named, f) :: n in Dir(s.disk, f) ==> n in Dir(clean.disk, f)
  }

  lemma AddedIsClean(stored: Emitted, out: Emitted, earlier: set<string>)
    ensures Named(stored + out, earlier + out.Keys) == out <==> forall n <- earlier :: n in stored ==> n in out
    ensures forall n <- out :: n in Named(stored + out, earlier + out.Keys) && Named(stored + out, earlier + out.Keys)[n] == out[n]
  {
    var left := Named(stored + out, earlier + out.Keys);
    assert left.Keys == (stored.Keys + out.Keys) * (earlier + out.Keys);
    if forall n <- earlier :: n in stored ==> n in out {
      SameMap(left, out);
    } else {
      var n :| n in earlier && n in stored && n !in out;
      assert n in left;
    }
  }

  /** Skipping jobs changes nothing: with any cache the earlier runs have left fresh, a
      graph file ends up with the entry and the artifacts of a build from scratch, and
      with no others exactly if nothing that was named before is left over. */
  lemma GraphFileIsClean(env: Env, s: State, c: Contents, p: Project, f: Path)
    requires LocalCompiler(env) && CollisionFree(env) && Fresh(env, s, c) && ProjectOk(env, p) && f in p.graph
    ensures Compilable(p)
    ensures var b, clean := Build(env, s, p), Clean(env, p);
            && f in b.cache && b.cache[f] == clean.cache[f]
            && (forall n <- clean.disk[f] :: n in Dir(b.disk, f) && b.disk[f][n] == clean.disk[f][n])
            && (Dir(b.disk, f) == clean.disk[f] <==> NothingLeftOver(s, clean, f))
  {
    FileIsClean(env, s, c, p, f);
    SweptAt(BeforeSweep(env, s, p), f);
    AddedIsClean(Dir(s.disk, f), Clean(env, p).disk[f], NamesOf(s.named, f));
  }

  /** The graph file `f` ends up as after a build from scratch. */
  ghost predicate EndsClean(env: Env, s: State, p: Project, f: Path)
    requires ProjectOk(env, p) && Compilable(p) && f in p.graph
  {
    var b, clean := Build(env, s, p), Clean(env, p);
    && f in b.cache && b.cache[f] == clean.cache[f]
    && Dir(b.disk, f) == clean.disk[f]
  }

  /** What is stored for `f` is already what a build from scratch would store. */
  ghost predicate StoredClean(env: Env, s: State, p: Project, f: Path)
    requires ProjectOk(env, p) && f in p.graph
  {
    var clean := Clean(env, p);
    f in s.cache && s.cache[f] == clean.cache[f] && Named(Dir(s.disk, f), s.cache[f].artifacts) == clean.disk[f]
  }

  lemma InvalidatedAt(env: Env, s: State, p: Project, f: Path)
    requires ProjectOk(env, p) && f in p.graph
    ensures f in Invalidated(s, p) <==> f in s.cache && !Missing(s.cache[f], s.disk, f)
    ensures f in Invalidated(s, p) ==> Invalidated(s, p)[f] == s.cache[f]
    ensures StoredClean(env, s, p, f) ==> f in Invalidated(s, p)
  {
    assert f in p.contents;
  }

  lemma StoredOrLeftOver(stored: Emitted, out: Emitted, earlier: set<string>)
    ensures Named(stored, earlier + out.Keys) == out <==>
            Named(stored, out.Keys) == out && forall n <- earlier :: n in stored ==> n in out
  {
    var left, own := Named(stored, earlier + out.Keys), Named(stored, out.Keys);
    assert left.Keys == stored.Keys * (earlier + out.Keys) && own.Keys == stored.Keys * out.Keys;
    if left == out {
      SameMap(own, out);
      assert forall n <- earlier :: n in stored ==> n in left;
    }
    if own == out && forall n <- earlier :: n in stored ==> n in out {
      SameMap(left, out);
    }
  }

  lemma UntouchedEndsCleanExactly(env: Env, s: State, p: Project, f: Path)
    requires ProjectOk(env, p) && Compilable(p) && f in p.graph
    requires SameAt(s.(cache := Invalidated(s, p)), BeforeSweep(env, s, p), f)
    ensures EndsClean(env, s, p, f) <==> StoredClean(env, s, p, f) && NothingLeftOver(s, Clean(env, p), f)
  {
    InvalidatedAt(env, s, p, f);
    var t := BeforeSweep(env, s, p);
    assert Build(env, s, p) == Swept(t);
    SweptAt(t, f);
    var out := Clean(env, p).disk[f];
    assert Clean(env, p).cache[f].artifacts == out.Keys && Dir(Clean(env, p).disk, f) == out;
    StoredOrLeftOver(Dir(s.disk, f), out, NamesOf(s.named, f));
    hide BeforeSweep, Invalidated, ProjectOk, Clean, Missing, Build, Swept, Named, NamesOf;
  }

  /** For any cache, fresh or not: a graph file ends up as after a build from scratch
      if and only if the run is forced, or its job needs compilation, or what is
      stored for it is so already, and nothing named before is left over. */
  lemma EndsCleanExactly(env: Env, s: State, p: Project, f: Path)
    requires LocalCompiler(env) && ProjectOk(env, p) && f in p.graph
    ensures Compilable(p)
    ensures EndsClean(env, s, p, f) <==>
            && (p.force || NeedsCompilation(env, p.contents, Invalidated(s, p), p.jobs[Emitter(env, p, f)]) || StoredClean(env, s, p, f))
            && NothingLeftOver(s, Clean(env, p), f)
  {
    ProjectCompiles(env, p);
    var e := Emitter(env, p, f);
    var job := p.jobs[e];
    CompileJobsAt(env, p, Invalidated(s, p), |p.jobs|, s.(cache := Invalidated(s, p)), f, e);
    if p.force || NeedsCompilation(env, p.contents, Invalidated(s, p), job) {
      DoneEndsClean(env, s, p, f);
    } else {
      UntouchedEndsCleanExactly(env, s, p, f);
    }
  }

  lemma DoneEndsClean(env: Env, s: State, p: Project, f: Path)
    requires LocalCompiler(env) && ProjectOk(env, p) && f in p.graph && Compilable(p)
    requires var job := p.jobs[Emitter(env, p, f)];
             Paths(job) <= p.contents.Keys && Done(env, p.contents, job, s, BeforeSweep(env, s, p), f)
    ensures EndsClean(env, s, p, f) <==> NothingLeftOver(s, Clean(env, p), f)
  {
    var job := p.jobs[Emitter(env, p, f)];
    EmittedIsListed(job, f);
    JobIsLocal(env, p, job, f);
    SweptAt(BeforeSweep(env, s, p), f);
    AddedIsClean(Dir(s.disk, f), Clean(env, p).disk[f], NamesOf(s.named, f));
  }

  lemma OnlyGraphIsLeft(env: Env, s: State, p: Project)
    requires ProjectOk(env, p) && s.cache.Keys * p.contents.Keys <= p.graph
    ensures Compilable(p)
    ensures BeforeSweep(env, s, p).cache.Keys <= p.graph
  {
    ProjectCompiles(env, p);
    CompileJobsOutside(env, p, Invalidated(s, p), |p.jobs|, s.(cache := Invalidated(s, p)));
  }

  /** If every cached file still on disk is in the dependency graph, the cache of a
      build from scratch is left. */
  lemma CacheIsClean(env: Env, s: State, c: Contents, p: Project)
    requires LocalCompiler(env) && CollisionFree(env) && Fresh(env, s, c) && ProjectOk(env, p)
    requires s.cache.Keys * p.contents.Keys <= p.graph
    ensures Compilable(p)
    ensures BeforeSweep(env, s, p).cache == Clean(env, p).cache
  {
    OnlyGraphIsLeft(env, s, p);
    assert Clean(env, p).cache.Keys == p.graph;
    hide *;
    var t := BeforeSweep(env, s, p);
    forall f | f in p.graph
      ensures f in t.cache && t.cache[f] == Clean(env, p).cache[f]
    {
      FileIsClean(env, s, c, p, f);
    }
    SameMap(t.cache, Clean(env, p).cache);
  }

  /** The artifacts left are then those of a build from scratch if and only if nothing
      that this process named before is left over, and everything is as after a build
      from scratch if and only if it has named nothing that is obsolete now. */
  lemma JobByJobIsClean(env: Env, s: State, c: Contents, p: Project)
    requires LocalCompiler(env) && CollisionFree(env) && Fresh(env, s, c) && ProjectOk(env, p)
    requires s.cache.Keys * p.contents.Keys <= p.graph
    ensures Compilable(p)
    ensures Build(env, s, p).cache == Clean(env, p).cache && Build(env, s, p).named == s.named + Clean(env, p).named
    ensures (forall f :: Dir(Build(env, s, p).disk, f) == Dir(Clean(env, p).disk, f)) <==>
            forall x <- s.named :: x.name in Dir(s.disk, x.source) ==> x in Clean(env, p).named
    ensures Build(env, s, p) == Clean(env, p) <==> s.named <= Clean(env, p).named
  {
    CacheIsClean(env, s, c, p);
    BuildShape(env, s, p);
    var b, clean := Build(env, s, p), Clean(env, p);
    hide *;
    forall f
      ensures Dir(b.disk, f) == Dir(clean.disk, f) <==> NothingLeftOver(s, clean, f)
    {
      FileEndsClean(env, s, c, p, f);
    }
    LeftOverByName(env, s, p);
    SameOnceNamed(b, clean, s.named, p.graph);
  }

  lemma BuildShape(env: Env, s: State, p: Project)
    requires ProjectOk(env, p) && Compilable(p)
    requires BeforeSweep(env, s, p).cache == Clean(env, p).cache
    ensures var b, clean := Build(env, s, p), Clean(env, p);
            && b.cache == clean.cache && b.named == s.named + clean.named
            && b.disk.Keys == p.graph + SourcesOf(b.named) && clean.disk.Keys == p.graph
            && SourcesOf(clean.named) <= p.graph
  {
    var clean, t := Clean(env, p), BeforeSweep(env, s, p);
    assert clean.cache.Keys == p.graph && clean.named == NamesIn(clean.cache) && clean.disk.Keys == p.graph;
    assert Build(env, s, p) == Swept(t);
    hide BeforeSweep, ProjectOk, Clean, Build, NamesIn;
    assert SourcesOf(clean.named) <= p.graph by { NamedAreCached(clean.cache); }
  }

  lemma NamedAreCached(cache: Cache)
    ensures SourcesOf(NamesIn(cache)) <= cache.Keys
  {
  }

  lemma SameOnceNamed(b: State, clean: State, earlier: set<Contract>, graph: set<Path>)
    requires b.cache == clean.cache && b.named == earlier + clean.named
    requires b.disk.Keys == graph + SourcesOf(b.named) && clean.disk.Keys == graph && SourcesOf(clean.named) <= graph
    requires earlier <= clean.named ==> forall f :: Dir(b.disk, f) == Dir(clean.disk, f)
    ensures b == clean <==> earlier <= clean.named
  {
    if earlier <= clean.named {
      assert b.named == clean.named && b.disk.Keys == graph;
      hide SourcesOf;
      forall f | f in graph
        ensures b.disk[f] == clean.disk[f]
      {
        DirIs(b.disk, f);
        DirIs(clean.disk, f);
      }
      SameMap(b.disk, clean.disk);
    }
  }

  lemma DirIs(disk: Disk, f: Path)
    ensures f in disk ==> Dir(disk, f) == disk[f]
  {
  }

  lemma CleanNames(env: Env, p: Project, x: Contract)
    requires ProjectOk(env, p)
    ensures x in Clean(env, p).named <==> x.name in Dir(Clean(env, p).disk, x.source)
    ensures x.source in p.graph <==> x.source in Clean(env, p).disk
  {
    var clean := Clean(env, p);
    assert x in clean.named <==> x.source in clean.cache && x.name in clean.cache[x.source].artifacts;
    assert x.source in p.graph ==> clean.cache[x.source].artifacts == clean.disk[x.source].Keys;
  }

  lemma LeftOverByName(env: Env, s: State, p: Project)
    requires ProjectOk(env, p)
    ensures (forall f :: NothingLeftOver(s, Clean(env, p), f)) <==>
            forall x <- s.named :: x.name in Dir(s.disk, x.source) ==> x in Clean(env, p).named
  {
    var clean := Clean(env, p);
    hide Clean, ProjectOk;
    forall x: Contract
      ensures x in clean.named <==> x.name in Dir(clean.disk, x.source)
    {
      CleanNames(env, p, x);
    }
    if forall f :: NothingLeftOver(s, clean, f) {
      forall x | x in s.named && x.name in Dir(s.disk, x.source)
        ensures x in clean.named
      {
        assert x.name in NamesOf(s.named, x.source) && NothingLeftOver(s, clean, x.source);
      }
    }
    if forall x <- s.named :: x.name in Dir(s.disk, x.source) ==> x in clean.named {
      forall f, n | n in NamesOf(s.named, f) && n in Dir(s.disk, f)
        ensures n in Dir(clean.disk, f)
      {
        assert Contract(f, n) in s.named;
      }
    }
  }

  lemma FileEndsClean(env: Env, s: State, c: Contents, p: Project, f: Path)
    requires LocalCompiler(env) && CollisionFree(env) && Fresh(env, s, c) && ProjectOk(env, p)
    requires s.cache.Keys * p.contents.Keys <= p.graph
    ensures Compilable(p)
    ensures Dir(Build(env, s, p).disk, f) == Dir(Clean(env, p).disk, f) <==> NothingLeftOver(s, Clean(env, p), f)
  {
    ProjectCompiles(env, p);
    if f in p.graph {
      GraphFileIsClean(env, s, c, p, f);
    } else {
      OutsideIsKept(env, s, p, f);
      OnlyGraphIsLeft(env, s, p);
      assert Dir(Clean(env, p).disk, f) == map[];
      var left := Named(Dir(s.disk, f), NamesOf(s.named, f));
      assert left.Keys == Dir(s.disk, f).Keys * NamesOf(s.named, f);
      hide Build, BeforeSweep, ProjectOk, Clean, Fresh;
      assert left == map[] <==> left.Keys == {};
    }
  }

  lemma SameMap<K, V>(a: map<K, V>, b: map<K, V>)
    requires a.Keys == b.Keys && forall k <- b :: a[k] == b[k]
    ensures a == b
  {
  }

  /** A file outside the graph keeps its entry while it is on disk, and the artifacts
      named by it or before. */
  lemma OutsideIsKept(env: Env, s: State, p: Project, f: Path)
    requires ProjectOk(env, p) && f !in p.graph
    ensures Compilable(p)
    ensures var b := Build(env, s, p);
            && (f in b.cache <==> f in s.cache && f in p.contents)
            && (f in b.cache ==> b.cache[f] == s.cache[f])
            && Dir(b.disk, f) == Named(Dir(s.disk, f), NamesOf(s.named, f) + if f in b.cache then s.cache[f].artifacts else {})
  {
    ProjectCompiles(env, p);
    OutsideFileIsAsBefore(env, s, p, f);
    SweptAt(BeforeSweep(env, s, p), f);
  }

  lemma OutsideFileIsAsBefore(env: Env, s: State, p: Project, f: Path)
    requires ProjectOk(env, p) && Compilable(p) && f !in p.graph
    ensures var t := BeforeSweep(env, s, p);
            && (f in t.cache <==> f in s.cache && f in p.contents)
            && (f in t.cache ==> t.cache[f] == s.cache[f])
            && Dir(t.disk, f) == Dir(s.disk, f)
  {
    CompileJobsElsewhere(env, p, Invalidated(s, p), |p.jobs|, s.(cache := Invalidated(s, p)), f);
  }

  lemma {:induction false} CompileJobsElsewhere(env: Env, p: Project, cache: Cache, k: nat, s: State, f: Path)
    requires ProjectOk(env, p) && f !in p.graph
    requires k <= |p.jobs| && Compilable(p)
    ensures SameAt(s, CompileJobs(env, p, cache, k, s), f)
  {
    if k > 0 {
      var before, job := CompileJobs(env, p, cache, k - 1, s), p.jobs[k - 1];
      CompileJobsElsewhere(env, p, cache, k - 1, s, f);
      assert job in p.jobs && JobOk(env, p, job);
      RecordFilesElsewhere(env, p.contents, job, |job.files|, before, f);
    }
  }

  lemma {:induction false} RecordFilesElsewhere(env: Env, contents: Contents, job: Job, k: nat, s: State, f: Path)
    requires Paths(job) <= contents.Keys && k <= |job.files| && f !in Paths(job)
    ensures SameAt(s, RecordFiles(env, contents, job, k, s), f)
  {
    if k > 0 {
      PathIsListed(job, k - 1);
      RecordFilesElsewhere(env, contents, job, k - 1, s, f);
    }
  }

  /** Exactly when the next run may trust the cache: every cached file that has
      left the graph must still be fresh for the new contents. */
  lemma StaysFreshExactly(env: Env, s: State, c: Contents, p: Project)
    requires LocalCompiler(env) && CollisionFree(env) && Fresh(env, s, c) && ProjectOk(env, p)
    ensures Compilable(p)
    ensures Fresh(env, Build(env, s, p), p.contents) <==>
            forall f <- s.cache :: f !in p.graph && f in p.contents ==> FreshEntry(env, s, p.contents, f)
  {
    ProjectCompiles(env, p);
    var b := Build(env, s, p);
    hide Build, CompileJobs, ProjectOk;
    forall f | f in p.graph
      ensures f in b.cache && FreshEntry(env, b, p.contents, f)
    {
      GraphFileIsClean(env, s, c, p, f);
    }
    forall f | f !in p.graph
      ensures f in b.cache <==> f in s.cache && f in p.contents
      ensures f in b.cache ==> (FreshEntry(env, b, p.contents, f) <==> FreshEntry(env, s, p.contents, f))
    {
      OutsideIsKept(env, s, p, f);
    }
  }

  /** In particular when no file that has left the graph has changed, itself or in
      what it imports. */
  lemma UnchangedStaysFresh(env: Env, s: State, c: Contents, p: Project)
    requires LocalCompiler(env) && CollisionFree(env) && Fresh(env, s, c) && ProjectOk(env, p)
    requires forall f <- s.cache :: f !in p.graph && f in p.contents ==> SameClosure(env, c, p.contents, f)
    ensures Compilable(p)
    ensures Fresh(env, Build(env, s, p), p.contents)
  {
    StaysFreshExactly(env, s, c, p);
    forall f | f in s.cache && f !in p.graph && f in p.contents
      ensures FreshEntry(env, s, p.contents, f)
    {
      assert FreshEntry(env, s, c, f) && SameClosure(env, c, p.contents, f);
      var k :| Agree(env, c, p.contents, f, k);
      assert c[f] == p.contents[f];
    }
  }

  lemma CleanIsFresh(env: Env, p: Project)
    requires ProjectOk(env, p)
    ensures Fresh(env, Clean(env, p), p.contents)
  {
  }

  // ----- sequences of runs -----

  /** Between runs sources change at will and artifacts may get lost. */
  ghost predicate Lost(before: Disk, after: Disk) {
    forall f, n :: n in Dir(after, f) ==> n in Dir(before, f) && after[f][n] == before[f][n]
  }

  lemma LossKeepsFresh(env: Env, s: State, c: Contents, disk: Disk)
    requires Fresh(env, s, c) && Lost(s.disk, disk)
    ensures Fresh(env, s.(disk := disk), c)
  {
    forall f | f in s.cache
      ensures FreshEntry(env, s.(disk := disk), c, f)
    {
      assert FreshEntry(env, s, c, f);
    }
  }

  // ----- why the cached files must stay in the graph -----

  /** `b` imports `c`, and its artifact `B` holds the content of `c`. */
  const IMPORTING: Env := Env(
    s => s,
    (f, s) => if s == "import c" then {"c"} else {},
    (config, sources: Contents, f) =>
      if f == "b" && "b" in sources && sources["b"] == "import c" && "c" in sources
      then map["B" := sources["c"]] else map[],
    config => false)

  const JOB_B := Job("solc", [JobFile("b", true), JobFile("c", false)])
  const JOB_C := Job("solc", [JobFile("c", true)])

  function Both(c: string): Project {
    Project(map["b" := "import c", "c" := c], {"b", "c"}, [JOB_B, JOB_C], false)
  }

  function OnlyC(c: string): Project {
    Project(map["b" := "import c", "c" := c], {"c"}, [JOB_C], false)
  }

  lemma ImportingEnv()
    ensures CollisionFree(IMPORTING) && LocalCompiler(IMPORTING)
  {
    forall config: Config, s: Contents, t: Contents, f: Path | SameClosure(IMPORTING, s, t, f)
      ensures IMPORTING.compile(config, s, f) == IMPORTING.compile(config, t, f)
    {
      var k :| Agree(IMPORTING, s, t, f, k);
      assert s[f] == t[f];
    }
  }

  lemma JobPaths()
    ensures Paths(JOB_B) == {"b", "c"} && Paths(JOB_C) == {"c"}
    ensures Emits(JOB_B, "b") && !Emits(JOB_B, "c") && Emits(JOB_C, "c")
    ensures forall f :: Emits(JOB_C, f) ==> f == "c"
  {
    PathIsListed(JOB_B, 0);
    PathIsListed(JOB_B, 1);
    PathIsListed(JOB_C, 0);
    assert JOB_B.files[0] == JobFile("b", true) && JOB_C.files[0] == JobFile("c", true);
    assert "b"[0] != "c"[0];
  }

  lemma ImportingProjects(c: string)
    requires c != "import c"
    ensures ProjectOk(IMPORTING, Both(c)) && ProjectOk(IMPORTING, OnlyC(c))
  {
    JobPaths();
    var p, q := Both(c), OnlyC(c);
    assert "b"[0] != "c"[0];
    assert Closed(IMPORTING, p.contents, {"b", "c"});
    assert Closed(IMPORTING, p.contents, {"c"});
    assert Emits(p.jobs[0], "b") && Emits(p.jobs[1], "c") && Emits(q.jobs[0], "c");
    assert JobOk(IMPORTING, p, JOB_B) && JobOk(IMPORTING, p, JOB_C) && JobOk(IMPORTING, q, JOB_C);
  }

  lemma {:induction false} NothingNeeded(env: Env, p: Project, cache: Cache, k: nat, s: State)
    requires k <= |p.jobs| && Compilable(p) && !p.force
    requires forall job <- p.jobs :: !NeedsCompilation(env, p.contents, cache, job)
    ensures CompileJobs(env, p, cache, k, s) == s
  {
    if k > 0 {
      NothingNeeded(env, p, cache, k - 1, s);
    }
  }

  /** What a clean build of `b` and `c` leaves of `b`. */
  lemma CleanBoth(c: string)
    requires c != "import c"
    ensures ProjectOk(IMPORTING, Both(c))
    ensures Clean(IMPORTING, Both(c)).cache["b"] == Entry("import c", "solc", {"B"})
    ensures Clean(IMPORTING, Both(c)).disk["b"] == map["B" := c]
  {
    ImportingProjects(c);
    OneConfig(IMPORTING, Both(c), "b");
    hide ProjectOk, ConfigFor;
    assert "b"[0] != "c"[0];
    assert IMPORTING.compile("solc", Both(c).contents, "b") == map["B" := c];
  }

  lemma CleanC(c: string)
    requires c != "import c"
    ensures ProjectOk(IMPORTING, OnlyC(c))
    ensures Clean(IMPORTING, OnlyC(c)).cache["c"] == Entry(c, "solc", {})
  {
    ImportingProjects(c);
    OneConfig(IMPORTING, OnlyC(c), "c");
    hide ProjectOk, ConfigFor;
    assert "b"[0] != "c"[0];
    assert IMPORTING.compile("solc", OnlyC(c).contents, "c") == map[];
  }

  lemma OneConfig(env: Env, p: Project, f: Path)
    requires ProjectOk(env, p) && f in p.graph && forall i :: 0 <= i < |p.jobs| ==> p.jobs[i].solcConfig == "solc"
    ensures ConfigFor(env, p, f) == "solc"
  {
  }

  /** In the second run `b` is out of the graph and `c` has changed. */
  lemma SecondRunOfC()
    ensures ProjectOk(IMPORTING, Both("1")) && Compilable(OnlyC("2"))
    ensures var s2 := Build(IMPORTING, Clean(IMPORTING, Both("1")), OnlyC("2"));
            "c" in s2.cache && s2.cache["c"] == Entry("2", "solc", {})
  {
    CleanBoth("1");
    CleanC("2");
    ImportingEnv();
    CleanIsFresh(IMPORTING, Both("1"));
    assert "c" in OnlyC("2").graph;
    hide Clean, Build, Fresh, ProjectOk, LocalCompiler, CollisionFree;
    GraphFileIsClean(IMPORTING, Clean(IMPORTING, Both("1")), Both("1").contents, OnlyC("2"), "c");
  }

  lemma SecondRunOfB()
    ensures ProjectOk(IMPORTING, Both("1")) && Compilable(OnlyC("2"))
    ensures var s2 := Build(IMPORTING, Clean(IMPORTING, Both("1")), OnlyC("2"));
            && "b" in s2.cache && s2.cache["b"] == Entry("import c", "solc", {"B"})
            && "B" in Dir(s2.disk, "b") && s2.disk["b"]["B"] == "1"
  {
    CleanBoth("1");
    CleanHasB("1");
    ImportingProjects("1");
    ImportingProjects("2");
    BIsOutside("2");
    hide *;
    ArtifactIsKept(IMPORTING, Clean(IMPORTING, Both("1")), OnlyC("2"), "b", "B");
  }

  lemma BIsOutside(c: string)
    ensures "b" !in OnlyC(c).graph && "b" in OnlyC(c).contents
  {
    assert "b"[0] != "c"[0];
  }

  lemma CleanHasB(c: string)
    requires ProjectOk(IMPORTING, Both(c))
    ensures "b" in Clean(IMPORTING, Both(c)).cache && "b" in Clean(IMPORTING, Both(c)).disk
  {
  }

  lemma ArtifactIsKept(env: Env, s: State, p: Project, f: Path, n: string)
    requires ProjectOk(env, p) && f !in p.graph && f in p.contents
    requires f in s.cache && n in s.cache[f].artifacts && f in s.disk && n in s.disk[f]
    ensures Compilable(p)
    ensures var b := Build(env, s, p);
            f in b.cache && b.cache[f] == s.cache[f] && f in b.disk && n in b.disk[f] && b.disk[f][n] == s.disk[f][n]
  {
    hide Build, NamesOf, ProjectOk, Compilable;
    OutsideIsKept(env, s, p, f);
    assert n in Dir(Build(env, s, p).disk, f);
  }

  /** A cached file that leaves the graph and comes back is skipped although an
      import of it has changed: its artifact stays that of the old import. */
  lemma StaleAfterLeavingTheGraph()
    ensures ProjectOk(IMPORTING, Both("1")) && ProjectOk(IMPORTING, Both("2"))
    ensures Compilable(OnlyC("2")) && Compilable(Both("2"))
    ensures var s2 := Build(IMPORTING, Clean(IMPORTING, Both("1")), OnlyC("2"));
            var s3 := Build(IMPORTING, s2, Both("2"));
            && "b" in s3.disk && "B" in s3.disk["b"] && s3.disk["b"]["B"] == "1"
            && Clean(IMPORTING, Both("2")).disk["b"] == map["B" := "2"]
  {
    SecondRunOfB();
    SecondRunOfC();
    CleanBoth("2");
    var p := Both("2");
    ProjectCompiles(IMPORTING, p);
    var s2 := Build(IMPORTING, Clean(IMPORTING, Both("1")), OnlyC("2"));
    ThirdRun(s2);
  }

  lemma ThirdRun(s2: State)
    requires "b" in s2.cache && s2.cache["b"] == Entry("import c", "solc", {"B"})
    requires "c" in s2.cache && s2.cache["c"] == Entry("2", "solc", {})
    requires "B" in Dir(s2.disk, "b") && s2.disk["b"]["B"] == "1"
    requires Compilable(Both("2"))
    ensures var s3 := Build(IMPORTING, s2, Both("2"));
            "b" in s3.disk && "B" in s3.disk["b"] && s3.disk["b"]["B"] == "1"
  {
    var p := Both("2");
    NothingChanged(s2);
    var cache := Invalidated(s2, p);
    hide NeedsCompilation, Invalidated, Both;
    NothingNeeded(IMPORTING, p, cache, |p.jobs|, s2.(cache := cache));
    assert BeforeSweep(IMPORTING, s2, p) == s2.(cache := cache);
    SweptAt(s2.(cache := cache), "b");
  }

  lemma NothingChanged(s2: State)
    requires "b" in s2.cache && s2.cache["b"] == Entry("import c", "solc", {"B"})
    requires "c" in s2.cache && s2.cache["c"] == Entry("2", "solc", {})
    requires "B" in Dir(s2.disk, "b")
    requires Compilable(Both("2"))
    ensures var cache := Invalidated(s2, Both("2"));
            && "b" in cache && cache["b"] == s2.cache["b"]
            && forall job <- Both("2").jobs :: !NeedsCompilation(IMPORTING, Both("2").contents, cache, job)
  {
    var p := Both("2");
    var cache := Invalidated(s2, p);
    assert "b"[0] != "c"[0];
    assert !Missing(s2.cache["b"], s2.disk, "b") && !Missing(s2.cache["c"], s2.disk, "c");
    assert cache["b"] == s2.cache["b"] && cache["c"] == s2.cache["c"];
    assert !NeedsCompilation(IMPORTING, p.contents, cache, JOB_B);
    assert !NeedsCompilation(IMPORTING, p.contents, cache, JOB_C);
  }
}
