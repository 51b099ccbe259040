/** The Vyper compile task: which files are compiled again, with which compiler,
    and why the artifacts left are those of the current contents. */
module VyperBuildSpec {
  import opened Prelude
  import opened ContractNames

  /** What surrounds a run: the content hash, the pragma of a content, the
      highest configured version a pragma admits, the version a compiler reports of
      itself, the artifact it emits for one source, and whether the look-up of an
      artifact finds it rather than a twin with other letter case. */
  datatype Env = Env(
    root: string,
    hash: string -> string,
    parseVersionPragma: string -> string,
    maxSatisfying: (seq<string>, string) -> Option<string>,
    reported: string -> string,
    compile: (string, string, string) -> string,
    finds: (set<Key>, Key) -> bool)

  datatype Entry = Entry(
    contentHash: string, sourceName: string, version: string, versionPragma: string, artifacts: seq<string>)

  type Cache = map<string, Entry>

  /** An artifact is filed under its source and contract name. */
  type Key = (string, string)

  type Disk = map<Key, string>

  datatype ResolvedFile = ResolvedFile(
    sourceName: string, absolutePath: string, rawContent: string, versionPragma: string, contentHash: string)

  /** What a run finds: every file by absolute path, the names of the Vyper
      sources, and the compiler versions of the configuration. */
  datatype Project = Project(contents: map<string, string>, sourceNames: seq<string>, configured: seq<string>)

  datatype State = State(cache: Cache, disk: Disk)

  function AbsolutePath(root: string, sourceName: string): string {
    root + "/" + sourceName
  }

  /** `pathToContractName`: the base name up to its first dot. */
  function ContractName(sourceName: string): string {
    var segments := Split(sourceName, '/');
    var baseName := segments[|segments| - 1];
    if '.' in baseName then Split(baseName, '.')[0] else ""
  }

  /** The contract of `dir/X.vy`, at any depth, is `X`; a name ends at its first dot. */
  lemma ContractNameIs(dir: seq<string>, name: string, extension: string)
    requires (forall i :: 0 <= i < |dir| ==> '/' !in dir[i]) && '/' !in name && '.' !in name && '/' !in extension
    ensures ContractName(Join(dir + [name + "." + extension], '/')) == name
    ensures ContractName(Join(dir + [name], '/')) == ""
  {
    var file := name + "." + extension;
    FileNameParts(name, extension);
    hide *;
    ContractNameOfFile(dir, file);
    ContractNameOfFile(dir, name);
  }

  lemma FileNameParts(name: string, extension: string)
    requires '/' !in name && '.' !in name && '/' !in extension
    ensures var file := name + "." + extension; '/' !in file && '.' in file && Split(file, '.')[0] == name
  {
    var file := name + "." + extension;
    assert file[|name|] == '.' && file == name + ['.'] + extension;
    SplitFirst(name, '.', extension);
  }

  lemma ContractNameOfFile(dir: seq<string>, file: string)
    requires (forall i :: 0 <= i < |dir| ==> '/' !in dir[i]) && '/' !in file
    ensures ContractName(Join(dir + [file], '/')) == if '.' in file then Split(file, '.')[0] else ""
  {
    hide Split, Join;
    LastSegment(dir, file);
  }

  lemma LastSegment(dir: seq<string>, file: string)
    requires (forall i :: 0 <= i < |dir| ==> '/' !in dir[i]) && '/' !in file
    ensures var segments := Split(Join(dir + [file], '/'), '/'); segments[|segments| - 1] == file
  {
    hide Split, Join;
    SplitJoin(dir + [file], '/');
  }

  function KeyOf(sourceName: string): Key {
    (sourceName, ContractName(sourceName))
  }

  predicate TestMode(content: string) {
    Contains(content, "#@ if mode == \"test\":")
  }

  /** The directive is found wherever it stands, and only where it does. */
  lemma DirectiveIsFound(before: string, after: string)
    ensures TestMode(before + "#@ if mode == \"test\":" + after)
    ensures '#' !in before ==> !TestMode(before)
  {
    var directive := "#@ if mode == \"test\":";
    var content := before + directive + after;
    assert content[|before|..] == directive + after && StartsWith(content[|before|..], directive);
    forall i | 0 <= i <= |before|
      ensures '#' !in before ==> !StartsWith(before[i..], directive)
    {
      assert i < |before| ==> before[i..][0] == before[i] && before[i] in before;
    }
  }

  /** Every source name stands for a file. */
  ghost predicate ProjectOk(env: Env, p: Project) {
    forall name <- p.sourceNames :: AbsolutePath(env.root, name) in p.contents
  }

  function FileOf(env: Env, p: Project, name: string): ResolvedFile
    requires AbsolutePath(env.root, name) in p.contents
  {
    var absolutePath := AbsolutePath(env.root, name);
    var rawContent := p.contents[absolutePath];
    ResolvedFile(name, absolutePath, rawContent, env.parseVersionPragma(rawContent), env.hash(rawContent))
  }

  ghost predicate IsFile(env: Env, p: Project, f: ResolvedFile) {
    AbsolutePath(env.root, f.sourceName) in p.contents && f == FileOf(env, p, f.sourceName)
  }

  ghost function Resolved(env: Env, p: Project): (files: seq<ResolvedFile>)
    requires ProjectOk(env, p)
    ensures |files| == |p.sourceNames|
    ensures forall i :: 0 <= i < |files| ==> files[i].sourceName == p.sourceNames[i]
    ensures forall f <- files :: IsFile(env, p, f) && f.sourceName in p.sourceNames
  {
    seq(|p.sourceNames|, i requires 0 <= i < |p.sourceNames| =>
      assert p.sourceNames[i] in p.sourceNames; FileOf(env, p, p.sourceNames[i]))
  }

  // ----- the stages of a run -----

  ghost function RemoveNonExistingFiles(cache: Cache, contents: map<string, string>): Cache {
    map path | path in cache && path in contents :: cache[path]
  }

  /** `artifactExists`. */
  predicate ArtifactExists(env: Env, disk: Disk, key: Key) {
    key in disk && env.finds(disk.Keys, key)
  }

  ghost predicate Missing(env: Env, entry: Entry, disk: Disk, sourceName: string) {
    exists n :: n in entry.artifacts && !ArtifactExists(env, disk, (sourceName, n))
  }

  ghost predicate Invalid(env: Env, cache: Cache, disk: Disk, f: ResolvedFile) {
    f.absolutePath in cache && Missing(env, cache[f.absolutePath], disk, f.sourceName)
  }

  ghost function Invalidate(env: Env, cache: Cache, disk: Disk, files: seq<ResolvedFile>): Cache {
    map path | path in cache && !(exists f <- files :: f.absolutePath == path && Invalid(env, cache, disk, f)) :: cache[path]
  }

  predicate HasFileChanged(cache: Cache, f: ResolvedFile) {
    f.absolutePath !in cache || cache[f.absolutePath].contentHash != f.contentHash ||
    cache[f.absolutePath].version != f.versionPragma
  }

  ghost function ChangedFiles(cache: Cache, files: seq<ResolvedFile>): seq<ResolvedFile> {
    if files == [] then []
    else
      var last := files[|files| - 1];
      ChangedFiles(cache, files[..|files| - 1]) + if HasFileChanged(cache, last) then [last] else []
  }

  function Best(env: Env, configured: seq<string>, f: ResolvedFile): Option<string> {
    env.maxSatisfying(configured, f.versionPragma)
  }

  /** The changed files whose best version is `best`, None for those without one. */
  ghost function Group(env: Env, configured: seq<string>, cache: Cache, files: seq<ResolvedFile>, best: Option<string>): seq<ResolvedFile> {
    if files == [] then []
    else
      var last := files[|files| - 1];
      Group(env, configured, cache, files[..|files| - 1], best) +
      if HasFileChanged(cache, last) && Best(env, configured, last) == best then [last] else []
  }

  function NewEntry(env: Env, version: string, f: ResolvedFile): Entry {
    Entry(f.contentHash, f.sourceName, env.reported(version), f.versionPragma, [ContractName(f.sourceName)])
  }

  ghost predicate AllMatched(env: Env, configured: seq<string>, files: seq<ResolvedFile>) {
    forall f <- files :: Best(env, configured, f).Some?
  }

  /** Storing what one file compiles to and recording it in the cache. */
  ghost function Record(env: Env, configured: seq<string>, f: ResolvedFile, s: State): State
    requires Best(env, configured, f).Some?
  {
    var version := Best(env, configured, f).value;
    State(s.cache[f.absolutePath := NewEntry(env, version, f)],
          s.disk[KeyOf(f.sourceName) := env.compile(version, f.sourceName, f.rawContent)])
  }

  ghost function RecordAll(env: Env, configured: seq<string>, files: seq<ResolvedFile>, s: State): State
    requires AllMatched(env, configured, files)
  {
    if files == [] then s
    else
      assert files[|files| - 1] in files;
      Record(env, configured, files[|files| - 1], RecordAll(env, configured, files[..|files| - 1], s))
  }

  /** The state once the cache is read and entries without artifacts are dropped. */
  ghost function Prepared(env: Env, s: State, p: Project): State
    requires ProjectOk(env, p)
  {
    State(Invalidate(env, RemoveNonExistingFiles(s.cache, p.contents), s.disk, Resolved(env, p)), s.disk)
  }

  ghost function Changed(env: Env, s: State, p: Project): seq<ResolvedFile>
    requires ProjectOk(env, p)
  {
    ChangedFiles(Prepared(env, s, p).cache, Resolved(env, p))
  }

  ghost predicate NoTestMode(env: Env, p: Project)
    requires ProjectOk(env, p)
  {
    forall f <- Resolved(env, p) :: !TestMode(f.rawContent)
  }

  /** A run completes if no file has a test directive and each changed file has a compiler. */
  ghost predicate Completes(env: Env, s: State, p: Project)
    requires ProjectOk(env, p)
  {
    NoTestMode(env, p) && AllMatched(env, p.configured, Changed(env, s, p))
  }

  /** What a completed run leaves. */
  ghost function Build(env: Env, s: State, p: Project): State
    requires ProjectOk(env, p) && Completes(env, s, p)
  {
    RecordAll(env, p.configured, Changed(env, s, p), Prepared(env, s, p))
  }

  // ----- grouping -----

  lemma {:induction false} ChangedMembers(cache: Cache, files: seq<ResolvedFile>, f: ResolvedFile)
    ensures f in ChangedFiles(cache, files) <==> f in files && HasFileChanged(cache, f)
  {
    if files != [] {
      ChangedMembers(cache, files[..|files| - 1], f);
      assert files == files[..|files| - 1] + [files[|files| - 1]];
    }
  }

  lemma {:induction false} GroupMembers(env: Env, configured: seq<string>, cache: Cache, files: seq<ResolvedFile>,
                                        best: Option<string>, f: ResolvedFile)
    ensures multiset(Group(env, configured, cache, files, best))[f] ==
            if HasFileChanged(cache, f) && Best(env, configured, f) == best then multiset(files)[f] else 0
  {
    if files != [] {
      var rest, last := files[..|files| - 1], files[|files| - 1];
      var here := HasFileChanged(cache, last) && Best(env, configured, last) == best;
      var group := Group(env, configured, cache, rest, best);
      GroupMembers(env, configured, cache, rest, best, f);
      assert files == rest + [last];
      assert here ==> Group(env, configured, cache, files, best) == group + [last];
      assert !here ==> Group(env, configured, cache, files, best) == group;
      hide *;
      MultiplicitySnoc(rest, last, f);
      MultiplicitySnoc(group, last, f);
    }
  }

  lemma MultiplicitySnoc(files: seq<ResolvedFile>, last: ResolvedFile, f: ResolvedFile)
    ensures multiset(files + [last])[f] == multiset(files)[f] + if last == f then 1 else 0
  {
  }

  /** A changed file is in the group of its highest admissible version, as often as
      it was resolved, and in no other; a file that has not changed is in none. */
  lemma ExactlyOneGroup(env: Env, configured: seq<string>, cache: Cache, files: seq<ResolvedFile>, f: ResolvedFile)
    requires f in files
    ensures HasFileChanged(cache, f) ==>
              multiset(Group(env, configured, cache, files, Best(env, configured, f)))[f] == multiset(files)[f]
    ensures forall best :: f in Group(env, configured, cache, files, best) <==>
              HasFileChanged(cache, f) && best == Best(env, configured, f)
  {
    GroupMembers(env, configured, cache, files, Best(env, configured, f), f);
    forall best
      ensures f in Group(env, configured, cache, files, best) <==> HasFileChanged(cache, f) && best == Best(env, configured, f)
    {
      GroupMembers(env, configured, cache, files, best, f);
      assert f in Group(env, configured, cache, files, best) <==> multiset(Group(env, configured, cache, files, best))[f] > 0;
    }
  }

  // ----- recording -----

  lemma SamePathSameFile(env: Env, p: Project, f: ResolvedFile, g: ResolvedFile)
    requires IsFile(env, p, f) && IsFile(env, p, g)
    requires f.absolutePath == g.absolutePath || f.sourceName == g.sourceName
    ensures f == g
  {
    var prefix := env.root + "/";
    assert f.absolutePath[|prefix|..] == f.sourceName && g.absolutePath[|prefix|..] == g.sourceName;
  }

  ghost predicate AllFiles(env: Env, p: Project, files: seq<ResolvedFile>) {
    forall f <- files :: IsFile(env, p, f)
  }

  lemma {:induction false} RecordedFile(env: Env, p: Project, files: seq<ResolvedFile>, s: State, f: ResolvedFile)
    requires AllMatched(env, p.configured, files) && AllFiles(env, p, files) && f in files
    ensures var r, version := RecordAll(env, p.configured, files, s), Best(env, p.configured, f).value;
            && f.absolutePath in r.cache && r.cache[f.absolutePath] == NewEntry(env, version, f)
            && KeyOf(f.sourceName) in r.disk && r.disk[KeyOf(f.sourceName)] == env.compile(version, f.sourceName, f.rawContent)
  {
    var rest, last := files[..|files| - 1], files[|files| - 1];
    assert files == rest + [last];
    hide NewEntry, KeyOf, IsFile;
    if f != last {
      RecordedFile(env, p, rest, s, f);
      if f.absolutePath == last.absolutePath || f.sourceName == last.sourceName {
        SamePathSameFile(env, p, f, last);
      }
      KeysDiffer(f.sourceName, last.sourceName);
    }
  }

  lemma KeysDiffer(a: string, b: string)
    ensures KeyOf(a) == KeyOf(b) ==> a == b
  {
  }

  lemma {:induction false} UnrecordedEntry(env: Env, configured: seq<string>, files: seq<ResolvedFile>, s: State, path: string)
    requires AllMatched(env, configured, files)
    requires forall f <- files :: f.absolutePath != path
    ensures var r := RecordAll(env, configured, files, s);
            (path in r.cache <==> path in s.cache) && (path in s.cache ==> r.cache[path] == s.cache[path])
  {
    if files != [] {
      assert files[|files| - 1] in files;
      hide NewEntry, KeyOf;
      UnrecordedEntry(env, configured, files[..|files| - 1], s, path);
    }
  }

  lemma {:induction false} UnrecordedArtifact(env: Env, configured: seq<string>, files: seq<ResolvedFile>, s: State, key: Key)
    requires AllMatched(env, configured, files)
    requires forall f <- files :: KeyOf(f.sourceName) != key
    ensures var r := RecordAll(env, configured, files, s);
            (key in r.disk <==> key in s.disk) && (key in s.disk ==> r.disk[key] == s.disk[key])
  {
    if files != [] {
      assert files[|files| - 1] in files;
      hide NewEntry, KeyOf;
      UnrecordedArtifact(env, configured, files[..|files| - 1], s, key);
    }
  }

  lemma SameEntry(env: Env, p: Project, files: seq<ResolvedFile>, other: seq<ResolvedFile>, s: State, path: string)
    requires AllMatched(env, p.configured, files) && AllMatched(env, p.configured, other) && AllFiles(env, p, files)
    requires forall f :: f in files <==> f in other
    ensures var r, t := RecordAll(env, p.configured, files, s).cache, RecordAll(env, p.configured, other, s).cache;
            (path in r <==> path in t) && (path in r ==> r[path] == t[path])
  {
    hide RecordAll, NewEntry;
    if f :| f in files && f.absolutePath == path {
      RecordedFile(env, p, files, s, f);
      RecordedFile(env, p, other, s, f);
    } else {
      UnrecordedEntry(env, p.configured, files, s, path);
      UnrecordedEntry(env, p.configured, other, s, path);
    }
  }

  lemma SameArtifact(env: Env, p: Project, files: seq<ResolvedFile>, other: seq<ResolvedFile>, s: State, key: Key)
    requires AllMatched(env, p.configured, files) && AllMatched(env, p.configured, other) && AllFiles(env, p, files)
    requires forall f :: f in files <==> f in other
    ensures var r, t := RecordAll(env, p.configured, files, s).disk, RecordAll(env, p.configured, other, s).disk;
            (key in r <==> key in t) && (key in r ==> r[key] == t[key])
  {
    hide RecordAll, NewEntry, KeyOf;
    if f :| f in files && KeyOf(f.sourceName) == key {
      RecordedFile(env, p, files, s, f);
      RecordedFile(env, p, other, s, f);
    } else {
      UnrecordedArtifact(env, p.configured, files, s, key);
      UnrecordedArtifact(env, p.configured, other, s, key);
    }
  }

  /** Compiling group by group, in whatever order, leaves what compiling the
      changed files one after the other leaves. */
  lemma GroupingIsIrrelevant(env: Env, p: Project, files: seq<ResolvedFile>, other: seq<ResolvedFile>, s: State)
    requires AllMatched(env, p.configured, files) && AllMatched(env, p.configured, other) && AllFiles(env, p, files)
    requires forall f :: f in files <==> f in other
    ensures RecordAll(env, p.configured, files, s) == RecordAll(env, p.configured, other, s)
  {
    var r, t := RecordAll(env, p.configured, files, s), RecordAll(env, p.configured, other, s);
    hide RecordAll;
    forall path: string
      ensures (path in r.cache <==> path in t.cache) && (path in r.cache ==> r.cache[path] == t.cache[path])
    {
      SameEntry(env, p, files, other, s, path);
    }
    forall key: Key
      ensures (key in r.disk <==> key in t.disk) && (key in r.disk ==> r.disk[key] == t.disk[key])
    {
      SameArtifact(env, p, files, other, s, key);
    }
    assert r.cache == t.cache && r.disk == t.disk;
  }

  // ----- what the cache knows -----

  ghost predicate CollisionFree(env: Env) {
    forall a, b :: env.hash(a) == env.hash(b) ==> a == b
  }

  /** The pragma is the one of every content with this hash. */
  ghost predicate Agrees(env: Env, contentHash: string, versionPragma: string) {
    forall content :: env.hash(content) == contentHash ==> env.parseVersionPragma(content) == versionPragma
  }

  /** The artifact, if it is there, is what this compiler makes of that content. */
  ghost predicate MadeBy(env: Env, disk: Disk, e: Entry, version: string) {
    KeyOf(e.sourceName) in disk ==>
      forall content :: env.hash(content) == e.contentHash ==>
        disk[KeyOf(e.sourceName)] == env.compile(version, e.sourceName, content)
  }

  ghost predicate EntryOk(env: Env, disk: Disk, path: string, e: Entry) {
    && path == AbsolutePath(env.root, e.sourceName)
    && e.artifacts == [ContractName(e.sourceName)]
    && Agrees(env, e.contentHash, e.versionPragma)
    && exists version :: env.reported(version) == e.version && MadeBy(env, disk, e, version)
  }

  ghost predicate Inv(env: Env, s: State) {
    forall path <- s.cache :: EntryOk(env, s.disk, path, s.cache[path])
  }

  lemma PrunedKeepsInv(env: Env, s: State, cache: Cache, disk: Disk)
    requires Inv(env, s)
    requires forall path <- cache :: path in s.cache && cache[path] == s.cache[path]
    requires forall key <- disk :: key in s.disk && disk[key] == s.disk[key]
    ensures Inv(env, State(cache, disk))
  {
    forall path | path in cache
      ensures EntryOk(env, disk, path, cache[path])
    {
      var e := cache[path];
      assert EntryOk(env, s.disk, path, e);
      var version :| env.reported(version) == e.version && MadeBy(env, s.disk, e, version);
      hide AbsolutePath, ContractName, KeyOf, Agrees;
      assert MadeBy(env, disk, e, version);
    }
  }

  lemma NewEntryOk(env: Env, p: Project, f: ResolvedFile, s: State)
    requires CollisionFree(env) && IsFile(env, p, f) && Best(env, p.configured, f).Some?
    ensures var r := Record(env, p.configured, f, s); EntryOk(env, r.disk, f.absolutePath, r.cache[f.absolutePath])
  {
    var version := Best(env, p.configured, f).value;
    var r := Record(env, p.configured, f, s);
    hide KeyOf, ContractName, AbsolutePath, Best;
    assert MadeBy(env, r.disk, r.cache[f.absolutePath], version);
  }

  lemma RecordKeepsInv(env: Env, p: Project, f: ResolvedFile, s: State)
    requires CollisionFree(env) && IsFile(env, p, f) && Best(env, p.configured, f).Some?
    requires Inv(env, s)
    ensures Inv(env, Record(env, p.configured, f, s))
  {
    var r := Record(env, p.configured, f, s);
    NewEntryOk(env, p, f, s);
    forall path | path in r.cache && path != f.absolutePath
      ensures EntryOk(env, r.disk, path, r.cache[path])
    {
      OtherEntryOk(env, p, f, s, path);
    }
  }

  lemma OtherEntryOk(env: Env, p: Project, f: ResolvedFile, s: State, path: string)
    requires IsFile(env, p, f) && Best(env, p.configured, f).Some?
    requires path in s.cache && path != f.absolutePath && EntryOk(env, s.disk, path, s.cache[path])
    ensures EntryOk(env, Record(env, p.configured, f, s).disk, path, s.cache[path])
  {
    var e, r := s.cache[path], Record(env, p.configured, f, s);
    assert e.sourceName != f.sourceName;
    KeysDiffer(e.sourceName, f.sourceName);
    var version :| env.reported(version) == e.version && MadeBy(env, s.disk, e, version);
    hide AbsolutePath, ContractName, KeyOf, Agrees, Best, IsFile;
    assert MadeBy(env, r.disk, e, version);
  }

  lemma {:induction false} RecordAllKeepsInv(env: Env, p: Project, files: seq<ResolvedFile>, s: State)
    requires CollisionFree(env) && AllFiles(env, p, files) && AllMatched(env, p.configured, files)
    requires Inv(env, s)
    ensures Inv(env, RecordAll(env, p.configured, files, s))
  {
    if files != [] {
      var rest, last := files[..|files| - 1], files[|files| - 1];
      assert last in files;
      hide CollisionFree, IsFile, Best, Inv, Record;
      RecordAllKeepsInv(env, p, rest, s);
      RecordKeepsInv(env, p, last, RecordAll(env, p.configured, rest, s));
    }
  }

  lemma PreparedKeepsInv(env: Env, s: State, p: Project)
    requires ProjectOk(env, p) && Inv(env, s)
    ensures Inv(env, Prepared(env, s, p))
  {
    var cache := Prepared(env, s, p).cache;
    hide Inv, Resolved, Invalid;
    PrunedKeepsInv(env, s, cache, s.disk);
  }

  lemma ChangedAreFiles(env: Env, s: State, p: Project)
    requires ProjectOk(env, p)
    ensures AllFiles(env, p, Changed(env, s, p))
    ensures forall f :: f in Changed(env, s, p) <==> f in Resolved(env, p) && HasFileChanged(Prepared(env, s, p).cache, f)
  {
    hide HasFileChanged, Prepared, Resolved;
    forall f
      ensures f in Changed(env, s, p) <==> f in Resolved(env, p) && HasFileChanged(Prepared(env, s, p).cache, f)
    {
      ChangedMembers(Prepared(env, s, p).cache, Resolved(env, p), f);
    }
  }

  /** A completed run leaves a cache that is right about the disk. */
  lemma BuildKeepsInv(env: Env, s: State, p: Project)
    requires CollisionFree(env) && ProjectOk(env, p) && Completes(env, s, p) && Inv(env, s)
    ensures Inv(env, Build(env, s, p))
  {
    PreparedKeepsInv(env, s, p);
    ChangedAreFiles(env, s, p);
    hide CollisionFree, Inv, Prepared, Changed, RecordAll;
    RecordAllKeepsInv(env, p, Changed(env, s, p), Prepared(env, s, p));
  }

  // ----- skipping is right -----

  /** The artifact of `f` is what this compiler makes of its content. */
  ghost predicate Current(env: Env, disk: Disk, f: ResolvedFile, version: string) {
    KeyOf(f.sourceName) in disk && disk[KeyOf(f.sourceName)] == env.compile(version, f.sourceName, f.rawContent)
  }

  lemma ArtifactPresent(env: Env, s: State, p: Project, f: ResolvedFile)
    requires ProjectOk(env, p) && Inv(env, s) && f in Resolved(env, p) && f.absolutePath in Prepared(env, s, p).cache
    ensures KeyOf(f.sourceName) in s.disk && s.cache[f.absolutePath].sourceName == f.sourceName
  {
    var e := s.cache[f.absolutePath];
    assert EntryOk(env, s.disk, f.absolutePath, e);
    var prefix := env.root + "/";
    assert f.absolutePath[|prefix|..] == f.sourceName;
    assert !Missing(env, e, s.disk, f.sourceName);
    assert ContractName(e.sourceName) in e.artifacts;
  }

  /** A file that is skipped has a pragma that is the very version its artifact's
      compiler reports, and that artifact is current. */
  lemma SkippedIsCurrent(env: Env, s: State, p: Project, f: ResolvedFile) returns (version: string)
    requires ProjectOk(env, p) && Inv(env, s) && f in Resolved(env, p)
    requires !HasFileChanged(Prepared(env, s, p).cache, f)
    ensures env.reported(version) == f.versionPragma && Current(env, s.disk, f, version)
  {
    ArtifactPresent(env, s, p, f);
    var e := s.cache[f.absolutePath];
    assert EntryOk(env, s.disk, f.absolutePath, e);
    hide AbsolutePath, ContractName, KeyOf, Agrees;
    version :| env.reported(version) == e.version && MadeBy(env, s.disk, e, version);
  }

  lemma SkippedIsKept(env: Env, s: State, p: Project, f: ResolvedFile)
    requires ProjectOk(env, p) && Completes(env, s, p) && f in Resolved(env, p)
    requires !HasFileChanged(Prepared(env, s, p).cache, f)
    ensures var b, r := Build(env, s, p), Prepared(env, s, p);
            && f.absolutePath in b.cache && b.cache[f.absolutePath] == r.cache[f.absolutePath]
            && (KeyOf(f.sourceName) in b.disk <==> KeyOf(f.sourceName) in s.disk)
            && (KeyOf(f.sourceName) in s.disk ==> b.disk[KeyOf(f.sourceName)] == s.disk[KeyOf(f.sourceName)])
  {
    ChangedAreFiles(env, s, p);
    var changed := Changed(env, s, p);
    forall g | g in changed
      ensures g.absolutePath != f.absolutePath && KeyOf(g.sourceName) != KeyOf(f.sourceName)
    {
      hide KeyOf, HasFileChanged, Prepared;
      KeysDiffer(f.sourceName, g.sourceName);
      if g.absolutePath == f.absolutePath || g.sourceName == f.sourceName {
        SamePathSameFile(env, p, f, g);
      }
    }
    UnrecordedEntry(env, p.configured, changed, Prepared(env, s, p), f.absolutePath);
    UnrecordedArtifact(env, p.configured, changed, Prepared(env, s, p), KeyOf(f.sourceName));
  }

  /** After a completed run the artifact of every resolved file is the compilation
      of its current content: by the best configured version if it was compiled,
      and by a compiler that calls itself what the pragma says if it was skipped. */
  lemma EveryArtifactIsCurrent(env: Env, s: State, p: Project, f: ResolvedFile) returns (version: string)
    requires CollisionFree(env) && ProjectOk(env, p) && Completes(env, s, p) && Inv(env, s) && f in Resolved(env, p)
    ensures Current(env, Build(env, s, p).disk, f, version)
    ensures if HasFileChanged(Prepared(env, s, p).cache, f) then Best(env, p.configured, f) == Some(version)
            else env.reported(version) == f.versionPragma
  {
    hide Inv, Prepared, HasFileChanged, KeyOf, CollisionFree, Resolved, RecordAll, Changed;
    if HasFileChanged(Prepared(env, s, p).cache, f) {
      ChangedAreFiles(env, s, p);
      assert f in Changed(env, s, p);
      version := Best(env, p.configured, f).value;
      RecordedFile(env, p, Changed(env, s, p), Prepared(env, s, p), f);
    } else {
      version := SkippedIsCurrent(env, s, p, f);
      SkippedIsKept(env, s, p, f);
    }
  }

  // ----- against a build from scratch -----

  const EMPTY := State(map[], map[])

  /** A pragma that is a version a compiler reports admits no other compiler. */
  ghost predicate ExactPragmas(env: Env) {
    forall version, configured, best ::
      env.maxSatisfying(configured, env.reported(version)) == Some(best) ==> best == version
  }

  lemma FromScratch(env: Env, p: Project, f: ResolvedFile)
    requires ProjectOk(env, p) && f in Resolved(env, p)
    ensures HasFileChanged(Prepared(env, EMPTY, p).cache, f) && f in Changed(env, EMPTY, p)
  {
    ChangedAreFiles(env, EMPTY, p);
  }

  /** Whenever a build from scratch completes, so does the incremental one. */
  lemma CompletesToo(env: Env, s: State, p: Project)
    requires ProjectOk(env, p) && Completes(env, EMPTY, p)
    ensures Completes(env, s, p)
  {
    ChangedAreFiles(env, s, p);
    hide HasFileChanged, Prepared, Resolved, Changed, Best;
    forall f | f in Changed(env, s, p)
      ensures Best(env, p.configured, f).Some?
    {
      FromScratch(env, p, f);
    }
  }

  /** And then every resolved file has the artifact a build from scratch gives it. */
  lemma IncrementalIsClean(env: Env, s: State, p: Project, f: ResolvedFile)
    requires CollisionFree(env) && ExactPragmas(env) && ProjectOk(env, p) && Inv(env, s)
    requires Completes(env, EMPTY, p) && Completes(env, s, p) && f in Resolved(env, p)
    ensures KeyOf(f.sourceName) in Build(env, s, p).disk && KeyOf(f.sourceName) in Build(env, EMPTY, p).disk
    ensures Build(env, s, p).disk[KeyOf(f.sourceName)] == Build(env, EMPTY, p).disk[KeyOf(f.sourceName)]
  {
    FromScratch(env, p, f);
    assert Inv(env, EMPTY);
    hide Inv, Prepared, HasFileChanged, KeyOf, CollisionFree, Resolved, RecordAll, Changed, Build, Completes;
    var version := EveryArtifactIsCurrent(env, s, p, f);
    var clean := EveryArtifactIsCurrent(env, EMPTY, p, f);
  }

  /** A run completes exactly when no file has a test directive and each that is
      not skipped has a compiler: a skipped file may have lost its compiler. */
  lemma CompletesExactly(env: Env, s: State, p: Project)
    requires ProjectOk(env, p)
    ensures Completes(env, s, p) <==>
              NoTestMode(env, p) && forall f <- Resolved(env, p) ::
                HasFileChanged(Prepared(env, s, p).cache, f) ==> Best(env, p.configured, f).Some?
  {
    ChangedAreFiles(env, s, p);
    hide HasFileChanged, Prepared, Resolved, Changed, Best;
  }

  /** An entry outlives the preparation of the next run exactly if its artifact is found. */
  lemma StillResolved(env: Env, s: State, p: Project, f: ResolvedFile)
    requires CollisionFree(env) && ProjectOk(env, p) && Completes(env, s, p) && Inv(env, s) && f in Resolved(env, p)
    requires f.absolutePath in Build(env, s, p).cache
    ensures var b := Build(env, s, p);
            && (f.absolutePath in Prepared(env, b, p).cache <==> env.finds(b.disk.Keys, KeyOf(f.sourceName)))
            && (f.absolutePath in Prepared(env, b, p).cache ==> Prepared(env, b, p).cache[f.absolutePath] == b.cache[f.absolutePath])
  {
    var b := Build(env, s, p);
    BuildKeepsInv(env, s, p);
    var e := b.cache[f.absolutePath];
    assert EntryOk(env, b.disk, f.absolutePath, e);
    var version := EveryArtifactIsCurrent(env, s, p, f);
    assert Current(env, b.disk, f, version);
    SourceNameOf(env, f, e);
    forall g | g in Resolved(env, p) && g.absolutePath == f.absolutePath
      ensures g.sourceName == f.sourceName
    {
      SamePathSameFile(env, p, f, g);
    }
    assert f.absolutePath in p.contents;
    hide Build, Completes, CollisionFree, Inv, ContractName, AbsolutePath, Agrees, HasFileChanged;
    OneArtifact(env, b.disk, f, e);
    StaysPreparedExactly(env, b, p, f, e);
  }

  lemma OneArtifact(env: Env, disk: Disk, f: ResolvedFile, e: Entry)
    requires e.sourceName == f.sourceName && e.artifacts == [ContractName(e.sourceName)] && KeyOf(f.sourceName) in disk
    ensures Missing(env, e, disk, f.sourceName) <==> !env.finds(disk.Keys, KeyOf(f.sourceName))
  {
    hide ContractName;
    assert ContractName(e.sourceName) in e.artifacts;
  }

  lemma StaysPreparedExactly(env: Env, b: State, p: Project, f: ResolvedFile, e: Entry)
    requires ProjectOk(env, p) && f.absolutePath in b.cache && b.cache[f.absolutePath] == e && f.absolutePath in p.contents
    requires f in Resolved(env, p)
    requires forall g <- Resolved(env, p) :: g.absolutePath == f.absolutePath ==> g.sourceName == f.sourceName
    ensures f.absolutePath in Prepared(env, b, p).cache <==> !Missing(env, e, b.disk, f.sourceName)
    ensures f.absolutePath in Prepared(env, b, p).cache ==> Prepared(env, b, p).cache[f.absolutePath] == e
  {
    var c := RemoveNonExistingFiles(b.cache, p.contents);
    assert f.absolutePath in c && c[f.absolutePath] == e;
    hide Missing, Resolved, RemoveNonExistingFiles;
    forall g | g in Resolved(env, p) && g.absolutePath == f.absolutePath
      ensures Invalid(env, c, b.disk, g) <==> Missing(env, e, b.disk, f.sourceName)
    {
    }
    hide Invalid;
    assert f.absolutePath in Invalidate(env, c, b.disk, Resolved(env, p)) <==> !Missing(env, e, b.disk, f.sourceName);
  }

  lemma SourceNameOf(env: Env, f: ResolvedFile, e: Entry)
    requires f.absolutePath == AbsolutePath(env.root, f.sourceName) == AbsolutePath(env.root, e.sourceName)
    ensures e.sourceName == f.sourceName
  {
    var prefix := env.root + "/";
    assert f.absolutePath[|prefix|..] == f.sourceName;
  }

  /** Why the next run compiles `f` again: its artifact is not found, or it was
      compiled and its pragma is not literally the version its compiler reports. */
  ghost predicate CompiledAgain(env: Env, s: State, p: Project, f: ResolvedFile)
    requires ProjectOk(env, p) && Completes(env, s, p)
  {
    || !env.finds(Build(env, s, p).disk.Keys, KeyOf(f.sourceName))
    || (f in Changed(env, s, p) && Best(env, p.configured, f) != None &&
        env.reported(Best(env, p.configured, f).value) != f.versionPragma)
  }

  /** Running again on the same project compiles again exactly those files. */
  lemma SecondRunRecompilesExactly(env: Env, s: State, p: Project, f: ResolvedFile)
    requires CollisionFree(env) && ProjectOk(env, p) && Completes(env, s, p) && Inv(env, s) && f in Resolved(env, p)
    ensures f in Changed(env, Build(env, s, p), p) <==> CompiledAgain(env, s, p, f)
  {
    var b := Build(env, s, p);
    ChangedAreFiles(env, s, p);
    ChangedAreFiles(env, b, p);
    hide CollisionFree, Inv, Resolved, RecordAll, Changed, Prepared, Best, KeyOf;
    if f in Changed(env, s, p) {
      RecordedFile(env, p, Changed(env, s, p), Prepared(env, s, p), f);
    } else {
      SkippedIsKept(env, s, p, f);
    }
    StillResolved(env, s, p, f);
  }

  lemma PreparedIgnoresVersions(env: Env, s: State, p: Project, configured: seq<string>)
    requires ProjectOk(env, p)
    ensures var q := p.(configured := configured);
            ProjectOk(env, q) && Resolved(env, q) == Resolved(env, p) && Prepared(env, s, q) == Prepared(env, s, p) &&
            Changed(env, s, q) == Changed(env, s, p)
  {
    hide Invalidate, RemoveNonExistingFiles, ChangedFiles;
    assert Resolved(env, p.(configured := configured)) == Resolved(env, p);
  }

  /** After a completed run the configuration may lose compilers unnoticed: the next
      run completes if and only if the files it compiles again still have one. */
  lemma CompilersMayGoExactly(env: Env, s: State, p: Project, configured: seq<string>)
    requires CollisionFree(env) && ProjectOk(env, p) && Completes(env, s, p) && Inv(env, s)
    ensures ProjectOk(env, p.(configured := configured))
    ensures Completes(env, Build(env, s, p), p.(configured := configured)) <==>
            forall f <- Resolved(env, p) :: CompiledAgain(env, s, p, f) ==> Best(env, configured, f).Some?
  {
    var b, q := Build(env, s, p), p.(configured := configured);
    PreparedIgnoresVersions(env, b, p, configured);
    ChangedAreFiles(env, s, p);
    ChangedAreFiles(env, b, p);
    assert NoTestMode(env, p) && NoTestMode(env, q);
    hide CollisionFree, Inv, Build, Changed, Prepared, HasFileChanged, NoTestMode, Resolved, Best, CompiledAgain;
    forall f | f in Resolved(env, p)
      ensures f in Changed(env, b, q) <==> CompiledAgain(env, s, p, f)
    {
      SecondRunRecompilesExactly(env, s, p, f);
    }
  }

  /** One file `A.vy` whose content is its pragma, and compilers that admit exactly
      their own version. */
  const EXACT: Env := Env(
    "",
    s => s,
    s => s,
    (configured, pragma) => if pragma in configured then Some(pragma) else None,
    version => version,
    (version, name, content) => version,
    (keys, key) => true)

  const ONE_FILE: Project := Project(map["/A.vy" := "0.3.7"], ["A.vy"], ["0.3.7"])

  lemma OneFile()
    ensures ProjectOk(EXACT, ONE_FILE)
    ensures forall f <- Resolved(EXACT, ONE_FILE) :: f.versionPragma == "0.3.7" && f.rawContent == "0.3.7"
    ensures |Resolved(EXACT, ONE_FILE)| == 1
  {
    assert AbsolutePath("", "A.vy") == "/A.vy";
  }

  lemma NoDirective()
    ensures !TestMode("0.3.7")
  {
    assert |"0.3.7"| < |"#@ if mode == \"test\":"|;
  }

  /** The compiler is taken out of the configuration: a build from scratch fails for
      `A.vy`, the next run completes without a word. */
  lemma SkippedWithoutACompiler()
    ensures ProjectOk(EXACT, ONE_FILE) && Completes(EXACT, EMPTY, ONE_FILE)
    ensures var q := ONE_FILE.(configured := []);
            ProjectOk(EXACT, q) && !Completes(EXACT, EMPTY, q) && Completes(EXACT, Build(EXACT, EMPTY, ONE_FILE), q)
  {
    OneFile();
    NoDirective();
    var p, q := ONE_FILE, ONE_FILE.(configured := []);
    ChangedAreFiles(EXACT, EMPTY, p);
    PreparedIgnoresVersions(EXACT, EMPTY, p, []);
    FromScratch(EXACT, p, Resolved(EXACT, p)[0]);
    assert forall f <- Resolved(EXACT, p) :: Best(EXACT, p.configured, f) == Some("0.3.7") && Best(EXACT, [], f) == None;
    assert CollisionFree(EXACT) && Inv(EXACT, EMPTY);
    hide Resolved, Prepared, Changed, HasFileChanged, Best, TestMode, CollisionFree, Inv;
    CompilersMayGoExactly(EXACT, EMPTY, p, []);
  }

  // ----- every run -----

  /** Before a run the sources and the configuration may change at will, and
      artifacts may have been deleted. */
  datatype Step = Step(kept: set<Key>, project: Project)

  ghost function Found(s: State, step: Step): State {
    State(s.cache, map key | key in s.disk && key in step.kept :: s.disk[key])
  }

  /** A run that throws leaves the files as they were. */
  ghost function RunStep(env: Env, s: State, step: Step): State
    requires ProjectOk(env, step.project)
  {
    if Completes(env, Found(s, step), step.project) then Build(env, Found(s, step), step.project) else Found(s, step)
  }

  ghost predicate StepsOk(env: Env, steps: seq<Step>) {
    forall step <- steps :: ProjectOk(env, step.project)
  }

  ghost function RunAll(env: Env, steps: seq<Step>): State
    requires StepsOk(env, steps)
  {
    if steps == [] then EMPTY
    else
      assert steps[|steps| - 1] in steps;
      RunStep(env, RunAll(env, steps[..|steps| - 1]), steps[|steps| - 1])
  }

  lemma FoundKeepsInv(env: Env, s: State, step: Step)
    requires Inv(env, s)
    ensures Inv(env, Found(s, step))
  {
    hide Inv;
    PrunedKeepsInv(env, s, s.cache, Found(s, step).disk);
  }

  lemma {:induction false} RunsKeepInv(env: Env, steps: seq<Step>)
    requires CollisionFree(env) && StepsOk(env, steps)
    ensures Inv(env, RunAll(env, steps))
  {
    if steps != [] {
      var before, last := RunAll(env, steps[..|steps| - 1]), steps[|steps| - 1];
      RunsKeepInv(env, steps[..|steps| - 1]);
      assert last in steps;
      hide Inv, CollisionFree, Completes, Build;
      FoundKeepsInv(env, before, last);
      if Completes(env, Found(before, last), last.project) {
        BuildKeepsInv(env, Found(before, last), last.project);
      }
    }
  }

  /** After any history, a run whose sources could be built from scratch completes
      and leaves each of them the artifact that build would give it. */
  lemma EveryRunIsClean(env: Env, steps: seq<Step>, f: ResolvedFile)
    requires CollisionFree(env) && ExactPragmas(env) && StepsOk(env, steps) && steps != []
    requires ProjectOk(env, steps[|steps| - 1].project) && Completes(env, EMPTY, steps[|steps| - 1].project)
    requires f in Resolved(env, steps[|steps| - 1].project)
    ensures var p, b := steps[|steps| - 1].project, RunAll(env, steps);
            && KeyOf(f.sourceName) in b.disk && KeyOf(f.sourceName) in Build(env, EMPTY, p).disk
            && b.disk[KeyOf(f.sourceName)] == Build(env, EMPTY, p).disk[KeyOf(f.sourceName)]
  {
    var last := steps[|steps| - 1];
    var before := RunAll(env, steps[..|steps| - 1]);
    RunsKeepInv(env, steps[..|steps| - 1]);
    hide Inv, CollisionFree, Completes, Build, ExactPragmas, ProjectOk, Resolved, KeyOf;
    FoundKeepsInv(env, before, last);
    CompletesToo(env, Found(before, last), last.project);
    IncrementalIsClean(env, Found(before, last), last.project, f);
  }

  /** The names the clean-up is told to keep. */
  ghost function ValidArtifacts(cache: Cache): set<Key> {
    set path, n | path in cache && n in cache[path].artifacts :: (cache[path].sourceName, n)
  }

  /** The clean-up after the run keeps the artifact of every resolved file. */
  lemma CleanUpKeepsArtifacts(env: Env, s: State, p: Project, f: ResolvedFile)
    requires CollisionFree(env) && ProjectOk(env, p) && Completes(env, s, p) && Inv(env, s) && f in Resolved(env, p)
    ensures KeyOf(f.sourceName) in ValidArtifacts(Build(env, s, p).cache)
  {
    var b := Build(env, s, p);
    BuildKeepsInv(env, s, p);
    ChangedAreFiles(env, s, p);
    hide CollisionFree, Prepared, Best, RecordAll;
    if f in Changed(env, s, p) {
      RecordedFile(env, p, Changed(env, s, p), Prepared(env, s, p), f);
    } else {
      SkippedIsKept(env, s, p, f);
    }
    var e := b.cache[f.absolutePath];
    assert EntryOk(env, b.disk, f.absolutePath, e);
    SourceNameOf(env, f, e);
    assert ContractName(e.sourceName) in e.artifacts;
  }
}
