/** The objects and loops of the Vyper compile task. */
module VyperCompile {
  import opened Prelude
  import opened ContractNames
  import opened VyperBuildSpec

  class VyperFilesCache {
    var files: Cache

    constructor (files: Cache)
      ensures this.files == files
    {
      this.files := files;
    }

    method RemoveNonExistingFiles(contents: map<string, string>)
      modifies this
      ensures files == VyperBuildSpec.RemoveNonExistingFiles(old(files), contents)
    {
      var paths := files.Keys;
      while paths != {}
        invariant paths <= old(files).Keys
        invariant files == map path | path in old(files) && (path in contents || path in paths) :: old(files)[path]
        decreases paths
      {
        var path :| path in paths;
        if path !in contents {
          RemoveEntry(path);
        }
        paths := paths - {path};
      }
    }

    method AddFile(absolutePath: string, entry: Entry)
      modifies this
      ensures files == old(files)[absolutePath := entry]
    {
      files := files[absolutePath := entry];
    }

    method GetEntry(file: string) returns (entry: Option<Entry>)
      ensures entry == if file in files then Some(files[file]) else None
    {
      if file in files { return Some(files[file]); }
      return None;
    }

    method RemoveEntry(file: string)
      modifies this
      ensures files == old(files) - {file}
    {
      files := files - {file};
    }

    /** `hasFileChanged` with `{ version: pragma }` for the configuration. */
    method HasFileChanged(f: ResolvedFile) returns (changed: bool)
      ensures changed == VyperBuildSpec.HasFileChanged(files, f)
    {
      var cacheEntry := GetEntry(f.absolutePath);
      if cacheEntry.None? { return true; }
      if cacheEntry.value.contentHash != f.contentHash { return true; }
      if cacheEntry.value.version != f.versionPragma { return true; }
      return false;
    }
  }

  class Parser {
    var cache: map<string, string>
    const vyperFilesCache: VyperFilesCache

    constructor (vyperFilesCache: VyperFilesCache)
      ensures cache == map[] && this.vyperFilesCache == vyperFilesCache
    {
      cache := map[];
      this.vyperFilesCache := vyperFilesCache;
    }

    /** Both layers agree with `parseVersionPragma`. */
    ghost predicate Valid(env: Env)
      reads this, vyperFilesCache
    {
      && (forall h <- cache :: Agrees(env, h, cache[h]))
      && (forall path <- vyperFilesCache.files ::
            Agrees(env, vyperFilesCache.files[path].contentHash, vyperFilesCache.files[path].versionPragma))
    }

    /** `parse`, None when the content has a test directive. */
    method Parse(env: Env, fileContent: string, absolutePath: string) returns (versionPragma: Option<string>)
      requires CollisionFree(env) && Valid(env)
      modifies this`cache
      ensures Valid(env)
      ensures versionPragma == if TestMode(fileContent) then None else Some(env.parseVersionPragma(fileContent))
    {
      if TestMode(fileContent) {
        return None;
      }
      var contentHash := env.hash(fileContent);
      var cacheResult := GetFromCache(absolutePath, contentHash);
      if cacheResult.Some? {
        var pragma := cacheResult.value;
        assert Agrees(env, contentHash, pragma);
        return cacheResult;
      }
      var result := env.parseVersionPragma(fileContent);
      assert Agrees(env, contentHash, result);
      cache := cache[contentHash := result];
      return Some(result);
    }

    method GetFromCache(absolutePath: string, contentHash: string) returns (versionPragma: Option<string>)
      ensures versionPragma.Some? ==>
                || (contentHash in cache && cache[contentHash] == versionPragma.value)
                || (&& absolutePath in vyperFilesCache.files
                    && vyperFilesCache.files[absolutePath].contentHash == contentHash
                    && vyperFilesCache.files[absolutePath].versionPragma == versionPragma.value)
      ensures versionPragma.None? <==>
                && contentHash !in cache
                && (absolutePath in vyperFilesCache.files ==> vyperFilesCache.files[absolutePath].contentHash != contentHash)
    {
      if contentHash in cache {
        return Some(cache[contentHash]);
      }
      var entry := vyperFilesCache.GetEntry(absolutePath);
      if entry.None? {
        return None;
      }
      if entry.value.contentHash != contentHash {
        return None;
      }
      return Some(entry.value.versionPragma);
    }
  }

  /** Resolving every source name, None when some file has a test directive. */
  method ResolveAll(env: Env, p: Project, parser: Parser) returns (files: Option<seq<ResolvedFile>>)
    requires CollisionFree(env) && ProjectOk(env, p) && parser.Valid(env)
    modifies parser`cache
    ensures parser.Valid(env)
    ensures files.Some? <==> NoTestMode(env, p)
    ensures files.Some? ==> files.value == Resolved(env, p)
  {
    var resolved: seq<ResolvedFile> := [];
    ghost var all := Resolved(env, p);
    assert forall i :: 0 <= i < |all| ==> all[i] in all && IsFile(env, p, all[i]);
    hide Resolved, CollisionFree, TestMode;
    var i := 0;
    while i < |p.sourceNames|
      invariant 0 <= i <= |p.sourceNames|
      invariant resolved == all[..i]
      invariant forall j :: 0 <= j < i ==> !TestMode(all[j].rawContent)
      invariant parser.Valid(env)
    {
      var absolutePath := AbsolutePath(env.root, p.sourceNames[i]);
      assert IsFile(env, p, all[i]) && all[i].sourceName == p.sourceNames[i];
      var rawContent := p.contents[absolutePath];
      var pragma := parser.Parse(env, rawContent, absolutePath);
      if pragma.None? {
        assert all[i] in all;
        return None;
      }
      resolved := resolved + [ResolvedFile(p.sourceNames[i], absolutePath, rawContent, pragma.value, env.hash(rawContent))];
      i := i + 1;
    }
    files := Some(resolved);
  }

  /** `invalidateCacheMissingArtifacts`. */
  method InvalidateCacheMissingArtifacts(env: Env, cache: VyperFilesCache, disk: Disk, resolvedFiles: seq<ResolvedFile>)
    modifies cache
    ensures cache.files == Invalidate(env, old(cache.files), disk, resolvedFiles)
  {
    ghost var before := cache.files;
    var i := 0;
    while i < |resolvedFiles|
      invariant 0 <= i <= |resolvedFiles|
      invariant cache.files == Invalidate(env, before, disk, resolvedFiles[..i])
    {
      var file := resolvedFiles[i];
      var missing := false;
      if file.absolutePath in cache.files {
        missing := SomeMissing(env, cache.files[file.absolutePath].artifacts, disk, file.sourceName);
      }
      InvalidateSnoc(env, before, disk, resolvedFiles[..i], file);
      assert resolvedFiles[..i + 1] == resolvedFiles[..i] + [file];
      if missing {
        cache.RemoveEntry(file.absolutePath);
      }
      i := i + 1;
    }
    assert resolvedFiles[..i] == resolvedFiles;
  }

  lemma InvalidateSnoc(env: Env, cache: Cache, disk: Disk, files: seq<ResolvedFile>, last: ResolvedFile)
    ensures var r := Invalidate(env, cache, disk, files);
            Invalidate(env, cache, disk, files + [last]) == if Invalid(env, r, disk, last) then r - {last.absolutePath} else r
  {
    var r := Invalidate(env, cache, disk, files);
    hide Missing;
    forall path | path in cache
      ensures path in Invalidate(env, cache, disk, files + [last]) <==> path in r && !(path == last.absolutePath && Invalid(env, cache, disk, last))
    {
      assert forall f :: f in files + [last] <==> f in files || f == last;
    }
  }

  /** The inner loop, up to its `break`. */
  method SomeMissing(env: Env, artifacts: seq<string>, disk: Disk, sourceName: string) returns (missing: bool)
    ensures missing <==> exists n :: n in artifacts && !ArtifactExists(env, disk, (sourceName, n))
  {
    var i := 0;
    while i < |artifacts|
      invariant 0 <= i <= |artifacts|
      invariant forall j :: 0 <= j < i ==> ArtifactExists(env, disk, (sourceName, artifacts[j]))
    {
      if !ArtifactExists(env, disk, (sourceName, artifacts[i])) {
        return true;
      }
      i := i + 1;
    }
    return false;
  }

  /** What the groups are after some files: one list a version, and the versions in
      the order they first came up. */
  ghost predicate Grouped(env: Env, configured: seq<string>, cache: Cache, files: seq<ResolvedFile>,
                          versions: seq<string>, groups: map<string, seq<ResolvedFile>>, unmatched: seq<ResolvedFile>) {
    && unmatched == Group(env, configured, cache, files, None)
    && (forall v :: v in groups <==> Group(env, configured, cache, files, Some(v)) != [])
    && (forall v <- groups :: groups[v] == Group(env, configured, cache, files, Some(v)))
    && (forall v :: v in versions <==> v in groups)
  }

  /** The grouping loop. */
  method GroupFiles(env: Env, configured: seq<string>, cache: VyperFilesCache, resolvedFiles: seq<ResolvedFile>)
    returns (versions: seq<string>, versionGroups: map<string, seq<ResolvedFile>>, unmatchedFiles: seq<ResolvedFile>)
    ensures Grouped(env, configured, cache.files, resolvedFiles, versions, versionGroups, unmatchedFiles)
  {
    versions, versionGroups, unmatchedFiles := [], map[], [];
    var i := 0;
    while i < |resolvedFiles|
      invariant 0 <= i <= |resolvedFiles|
      invariant Grouped(env, configured, cache.files, resolvedFiles[..i], versions, versionGroups, unmatchedFiles)
    {
      var file := resolvedFiles[i];
      var hasChanged := cache.HasFileChanged(file);
      var best := env.maxSatisfying(configured, file.versionPragma);
      assert resolvedFiles[..i + 1] == resolvedFiles[..i] + [file];
      ghost var done := resolvedFiles[..i];
      GrowsOnce(env, configured, cache.files, done, file);
      hide Grouped, Grows, VyperBuildSpec.HasFileChanged;
      i := i + 1;
      if !hasChanged {
        GroupedSkip(env, configured, cache.files, done, file, versions, versionGroups, unmatchedFiles);
        continue;
      }
      if best.None? {
        GroupedUnmatched(env, configured, cache.files, done, file, versions, versionGroups, unmatchedFiles);
        unmatchedFiles := unmatchedFiles + [file];
        continue;
      }
      if best.value !in versionGroups {
        GroupedFirst(env, configured, cache.files, done, file, best.value, versions, versionGroups, unmatchedFiles);
        versions, versionGroups := versions + [best.value], versionGroups[best.value := [file]];
        continue;
      }
      GroupedFurther(env, configured, cache.files, done, file, best.value, versions, versionGroups, unmatchedFiles);
      versionGroups := versionGroups[best.value := versionGroups[best.value] + [file]];
    }
    assert resolvedFiles[..i] == resolvedFiles;
  }

  lemma GroupSnoc(env: Env, configured: seq<string>, cache: Cache, files: seq<ResolvedFile>, last: ResolvedFile, best: Option<string>)
    ensures Group(env, configured, cache, files + [last], best) ==
            if VyperBuildSpec.HasFileChanged(cache, last) && Best(env, configured, last) == best
            then Group(env, configured, cache, files, best) + [last] else Group(env, configured, cache, files, best)
  {
    assert (files + [last])[..|files|] == files;
  }

  /** Only the group `at` grows, by `last`; None for no group at all. */
  ghost predicate Grows(env: Env, configured: seq<string>, cache: Cache, files: seq<ResolvedFile>, last: ResolvedFile,
                        at: Option<Option<string>>) {
    forall best :: Group(env, configured, cache, files + [last], best) ==
      if at == Some(best) then Group(env, configured, cache, files, best) + [last] else Group(env, configured, cache, files, best)
  }

  lemma GrowsOnce(env: Env, configured: seq<string>, cache: Cache, files: seq<ResolvedFile>, last: ResolvedFile)
    ensures Grows(env, configured, cache, files, last,
                  if VyperBuildSpec.HasFileChanged(cache, last) then Some(Best(env, configured, last)) else None)
  {
    hide Group, VyperBuildSpec.HasFileChanged, Best;
    forall best
      ensures Group(env, configured, cache, files + [last], best) ==
              if VyperBuildSpec.HasFileChanged(cache, last) && Best(env, configured, last) == best
              then Group(env, configured, cache, files, best) + [last] else Group(env, configured, cache, files, best)
    {
      GroupSnoc(env, configured, cache, files, last, best);
    }
  }

  lemma GroupedSkip(env: Env, configured: seq<string>, cache: Cache, files: seq<ResolvedFile>, last: ResolvedFile,
                    versions: seq<string>, groups: map<string, seq<ResolvedFile>>, unmatched: seq<ResolvedFile>)
    requires Grouped(env, configured, cache, files, versions, groups, unmatched)
    requires Grows(env, configured, cache, files, last, None)
    ensures Grouped(env, configured, cache, files + [last], versions, groups, unmatched)
  {
    hide Group;
  }

  lemma GroupedUnmatched(env: Env, configured: seq<string>, cache: Cache, files: seq<ResolvedFile>, last: ResolvedFile,
                         versions: seq<string>, groups: map<string, seq<ResolvedFile>>, unmatched: seq<ResolvedFile>)
    requires Grouped(env, configured, cache, files, versions, groups, unmatched)
    requires Grows(env, configured, cache, files, last, Some(None))
    ensures Grouped(env, configured, cache, files + [last], versions, groups, unmatched + [last])
  {
    hide Group;
  }

  lemma GroupedFirst(env: Env, configured: seq<string>, cache: Cache, files: seq<ResolvedFile>, last: ResolvedFile, v: string,
                     versions: seq<string>, groups: map<string, seq<ResolvedFile>>, unmatched: seq<ResolvedFile>)
    requires Grouped(env, configured, cache, files, versions, groups, unmatched) && v !in groups
    requires Grows(env, configured, cache, files, last, Some(Some(v)))
    ensures Grouped(env, configured, cache, files + [last], versions + [v], groups[v := [last]], unmatched)
  {
    hide Group;
    assert Group(env, configured, cache, files, Some(v)) + [last] == [last];
    assert Group(env, configured, cache, files + [last], Some(v)) == [last];
    assert forall u | u != v :: Group(env, configured, cache, files + [last], Some(u)) == Group(env, configured, cache, files, Some(u));
    assert Group(env, configured, cache, files + [last], None) == Group(env, configured, cache, files, None);
    hide Grows;
    VersionAdded(versions, v);
  }

  lemma VersionAdded(versions: seq<string>, v: string)
    ensures forall u :: u in versions + [v] <==> u in versions || u == v
  {
  }

  lemma GroupedFurther(env: Env, configured: seq<string>, cache: Cache, files: seq<ResolvedFile>, last: ResolvedFile, v: string,
                       versions: seq<string>, groups: map<string, seq<ResolvedFile>>, unmatched: seq<ResolvedFile>)
    requires Grouped(env, configured, cache, files, versions, groups, unmatched) && v in groups
    requires Grows(env, configured, cache, files, last, Some(Some(v)))
    ensures Grouped(env, configured, cache, files + [last], versions, groups[v := groups[v] + [last]], unmatched)
  {
    hide Group;
  }

  /** `files.find((f) => f.sourceName === sourceName)`. */
  method FindFile(files: seq<ResolvedFile>, sourceName: string) returns (file: Option<ResolvedFile>)
    ensures file.None? <==> forall f <- files :: f.sourceName != sourceName
    ensures file.Some? ==> file.value in files && file.value.sourceName == sourceName
  {
    var i := 0;
    while i < |files|
      invariant 0 <= i <= |files|
      invariant forall j :: 0 <= j < i ==> files[j].sourceName != sourceName
    {
      if files[i].sourceName == sourceName {
        return Some(files[i]);
      }
      i := i + 1;
    }
    return None;
  }

  /** Compiling one group: an output for each input, stored and recorded. */
  method CompileGroup(env: Env, p: Project, version: string, files: seq<ResolvedFile>, cache: VyperFilesCache, disk: Disk)
    returns (after: Disk)
    requires AllFiles(env, p, files)
    requires forall f <- files :: Best(env, p.configured, f) == Some(version)
    modifies cache
    ensures AllMatched(env, p.configured, files)
    ensures State(cache.files, after) == RecordAll(env, p.configured, files, State(old(cache.files), disk))
  {
    after := disk;
    var i := 0;
    assert files[..0] == [];
    assert forall j :: 0 <= j < |files| ==> files[j] in files;
    while i < |files|
      invariant 0 <= i <= |files|
      invariant State(cache.files, after) == RecordAll(env, p.configured, files[..i], State(old(cache.files), disk))
    {
      var sourceName := files[i].sourceName;
      var artifact := env.compile(version, sourceName, files[i].rawContent);
      after := after[(sourceName, ContractName(sourceName)) := artifact];
      var found := FindFile(files, sourceName);
      SamePathSameFile(env, p, files[i], found.value);
      var file := found.value;
      cache.AddFile(file.absolutePath,
        Entry(file.contentHash, file.sourceName, env.reported(version), file.versionPragma, [ContractName(sourceName)]));
      RecordSnoc(env, p.configured, files[..i], file, State(old(cache.files), disk));
      assert files[..i + 1] == files[..i] + [file];
      i := i + 1;
    }
    assert files[..i] == files;
  }

  lemma RecordSnoc(env: Env, configured: seq<string>, files: seq<ResolvedFile>, last: ResolvedFile, s: State)
    requires AllMatched(env, configured, files) && Best(env, configured, last).Some?
    ensures AllMatched(env, configured, files + [last])
    ensures RecordAll(env, configured, files + [last], s) == Record(env, configured, last, RecordAll(env, configured, files, s))
  {
    assert (files + [last])[..|files|] == files;
  }

  lemma MatchedAppend(env: Env, configured: seq<string>, first: seq<ResolvedFile>, second: seq<ResolvedFile>)
    requires AllMatched(env, configured, first) && AllMatched(env, configured, second)
    ensures AllMatched(env, configured, first + second)
  {
    hide Best;
  }

  lemma MatchedPrefix(env: Env, configured: seq<string>, files: seq<ResolvedFile>)
    requires AllMatched(env, configured, files) && files != []
    ensures AllMatched(env, configured, files[..|files| - 1]) && Best(env, configured, files[|files| - 1]).Some?
  {
    hide Best;
    assert files[|files| - 1] in files;
  }

  lemma Regroup(first: seq<ResolvedFile>, second: seq<ResolvedFile>)
    requires second != []
    ensures first + second == (first + second[..|second| - 1]) + [second[|second| - 1]]
  {
  }

  lemma {:induction false} RecordAppend(env: Env, configured: seq<string>, first: seq<ResolvedFile>, second: seq<ResolvedFile>, s: State)
    requires AllMatched(env, configured, first) && AllMatched(env, configured, second)
    ensures AllMatched(env, configured, first + second)
    ensures RecordAll(env, configured, first + second, s) == RecordAll(env, configured, second, RecordAll(env, configured, first, s))
  {
    hide AllMatched, Best, Record;
    MatchedAppend(env, configured, first, second);
    if second == [] {
      assert first + second == first;
    } else {
      var rest, last := second[..|second| - 1], second[|second| - 1];
      MatchedPrefix(env, configured, second);
      RecordAppend(env, configured, first, rest, s);
      Regroup(first, second);
      RecordSnoc(env, configured, first + rest, last, s);
    }
  }

  // ----- a whole run -----

  lemma MembersOfGroup(env: Env, configured: seq<string>, cache: Cache, files: seq<ResolvedFile>, best: Option<string>, f: ResolvedFile)
    ensures f in Group(env, configured, cache, files, best) <==>
              f in files && VyperBuildSpec.HasFileChanged(cache, f) && Best(env, configured, f) == best
  {
    GroupMembers(env, configured, cache, files, best, f);
    assert f in Group(env, configured, cache, files, best) <==> multiset(Group(env, configured, cache, files, best))[f] > 0;
    assert f in files <==> multiset(files)[f] > 0;
  }

  /** Without an unmatched file the groups hold exactly the changed files. */
  lemma GroupsCover(env: Env, configured: seq<string>, cache: Cache, files: seq<ResolvedFile>,
                    versions: seq<string>, groups: map<string, seq<ResolvedFile>>, unmatched: seq<ResolvedFile>, f: ResolvedFile)
    requires Grouped(env, configured, cache, files, versions, groups, unmatched)
    ensures f in unmatched <==> f in ChangedFiles(cache, files) && Best(env, configured, f).None?
    ensures (exists v :: v in versions && f in groups[v]) <==> f in ChangedFiles(cache, files) && Best(env, configured, f).Some?
    ensures forall v <- versions :: f in groups[v] ==> Best(env, configured, f) == Some(v)
  {
    hide Group, ChangedFiles, Best, VyperBuildSpec.HasFileChanged;
    ChangedMembers(cache, files, f);
    MembersOfGroup(env, configured, cache, files, None, f);
    forall v | v in versions
      ensures f in groups[v] <==> f in ChangedFiles(cache, files) && Best(env, configured, f) == Some(v)
    {
      MembersOfGroup(env, configured, cache, files, Some(v), f);
    }
    if f in ChangedFiles(cache, files) && Best(env, configured, f).Some? {
      var v := Best(env, configured, f).value;
      MembersOfGroup(env, configured, cache, files, Some(v), f);
      assert v in versions;
    }
  }

  /** The compile loop over the groups. */
  method CompileGroups(env: Env, p: Project, versions: seq<string>, versionGroups: map<string, seq<ResolvedFile>>,
                       cache: VyperFilesCache, disk: Disk, ghost changed: seq<ResolvedFile>)
    returns (after: Disk)
    requires AllFiles(env, p, changed) && AllMatched(env, p.configured, changed)
    requires forall v <- versions :: v in versionGroups
    requires forall f :: f in changed <==> exists v :: v in versions && f in versionGroups[v]
    requires forall v <- versions, f <- versionGroups[v] :: Best(env, p.configured, f) == Some(v)
    modifies cache
    ensures State(cache.files, after) == RecordAll(env, p.configured, changed, State(old(cache.files), disk))
  {
    after := disk;
    ghost var s := State(cache.files, disk);
    ghost var done: seq<ResolvedFile> := [];
    var i := 0;
    assert forall v <- versions :: AllFilesFor(env, p, versionGroups[v], v) by {
      forall v | v in versions
        ensures AllFilesFor(env, p, versionGroups[v], v)
      {
        assert forall f <- versionGroups[v] :: f in changed;
      }
    }
    hide Best, IsFile, RecordAll, AllFilesFor, AllFiles, AllMatched;
    assert RecordAll(env, p.configured, done, s) == s && AllMatched(env, p.configured, done) by { RecordNothing(env, p.configured, s); }
    while i < |versions|
      invariant 0 <= i <= |versions|
      invariant forall f :: f in done <==> exists j :: 0 <= j < i && f in versionGroups[versions[j]]
      invariant AllMatched(env, p.configured, done)
      invariant State(cache.files, after) == RecordAll(env, p.configured, done, s)
    {
      var files := versionGroups[versions[i]];
      assert versions[i] in versions;
      GroupReady(env, p, files, versions[i]);
      after := CompileGroup(env, p, versions[i], files, cache, after);
      RecordAppend(env, p.configured, done, files, s);
      DoneWith(versions, versionGroups, done, i);
      done := done + files;
      i := i + 1;
    }
    SameMembers(versions, versionGroups, changed, done);
    GroupingIsIrrelevant(env, p, changed, done, s);
  }

  ghost predicate AllFilesFor(env: Env, p: Project, files: seq<ResolvedFile>, version: string) {
    AllFiles(env, p, files) && forall f <- files :: Best(env, p.configured, f) == Some(version)
  }

  lemma GroupReady(env: Env, p: Project, files: seq<ResolvedFile>, version: string)
    requires AllFilesFor(env, p, files, version)
    ensures AllFiles(env, p, files) && AllMatched(env, p.configured, files)
    ensures forall f <- files :: Best(env, p.configured, f) == Some(version)
  {
    hide IsFile, Best;
  }

  lemma DoneWith(versions: seq<string>, groups: map<string, seq<ResolvedFile>>, done: seq<ResolvedFile>, i: nat)
    requires i < |versions| && forall v <- versions :: v in groups
    requires forall f :: f in done <==> exists j :: 0 <= j < i && f in groups[versions[j]]
    ensures versions[i] in groups
    ensures forall f :: f in done + groups[versions[i]] <==> exists j :: 0 <= j < i + 1 && f in groups[versions[j]]
  {
  }

  lemma RecordNothing(env: Env, configured: seq<string>, s: State)
    ensures AllMatched(env, configured, []) && RecordAll(env, configured, [], s) == s
  {
  }

  lemma SameMembers(versions: seq<string>, groups: map<string, seq<ResolvedFile>>, changed: seq<ResolvedFile>, done: seq<ResolvedFile>)
    requires forall v <- versions :: v in groups
    requires forall f :: f in changed <==> exists v :: v in versions && f in groups[v]
    requires forall f :: f in done <==> exists j :: 0 <= j < |versions| && f in groups[versions[j]]
    ensures forall f :: f in changed <==> f in done
  {
    forall f
      ensures f in changed <==> f in done
    {
      if f in changed {
        var v :| v in versions && f in groups[v];
        var j :| 0 <= j < |versions| && versions[j] == v;
        assert f in groups[versions[j]];
      }
    }
  }

  datatype Outcome = Completed(after: State) | TestDirective | NoCompiler(files: seq<ResolvedFile>)

  /** The compile task.  The cache file and the artifacts directory are values; only
      a completed run replaces them. */
  method CompileVyper(env: Env, s: State, p: Project) returns (outcome: Outcome)
    requires CollisionFree(env) && ProjectOk(env, p) && Inv(env, s)
    ensures outcome.Completed? <==> Completes(env, s, p)
    ensures outcome.Completed? ==> outcome.after == Build(env, s, p)
    ensures outcome.TestDirective? <==> !NoTestMode(env, p)
    ensures outcome.NoCompiler? ==>
              outcome.files != [] &&
              forall f :: f in outcome.files <==> f in Changed(env, s, p) && Best(env, p.configured, f).None?
  {
    var cache := new VyperFilesCache(s.cache);
    cache.RemoveNonExistingFiles(p.contents);
    var parser := new Parser(cache);
    InvKnowsPragmas(env, s, p);
    var files := ResolveAll(env, p, parser);
    if files.None? {
      return TestDirective;
    }
    var resolvedFiles := files.value;
    InvalidateCacheMissingArtifacts(env, cache, s.disk, resolvedFiles);
    assert cache.files == Prepared(env, s, p).cache;
    var versions, versionGroups, unmatchedFiles := GroupFiles(env, p.configured, cache, resolvedFiles);
    assert AllFiles(env, p, Changed(env, s, p)) by { ChangedAreFiles(env, s, p); }
    GroupsOfRun(env, s, p, versions, versionGroups, unmatchedFiles);
    hide CollisionFree, Inv, Prepared, Changed, Best, IsFile, RecordAll, Resolved, Grouped, TestMode, NoTestMode;
    if |unmatchedFiles| > 0 {
      assert unmatchedFiles[0] in unmatchedFiles;
      return NoCompiler(unmatchedFiles);
    }
    var after := CompileGroups(env, p, versions, versionGroups, cache, s.disk, Changed(env, s, p));
    PreparedDisk(env, s, p);
    return Completed(State(cache.files, after));
  }

  lemma PreparedDisk(env: Env, s: State, p: Project)
    requires ProjectOk(env, p)
    ensures Prepared(env, s, p) == State(Prepared(env, s, p).cache, s.disk)
  {
  }

  lemma InvKnowsPragmas(env: Env, s: State, p: Project)
    requires Inv(env, s)
    ensures var cache := VyperBuildSpec.RemoveNonExistingFiles(s.cache, p.contents);
            forall path <- cache :: Agrees(env, cache[path].contentHash, cache[path].versionPragma)
  {
    hide AbsolutePath, ContractName, MadeBy, Agrees;
    forall path | path in s.cache
      ensures Agrees(env, s.cache[path].contentHash, s.cache[path].versionPragma)
    {
      assert EntryOk(env, s.disk, path, s.cache[path]);
    }
  }

  lemma GroupsOfRun(env: Env, s: State, p: Project, versions: seq<string>, groups: map<string, seq<ResolvedFile>>,
                    unmatched: seq<ResolvedFile>)
    requires ProjectOk(env, p)
    requires Grouped(env, p.configured, Prepared(env, s, p).cache, Resolved(env, p), versions, groups, unmatched)
    ensures forall v <- versions :: v in groups
    ensures forall f :: f in unmatched <==> f in Changed(env, s, p) && Best(env, p.configured, f).None?
    ensures forall v <- versions, f <- groups[v] :: Best(env, p.configured, f) == Some(v)
    ensures forall f :: f in Changed(env, s, p) && Best(env, p.configured, f).Some? <==> exists v :: v in versions && f in groups[v]
  {
    assert forall v <- versions :: v in groups;
    hide Prepared, Resolved, Group, ChangedFiles, Best, Grouped;
    forall f
      ensures f in unmatched <==> f in Changed(env, s, p) && Best(env, p.configured, f).None?
      ensures (exists v :: v in versions && f in groups[v]) <==> f in Changed(env, s, p) && Best(env, p.configured, f).Some?
      ensures forall v <- versions :: f in groups[v] ==> Best(env, p.configured, f) == Some(v)
    {
      GroupsCover(env, p.configured, Prepared(env, s, p).cache, Resolved(env, p), versions, groups, unmatched, f);
    }
  }
}
