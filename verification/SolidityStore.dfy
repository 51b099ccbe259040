/** How the artifacts of the Solidity runs lie in the artifacts directory, and why the
    clean-up of a run is the clean-up of the `Artifacts` object. */
module SolidityStore {
  import opened Prelude
  import opened SolidityBuildSpec
  import opened SolidityRuns
  import opened ContractNames
  import opened TrueCase
  import opened ArtifactStore
  import opened ArtifactsObject

  type Directory = ArtifactStore.Disk

  /** The name of a source whose artifacts are listed: no segment is empty, `.` or `..`,
      none looks like a file of the directory, and the first is not `build-info...`. */
  predicate ProperSource(f: string) {
    && NormalSourceName(f) && !StartsWith(Split(f, '/')[0], "build-info")
    && forall i :: 0 <= i < |Split(f, '/')| ==> !EndsWith(Split(f, '/')[i], ".json")
  }

  /** A contract of such a source, its name without dots, colons and slashes. */
  predicate Proper(c: Contract) {
    ProperSource(c.source) && c.name != "" && ':' !in c.name && '/' !in c.name && '.' !in c.name
  }

  /** The compilers emit such contracts only. */
  ghost predicate EmitsProper(env: Env) {
    forall config, sources, f, n :: n in env.compile(config, sources, f) ==> Proper(Contract(f, n))
  }

  function Fqn(c: Contract): string {
    GetFullyQualifiedName(c.source, c.name)
  }

  /** The files of the proper contracts are those stored. */
  ghost predicate Holds(dir: Directory, disk: SolidityBuildSpec.Disk) {
    && (forall c <- Stored(disk) :: Proper(c))
    && (forall c | Proper(c) :: c in Stored(disk) <==> IsFile(dir, PathOf(c)))
    && (forall c <- Stored(disk) :: dir[PathOf(c)] == ArtifactStore.Plain(disk[c.source][c.name]))
  }

  /** The object has been told the names that the run has. */
  ghost predicate NamesAgree(valid: seq<ValidArtifacts>, named: set<Contract>) {
    && (forall c <- named :: Proper(c) && Fqn(c) in ValidNames(valid))
    && (forall n <- ValidNames(valid) :: exists c :: c in named && n == Fqn(c))
  }

  // ----- the paths of proper contracts -----

  lemma ProperIsPlain(c: Contract)
    requires Proper(c)
    ensures NormalSourceName(c.source) && PlainContractName(c.name)
    ensures FormArtifactPath(Fqn(c)) == Some(PathOf(c))
    ensures !EndsWith(c.name, ".dbg")
  {
    NoDotIsPlain(c.name);
    NoDotNoDebug(c.name);
    ArtifactPathRoundTrip(c.source, c.name);
  }

  lemma NoDotNoDebug(n: string)
    requires '.' !in n
    ensures !EndsWith(n, ".dbg")
  {
    if |n| >= 4 {
      assert n[|n| - 4..][0] == n[|n| - 4];
    }
  }

  lemma HasDot(n: string)
    ensures '.' in n + ".dbg"
  {
    assert (n + ".dbg")[|n|] == '.';
  }

  lemma ProperAreApart(c: Contract, d: Contract)
    requires Proper(c) && Proper(d)
    ensures PathOf(c) == PathOf(d) <==> c == d
    ensures DebugFilePath(PathOf(c)) != PathOf(d)
  {
    ProperIsPlain(c);
    ProperIsPlain(d);
    HasDot(c.name);
    hide *;
    DebugFileIsAnArtifactExactlyWhen(c.source, c.name, d.source, d.name);
    if c.source != d.source || c.name != d.name {
      DistinctContractsDistinctFiles(c.source, c.name, d.source, d.name);
    } else {
      assert c == d;
    }
  }

  /** The artifact is listed if and only if its file is there. */
  lemma ProperIsListed(dir: Directory, c: Contract)
    requires Proper(c)
    ensures PathOf(c) in ArtifactsOn(dir) <==> IsFile(dir, PathOf(c))
  {
    ProperIsPlain(c);
    ListedExactly(dir, c.source, c.name);
  }

  // ----- the clean-up -----

  lemma FoundInDirectory(fs: Listing, dir: Directory, c: Contract)
    requires Proper(c) && IsTree(dir)
    ensures FindArtifact(fs, dir, Fqn(c)).Found? <==> IsFile(dir, PathOf(c)) && !Shadowed(fs, dir.Keys, PathOf(c))
  {
    ProperIsPlain(c);
    FoundExactly(fs, dir, c.source, c.name);
    var p := PathOf(c);
    PathIsJson(c);
    if Exists(dir.Keys, p) {
      ExistingIsThere(dir, p);
    }
    if p in dir {
      ExistsItself(dir.Keys, p);
    }
    hide FindArtifact, Exists, Shadowed, FormArtifactPath, ProperSource;
  }

  lemma PathIsJson(c: Contract)
    ensures HasSuffix(PathOf(c), ".json")
  {
    var file := c.name + ".json";
    assert file[|file| - 5..] == ".json";
  }

  lemma PathsAreNodes(dir: Directory, disk: SolidityBuildSpec.Disk)
    requires Holds(dir, disk)
    ensures PathsOf(Stored(disk)) + dir.Keys == dir.Keys
  {
    hide Stored, Proper;
  }

  /** The object finds all it has been told are valid if and only if the run does. */
  lemma AllFoundAgrees(fs: Listing, dir: Directory, t: State, valid: seq<ValidArtifacts>)
    requires IsTree(dir) && Holds(dir, t.disk) && NamesAgree(valid, t.named)
    ensures ArtifactsObject.AllFound(fs, dir, ValidNames(valid)) <==> SolidityRuns.AllFound(Around(fs, dir.Keys), t)
  {
    PathsAreNodes(dir, t.disk);
    hide Stored, Proper, Fqn, IsTree, Shadowed, FindArtifact, ValidNames, PathsOf, PathOf;
    forall c | c in t.named
      ensures FindArtifact(fs, dir, Fqn(c)).Found? <==> c in Stored(t.disk) && !Shadowed(fs, dir.Keys, PathOf(c))
    {
      FoundInDirectory(fs, dir, c);
    }
  }

  lemma SweptStored(t: State)
    ensures Stored(Sweep(t)) == Stored(t.disk) * t.named
    ensures forall c <- Stored(Sweep(t)) :: Sweep(t)[c.source][c.name] == t.disk[c.source][c.name]
  {
    forall c: Contract
      ensures c in Stored(Sweep(t)) <==> c in Stored(t.disk) && c in t.named
      ensures c in Stored(Sweep(t)) ==> Sweep(t)[c.source][c.name] == t.disk[c.source][c.name]
    {
      StoredIs(Sweep(t), c);
      StoredIs(t.disk, c);
      assert c.name in SolidityBuildSpec.NamesOf(t.named, c.source) <==> c in t.named;
    }
  }

  lemma ValidPathsAre(valid: seq<ValidArtifacts>, named: set<Contract>, c: Contract)
    requires NamesAgree(valid, named) && Proper(c)
    ensures PathOf(c) in ValidPaths(ValidNames(valid)) <==> c in named
  {
    hide Proper, Fqn, ValidNames, FormArtifactPath, PathOf;
    ProperIsPlain(c);
    var names := ValidNames(valid);
    if c in named {
      assert Fqn(c) in names;
    }
    if PathOf(c) in ValidPaths(names) {
      var n :| n in names && FormArtifactPath(n).Some? && FormArtifactPath(n).value == PathOf(c);
      var d :| d in named && n == Fqn(d);
      ProperIsPlain(d);
      ProperAreApart(c, d);
    }
  }

  /** What the object leaves holds what the run leaves. */
  lemma CleanedAgrees(dir: Directory, t: State, valid: seq<ValidArtifacts>)
    requires Holds(dir, t.disk) && NamesAgree(valid, t.named)
    ensures Holds(Cleaned(dir, ValidPaths(ValidNames(valid))), Sweep(t))
  {
    var paths := ValidPaths(ValidNames(valid));
    var after := Cleaned(dir, paths);
    SweptStored(t);
    hide Stored, Proper, Fqn, ValidNames, ValidPaths, PathOf, Cleaned, Sweep, NamesAgree;
    forall c | Proper(c)
      ensures c in Stored(Sweep(t)) <==> IsFile(after, PathOf(c))
      ensures c in Stored(Sweep(t)) ==> after[PathOf(c)] == dir[PathOf(c)]
    {
      ValidPathsAre(valid, t.named, c);
      FileLeft(dir, paths, c);
    }
  }

  lemma FileLeft(dir: Directory, valid: set<ContractNames.Path>, c: Contract)
    requires Proper(c)
    ensures var p, after := PathOf(c), Cleaned(dir, valid);
            && (IsFile(after, p) <==> IsFile(dir, p) && p in valid)
            && (IsFile(after, p) ==> after[p] == dir[p])
  {
    var p, after := PathOf(c), Cleaned(dir, valid);
    ProperIsListed(dir, c);
    hide Cleaned, PathOf, Proper;
    if p in after {
      CleanedIsPart(dir, valid, p);
    }
    if IsFile(dir, p) {
      ArtifactKept(dir, valid, p);
    }
  }

  // ----- saving -----

  /** Every file of the directory is named like one, so new folders meet no file. */
  ghost predicate Tidy(dir: Directory) {
    IsTree(dir) && forall p <- dir :: dir[p] != Folder ==> HasSuffix(p, ".json")
  }

  /** Saving a proper contract stores it and nothing else. */
  lemma SavedHolds(dir: Directory, s: State, c: Contract, text: string, pathToBuildInfo: Option<ContractNames.Path>)
    requires Holds(dir, s.disk) && Proper(c)
    ensures Holds(Saved(dir, PathOf(c), text, pathToBuildInfo),
                  s.disk[c.source := Dir(s.disk, c.source) + map[c.name := text]])
  {
    var after := Saved(dir, PathOf(c), text, pathToBuildInfo);
    var disk := s.disk[c.source := Dir(s.disk, c.source) + map[c.name := text]];
    forall d: Contract
      ensures d in Stored(disk) <==> d in Stored(s.disk) || d == c
      ensures d in Stored(disk) ==> disk[d.source][d.name] == if d == c then text else s.disk[d.source][d.name]
    {
      StoredIs(disk, d);
      StoredIs(s.disk, d);
    }
    hide Stored, Proper, PathOf, Saved, Dir;
    forall d | Proper(d)
      ensures IsFile(after, PathOf(d)) <==> IsFile(dir, PathOf(d)) || d == c
      ensures IsFile(after, PathOf(d)) ==> after[PathOf(d)] == if d == c then ArtifactStore.Plain(text) else dir[PathOf(d)]
    {
      ProperAreApart(c, d);
      ProperAreApart(d, c);
      SavedAt(dir, PathOf(c), text, pathToBuildInfo, PathOf(d));
    }
  }

  lemma SavedAt(dir: Directory, path: ContractNames.Path, text: string, pathToBuildInfo: Option<ContractNames.Path>, p: ContractNames.Path)
    requires DebugFilePath(path) != p
    ensures var after := Saved(dir, path, text, pathToBuildInfo);
            && (IsFile(after, p) <==> IsFile(dir, p) || p == path)
            && (IsFile(after, p) ==> after[p] == if p == path then ArtifactStore.Plain(text) else dir[p])
  {
    hide DebugFilePath;
  }

  lemma FoldersAreTidy(dir: Directory, p: ContractNames.Path)
    requires Tidy(dir) && p != [] && HasSuffix(p, ".json")
    requires forall i :: 0 <= i < |p| - 1 ==> !EndsWith(p[i], ".json")
    ensures var after := WithFolders(dir, p);
            && Tidy(after) && (p in dir <==> p in after)
            && forall i :: 0 < i < |p| ==> p[..i] in after && after[p[..i]] == Folder
  {
    var after := WithFolders(dir, p);
    forall i | 0 < i < |p|
      ensures p[..i] in after && after[p[..i]] == Folder && !HasSuffix(p[..i], ".json")
    {
      assert p[..i][|p[..i]| - 1] == p[i - 1];
    }
    forall q | q in after && q !in dir
      ensures forall i :: 0 < i < |q| ==> q[..i] in after && after[q[..i]] == Folder
      ensures !HasSuffix(q, ".json") && !IsDebugFilePath(q) && after[q] == Folder
    {
      var k :| 0 < k < |p| && q == p[..k];
      assert forall i :: 0 < i < |q| ==> q[..i] == p[..i];
      DebugIsJson(q);
    }
  }

  lemma DebugIsJson(p: ContractNames.Path)
    ensures IsDebugFilePath(p) ==> HasSuffix(p, ".json")
  {
    if IsDebugFilePath(p) {
      var file := p[|p| - 1];
      assert file[|file| - 9..][4..] == file[|file| - 5..] && ".dbg.json"[4..] == ".json";
    }
  }

  lemma FileWritten(dir: Directory, p: ContractNames.Path, node: Node)
    requires Tidy(dir) && node != Folder && p != [] && HasSuffix(p, ".json")
    requires forall i :: 0 < i < |p| ==> p[..i] in dir && dir[p[..i]] == Folder
    ensures Tidy(dir[p := node])
  {
    forall q, i | q in dir[p := node] && 0 < i < |q|
      ensures q[..i] in dir && dir[q[..i]] == Folder && q[..i] != p
    {
      assert q == p || q in dir;
    }
  }

  lemma PlainEnds(f: string)
    requires ProperSource(f)
    ensures forall n: string, i :: 0 <= i < |PathOf(Contract(f, n))| - 1 ==> !EndsWith(PathOf(Contract(f, n))[i], ".json")
  {
  }

  lemma SavedIsTidy(dir: Directory, c: Contract, text: string, pathToBuildInfo: Option<ContractNames.Path>)
    requires Tidy(dir) && Proper(c)
    ensures Tidy(Saved(dir, PathOf(c), text, pathToBuildInfo))
  {
    var p := PathOf(c);
    PathIsJson(c);
    PlainEnds(c.source);
    DebugFileOf(Split(c.source, '/'), c.name);
    var d := DebugFilePath(p);
    assert HasSuffix(d, ".json") by {
      var file := c.name + ".dbg.json";
      assert file[|file| - 5..] == ".json";
    }
    assert |d| == |p| && forall i :: 0 < i < |p| ==> d[..i] == p[..i];
    hide Tidy, HasSuffix, DebugFilePath, PathOf;
    FoldersAreTidy(dir, p);
    var folders := WithFolders(dir, p);
    FileWritten(folders, p, ArtifactStore.Plain(text));
    if pathToBuildInfo.Some? {
      assert forall i :: 0 < i < |p| ==> |p[..i]| < |p|;
      FileWritten(folders[p := ArtifactStore.Plain(text)], d, Debug(Relative(Dirname(p), pathToBuildInfo.value)));
    }
  }

  /** Saving a build info stores no artifact. */
  lemma BuildInfoSaved(dir: Directory, disk: SolidityBuildSpec.Disk, name: string, text: string)
    requires Tidy(dir) && Holds(dir, disk)
    ensures var p := ["build-info", name + ".json"];
            var after := WithFolders(dir, p)[p := ArtifactStore.Plain(text)];
            Tidy(after) && Holds(after, disk)
  {
    var p := ["build-info", name + ".json"];
    var after := WithFolders(dir, p)[p := ArtifactStore.Plain(text)];
    assert HasSuffix(p, ".json") by {
      assert (name + ".json")[|name + ".json"| - 5..] == ".json";
    }
    NotJson();
    FoldersAreTidy(dir, p);
    FileWritten(WithFolders(dir, p), p, ArtifactStore.Plain(text));
    hide Stored, Tidy;
    forall c | Proper(c)
      ensures PathOf(c) != p && (IsFile(after, PathOf(c)) <==> IsFile(dir, PathOf(c)))
      ensures IsFile(after, PathOf(c)) ==> after[PathOf(c)] == dir[PathOf(c)]
    {
      NotBuildInfo(c);
    }
  }

  lemma NotJson()
    ensures !EndsWith("build-info", ".json")
  {
    assert "build-info"[5..] == "-info" && "-info"[0] != ".json"[0];
  }

  lemma NotBuildInfo(c: Contract)
    requires Proper(c)
    ensures PathOf(c)[0] != "build-info"
  {
    assert StartsWith("build-info", "build-info") by { assert "build-info"[..10] == "build-info"; }
  }

  // ----- which cache entries lack artifacts -----

  /** Some artifact of the entry is missing in the listing. */
  predicate Unlisted(entry: Entry, paths: set<ContractNames.Path>, f: string) {
    exists n <- entry.artifacts :: PathOfName(f, n).None? || PathOfName(f, n).value !in paths
  }

  function PathOfName(f: string, n: string): Option<ContractNames.Path> {
    FormArtifactPath(GetFullyQualifiedName(f, n))
  }

  /** `invalidateCacheMissingArtifacts`, with the listing it compares with. */
  ghost function InvalidateListed(cache: SolidityBuildSpec.Cache, paths: set<ContractNames.Path>, graph: set<string>): SolidityBuildSpec.Cache {
    map f | f in cache && !(f in graph && Unlisted(cache[f], paths, f)) :: cache[f]
  }

  ghost predicate NamesProper(cache: SolidityBuildSpec.Cache) {
    forall c <- NamesIn(cache) :: Proper(c)
  }

  /** For proper contracts the listing decides as what is stored does. */
  lemma InvalidateAgrees(dir: Directory, disk: SolidityBuildSpec.Disk, cache: SolidityBuildSpec.Cache, graph: set<string>)
    requires Holds(dir, disk) && NamesProper(cache)
    ensures InvalidateListed(cache, ArtifactsOn(dir), graph) == Invalidate(cache, disk, graph)
  {
    forall f | f in cache
      ensures Unlisted(cache[f], ArtifactsOn(dir), f) <==> Missing(cache[f], disk, f)
    {
      forall n | n in cache[f].artifacts
        ensures PathOfName(f, n).Some? && (PathOfName(f, n).value in ArtifactsOn(dir) <==> n in Dir(disk, f))
      {
        var c := Contract(f, n);
        assert c in NamesIn(cache);
        hide *;
        OneAgrees(dir, disk, c);
      }
    }
  }

  lemma OneAgrees(dir: Directory, disk: SolidityBuildSpec.Disk, c: Contract)
    requires Holds(dir, disk) && Proper(c)
    ensures PathOfName(c.source, c.name) == Some(PathOf(c))
    ensures PathOf(c) in ArtifactsOn(dir) <==> c.name in Dir(disk, c.source)
  {
    ProperIsPlain(c);
    hide Stored, PathOf, Proper;
    ProperIsListed(dir, c);
    StoredIs(disk, c);
  }

  /** A cached source in a folder whose name starts with `build-info` is invalidated in
      every run, whatever the directory holds: the listing leaves its artifacts out. */
  lemma BuildInfoSourceIsInvalidated(dir: Directory, cache: SolidityBuildSpec.Cache, graph: set<string>, f: string)
    requires NormalSourceName(f) && StartsWith(Split(f, '/')[0], "build-info")
    requires f in graph && f in cache && cache[f].artifacts != {}
    requires forall n <- cache[f].artifacts :: PlainContractName(n)
    ensures f !in InvalidateListed(cache, ArtifactsOn(dir), graph)
  {
    var n :| n in cache[f].artifacts;
    ListedExactly(dir, f, n);
  }
}
