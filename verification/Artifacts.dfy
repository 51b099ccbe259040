/** The `Artifacts` object: every query answers what it would without its cache,
    whatever sequence of saves, queries, clean-ups and cache calls came before. */
module ArtifactsObject {
  import opened Prelude
  import opened ContractNames
  import opened TrueCase
  import opened ArtifactStore

  datatype Cache = Cache(
    artifactPaths: Option<set<Path>>,
    debugFilePaths: Option<set<Path>>,
    buildInfoPaths: Option<set<Path>>,
    artifactNameToArtifactPath: map<string, Path>,
    artifactFqnToBuildInfoPath: map<string, Path>)

  const EMPTY: Cache := Cache(None, None, None, map[], map[])

  datatype ValidArtifacts = ValidArtifacts(sourceName: string, artifacts: seq<string>)

  predicate Remembers(cached: Option<set<Path>>, files: set<Path>) {
    cached.None? || cached.value == files
  }

  /** The listings of debug files and build infos are cached as before. */
  predicate SameListings(before: Option<Cache>, after: Option<Cache>) {
    && (before.Some? <==> after.Some?)
    && (before.Some? ==>
          && before.value.debugFilePaths == after.value.debugFilePaths
          && before.value.buildInfoPaths == after.value.buildInfoPaths)
  }

  /** Every name the object has been told is valid. */
  function NamesOf(v: ValidArtifacts): seq<string> {
    seq(|v.artifacts|, i requires 0 <= i < |v.artifacts| => GetFullyQualifiedName(v.sourceName, v.artifacts[i]))
  }

  function ValidNames(vs: seq<ValidArtifacts>): seq<string> {
    if vs == [] then [] else NamesOf(vs[0]) + ValidNames(vs[1..])
  }

  ghost predicate AllFound(fs: Listing, disk: Disk, names: seq<string>) {
    forall n <- names :: FindArtifact(fs, disk, n).Found?
  }

  /** The paths the valid names stand for. */
  function ValidPaths(names: seq<string>): set<Path> {
    set n | n in names && FormArtifactPath(n).Some? :: FormArtifactPath(n).value
  }

  class Artifacts {
    const fs: Listing
    // the artifacts directory, changed only through this object
    var disk: Disk
    var cache: Option<Cache>
    var validArtifacts: seq<ValidArtifacts>

    constructor (fs: Listing, disk: Disk)
      ensures Coherent() && this.disk == disk && this.fs == fs && validArtifacts == []
    {
      this.fs := fs;
      this.disk := disk;
      cache := Some(EMPTY);
      validArtifacts := [];
    }

    ghost predicate NamesRemembered()
      reads this
    {
      cache.Some? ==> forall n <- cache.value.artifactNameToArtifactPath ::
        FindArtifact(fs, disk, n) == Found(cache.value.artifactNameToArtifactPath[n])
    }

    ghost predicate BuildInfosRemembered()
      reads this
    {
      cache.Some? ==> forall n <- cache.value.artifactFqnToBuildInfoPath ::
        FindBuildInfo(disk, n) == BuildInfoAt(cache.value.artifactFqnToBuildInfoPath[n])
    }

    /** Whatever the cache holds is what is on disk. */
    ghost predicate Coherent()
      reads this
    {
      && NamesRemembered() && BuildInfosRemembered()
      && (cache.Some? ==>
            && Remembers(cache.value.artifactPaths, ArtifactsOn(disk))
            && Remembers(cache.value.debugFilePaths, DebugFilesOn(disk))
            && Remembers(cache.value.buildInfoPaths, BuildInfosOn(disk)))
    }

    method AddValidArtifacts(valid: seq<ValidArtifacts>)
      requires Coherent()
      modifies this`validArtifacts
      ensures Coherent() && validArtifacts == old(validArtifacts) + valid
    {
      validArtifacts := validArtifacts + valid;
    }

    /** Clearing never re-enables a disabled cache. */
    method ClearCache()
      modifies this`cache
      ensures Coherent() && (cache.Some? <==> old(cache).Some?) && (cache.Some? ==> cache.value == EMPTY)
    {
      if cache.None? {
        return;
      }
      cache := Some(EMPTY);
    }

    method DisableCache()
      modifies this`cache
      ensures Coherent() && cache.None?
    {
      cache := None;
    }

    method GetArtifactPaths() returns (paths: set<Path>)
      requires cache.Some? ==> Remembers(cache.value.artifactPaths, ArtifactsOn(disk))
      modifies this`cache
      ensures paths == ArtifactsOn(disk) && (old(Coherent()) ==> Coherent())
      ensures cache == if old(cache).None? then None else Some(old(cache).value.(artifactPaths := Some(paths)))
    {
      if cache.Some? && cache.value.artifactPaths.Some? {
        return cache.value.artifactPaths.value;
      }
      paths := ArtifactsOn(disk);
      if cache.Some? {
        cache := Some(cache.value.(artifactPaths := Some(paths)));
      }
    }

    method GetDebugFilePaths() returns (paths: set<Path>)
      requires cache.Some? ==> Remembers(cache.value.debugFilePaths, DebugFilesOn(disk))
      modifies this`cache
      ensures paths == DebugFilesOn(disk)
      ensures cache == if old(cache).None? then None else Some(old(cache).value.(debugFilePaths := Some(paths)))
    {
      if cache.Some? && cache.value.debugFilePaths.Some? {
        return cache.value.debugFilePaths.value;
      }
      paths := DebugFilesOn(disk);
      if cache.Some? {
        cache := Some(cache.value.(debugFilePaths := Some(paths)));
      }
    }

    method GetBuildInfoPaths() returns (paths: set<Path>)
      requires cache.Some? ==> Remembers(cache.value.buildInfoPaths, BuildInfosOn(disk))
      modifies this`cache
      ensures paths == BuildInfosOn(disk)
      ensures cache == if old(cache).None? then None else Some(old(cache).value.(buildInfoPaths := Some(paths)))
    {
      if cache.Some? && cache.value.buildInfoPaths.Some? {
        return cache.value.buildInfoPaths.value;
      }
      paths := BuildInfosOn(disk);
      if cache.Some? {
        cache := Some(cache.value.(buildInfoPaths := Some(paths)));
      }
    }

    /** `_getArtifactPath`: only a found path is remembered, though a failed search
        may have remembered the list of artifacts. */
    method GetArtifactPath(name: string) returns (r: Lookup)
      requires Coherent()
      modifies this`cache
      ensures Coherent() && SameListings(old(cache), cache)
      ensures r == FindArtifact(fs, disk, name)
    {
      if cache.Some? && name in cache.value.artifactNameToArtifactPath {
        return Found(cache.value.artifactNameToArtifactPath[name]);
      }
      if IsFullyQualifiedName(name) {
        r := FindByFullyQualifiedName(name);
      } else {
        var files := GetArtifactPaths();
        r := PickNamed(NamedFiles(files, name), name);
      }
      if r.Found? && cache.Some? {
        cache := Some(cache.value.(
          artifactNameToArtifactPath := cache.value.artifactNameToArtifactPath[name := r.path]));
      }
    }

    /** `_getValidArtifactPathFromFullyQualifiedName`; when nothing is found it lists
        the artifacts to suggest names. */
    method FindByFullyQualifiedName(name: string) returns (r: Lookup)
      requires Coherent() && IsFullyQualifiedName(name)
      modifies this`cache
      ensures Coherent() && SameListings(old(cache), cache)
      ensures r == FindArtifact(fs, disk, name)
    {
      var path := FormArtifactPath(name);
      if path.None? {
        return InvalidName;
      }
      var found := GetFileTrueCase(fs, disk.Keys, [], path.value);
      if found.None? {
        var _ := GetArtifactPaths();
        return NotFound;
      }
      if path != found {
        return WrongCasing(found.value);
      }
      r := Found(path.value);
    }

    /** `_getArtifactPathFromFiles` on the files with the right base name. */
    method PickNamed(files: set<Path>, name: string) returns (r: Lookup)
      requires files == NamedFiles(ArtifactsOn(disk), name) && !IsFullyQualifiedName(name)
      ensures r == FindArtifact(fs, disk, name)
    {
      if |files| == 0 {
        return NotFound;
      }
      if |files| > 1 {
        return MultipleFound(files);
      }
      OnlyOne(files);
      var p :| p in files;
      r := Found(p);
    }

    /** `getBuildInfo` up to the path it reads. */
    method GetBuildInfoPath(fqn: string) returns (r: BuildInfoLookup)
      requires Coherent()
      modifies this`cache
      ensures Coherent() && (cache.Some? <==> old(cache).Some?)
      ensures r == FindBuildInfo(disk, fqn)
    {
      if cache.Some? && fqn in cache.value.artifactFqnToBuildInfoPath {
        return BuildInfoAt(cache.value.artifactFqnToBuildInfoPath[fqn]);
      }
      var path := FormArtifactPath(fqn);
      if path.None? {
        return InvalidFqn;
      }
      var found := BuildInfoFromDebugFile(disk, DebugFilePath(path.value));
      if found.None? {
        return NoBuildInfo;
      }
      if cache.Some? {
        cache := Some(cache.value.(
          artifactFqnToBuildInfoPath := cache.value.artifactFqnToBuildInfoPath[fqn := found.value]));
      }
      r := BuildInfoAt(found.value);
    }

    /** `saveArtifactAndDebugFile`; the debug file points to the build info. */
    method SaveArtifactAndDebugFile(sourceName: string, contractName: string, text: string, pathToBuildInfo: Option<Path>)
      returns (saved: bool)
      modifies this`disk, this`cache
      ensures Coherent() && (cache.Some? <==> old(cache).Some?)
      ensures var path := FormArtifactPath(GetFullyQualifiedName(sourceName, contractName));
              if path.None? then !saved && disk == old(disk)
              else saved && disk == Saved(old(disk), path.value, text, pathToBuildInfo)
    {
      var path := FormArtifactPath(GetFullyQualifiedName(sourceName, contractName));
      saved := path.Some?;
      if path.Some? {
        disk := WithFolders(disk, path.value);
        disk := disk[path.value := Plain(text)];
        if pathToBuildInfo.Some? {
          var debugFile := Debug(Relative(Dirname(path.value), pathToBuildInfo.value));
          disk := disk[DebugFilePath(path.value) := debugFile];
        }
      }
      ClearCache();
    }

    method SaveBuildInfo(name: string, text: string) returns (path: Path)
      modifies this`disk, this`cache
      ensures Coherent() && (cache.Some? <==> old(cache).Some?)
      ensures path == ["build-info", name + ".json"] && disk == WithFolders(old(disk), path)[path := Plain(text)]
    {
      path := ["build-info", name + ".json"];
      disk := WithFolders(disk, path);
      disk := disk[path := Plain(text)];
      ClearCache();
    }

    /** `removeObsoleteArtifacts`: it gives up, with nothing deleted, if and only if
        some valid artifact is not found under its exact path. */
    method RemoveObsoleteArtifacts() returns (done: bool)
      modifies this`disk, this`cache
      ensures Coherent() && (cache.Some? <==> old(cache).Some?)
      ensures done <==> AllFound(fs, old(disk), ValidNames(validArtifacts))
      ensures disk == if done then Cleaned(old(disk), ValidPaths(ValidNames(validArtifacts))) else old(disk)
      ensures done && IsTree(old(disk)) ==> FoundAfterExactly(fs, old(disk), ValidNames(validArtifacts))
    {
      if IsTree(disk) && AllFound(fs, disk, ValidNames(validArtifacts)) {
        ValidIsFoundAfterExactly(fs, disk, validArtifacts);
      }
      ClearCache();
      var names := ValidNames(validArtifacts);
      done := FindAll(names);
      if done {
        var valid := ValidPaths(names);
        var existing := GetArtifactPaths();
        RemoveArtifactFiles(existing - valid);
        RemoveObsoleteBuildInfos();
      }
      ClearCache();
    }

    /** Looking up every valid name, up to the first failure. */
    method FindAll(names: seq<string>) returns (all: bool)
      requires Coherent()
      modifies this`cache
      ensures Coherent() && SameListings(old(cache), cache)
      ensures all <==> AllFound(fs, disk, names)
    {
      var i := 0;
      while i < |names|
        invariant 0 <= i <= |names| && Coherent() && SameListings(old(cache), cache)
        invariant AllFound(fs, disk, names[..i])
      {
        var r := GetArtifactPath(names[i]);
        if !r.Found? {
          return false;
        }
        assert names[..i + 1] == names[..i] + [names[i]];
        i := i + 1;
      }
      assert names[..i] == names;
      return true;
    }

    /** `_removeArtifactFiles` for every obsolete artifact; the order does not matter. */
    method RemoveArtifactFiles(obsolete: set<Path>)
      modifies this`disk
      ensures disk == old(disk) - (obsolete + DebugFilesOf(obsolete))
    {
      var left := obsolete;
      while left != {}
        invariant left <= obsolete
        invariant disk == old(disk) - ((obsolete - left) + DebugFilesOf(obsolete - left))
        decreases left
      {
        var p :| p in left;
        assert obsolete - (left - {p}) == (obsolete - left) + {p};
        DebugFilesOfMore(obsolete - left, p);
        hide DebugFilesOf, DebugFilePath;
        MinusTwo(old(disk), obsolete - left + DebugFilesOf(obsolete - left), p, DebugFilePath(p),
                 obsolete - (left - {p}) + DebugFilesOf(obsolete - (left - {p})));
        disk := disk - {p};
        disk := disk - {DebugFilePath(p)};
        left := left - {p};
      }
      assert obsolete - left == obsolete;
    }

    /** `_removeObsoleteBuildInfos`. */
    method RemoveObsoleteBuildInfos()
      requires cache.Some? ==> Remembers(cache.value.debugFilePaths, DebugFilesOn(disk))
      requires cache.Some? ==> Remembers(cache.value.buildInfoPaths, BuildInfosOn(disk))
      modifies this`disk, this`cache
      ensures disk == WithoutUnusedBuildInfos(old(disk)) && (cache.Some? <==> old(cache).Some?)
    {
      var debugFiles := GetDebugFilePaths();
      var inUse := set d | d in debugFiles && BuildInfoFromDebugFile(disk, d).Some? :: BuildInfoFromDebugFile(disk, d).value;
      var buildInfos := GetBuildInfoPaths();
      assert inUse == BuildInfosInUse(disk);
      disk := disk - (buildInfos - inUse);
    }
  }

  /** `ensureDir` for the folder of `p`. */
  function WithFolders(disk: Disk, p: Path): Disk {
    var folders := set i | 0 < i < |p| :: p[..i];
    map q | q in disk.Keys + folders :: if q in disk then disk[q] else Folder
  }

  function Saved(disk: Disk, path: Path, text: string, pathToBuildInfo: Option<Path>): Disk {
    var d := WithFolders(disk, path)[path := Plain(text)];
    if pathToBuildInfo.None? then d
    else d[DebugFilePath(path) := Debug(Relative(Dirname(path), pathToBuildInfo.value))]
  }

  lemma OnlyOne<T>(s: set<T>)
    requires |s| == 1
    ensures exists x :: s == {x}
  {
    var x :| x in s;
    assert |s - {x}| == 0;
    assert s == {x};
  }

  lemma MinusTwo(m: Disk, x: set<Path>, p: Path, q: Path, y: set<Path>)
    requires y == x + {p} + {q}
    ensures m - x - {p} - {q} == m - y
  {
  }

  lemma DebugFilesOfMore(s: set<Path>, p: Path)
    ensures DebugFilesOf(s + {p}) == DebugFilesOf(s) + {DebugFilePath(p)}
  {
  }

  /** The nodes that saving the contract in `dir` adds, beyond folders and itself. */
  function DebugFileFor(dir: Path, contractName: string): Path {
    dir + [contractName + ".dbg.json"]
  }

  /** Right after saving, a contract is found under its name if and only if no earlier
      entry of some folder on the way, its own debug file included, has its name up
      to case; its build info is found through its debug file in any case. */
  lemma SavedIsFoundExactly(fs: Listing, disk: Disk, sourceName: string, contractName: string, text: string, buildInfo: Path)
    requires NormalSourceName(sourceName) && PlainContractName(contractName) && PlainPath(buildInfo)
    ensures var fqn := GetFullyQualifiedName(sourceName, contractName);
            var path := Split(sourceName, '/') + [contractName + ".json"];
            && FormArtifactPath(fqn) == Some(path)
            && var after := Saved(disk, path, text, Some(buildInfo));
            && after[path] == Plain(text)
            && FindBuildInfo(after, fqn) == BuildInfoAt(buildInfo)
            && (FindArtifact(fs, after, fqn) == Found(path) <==>
                  !Shadowed(fs, disk.Keys, path) && !Shadowed(fs, {DebugFileFor(Split(sourceName, '/'), contractName)}, path))
  {
    ArtifactPathRoundTrip(sourceName, contractName);
    var dir := Split(sourceName, '/');
    var path, debugFile := dir + [contractName + ".json"], DebugFileFor(dir, contractName);
    SavedIsWritten(disk, dir, contractName, text, buildInfo);
    FqnHasColon(sourceName, contractName);
    hide FormArtifactPath, Saved, Split, GetFullyQualifiedName, IsFullyQualifiedName, Walk, Shadowed, Exists;
    var after := Saved(disk, path, text, Some(buildInfo));
    WalkIsExact(fs, after.Keys, path);
    ExistsItself(after.Keys, path);
    SavedShadows(fs, disk.Keys, path, debugFile, after.Keys);
  }

  lemma ExistsItself(nodes: set<Path>, p: Path)
    requires p in nodes
    ensures Exists(nodes, p)
  {
    assert p <= p;
  }

  /** What saving writes. */
  lemma SavedIsWritten(disk: Disk, dir: Path, contractName: string, text: string, buildInfo: Path)
    requires PlainPath(dir) && PlainPath(buildInfo)
    ensures var path, debugFile := dir + [contractName + ".json"], DebugFileFor(dir, contractName);
            var after := Saved(disk, path, text, Some(buildInfo));
            && path in after && after[path] == Plain(text) && DebugFilePath(path) == debugFile
            && BuildInfoFromDebugFile(after, debugFile) == Some(buildInfo)
            && after.Keys == disk.Keys + (set i | 0 < i < |path| :: path[..i]) + {path, debugFile}
  {
    DebugFileOf(dir, contractName);
    var p, d := dir + [contractName + ".json"], DebugFileFor(dir, contractName);
    assert Dirname(p) == dir && Dirname(d) == dir;
    SameEnds(dir, contractName + ".json", dir, contractName + ".dbg.json");
    assert |contractName + ".json"| != |contractName + ".dbg.json"|;
    ResolveRelative(dir, buildInfo);
  }

  lemma SavedShadows(fs: Listing, nodes: set<Path>, path: Path, debugFile: Path, after: set<Path>)
    requires after == nodes + (set i | 0 < i < |path| :: path[..i]) + {path, debugFile}
    ensures Shadowed(fs, after, path) <==> Shadowed(fs, nodes, path) || Shadowed(fs, {debugFile}, path)
  {
    var own := (set i | 0 < i < |path| :: path[..i]) + {path};
    assert after == nodes + own + {debugFile};
    hide Shadowed;
    ShadowedUnion(fs, nodes + own, {debugFile}, path);
    ShadowedUnion(fs, nodes, own, path);
    NotShadowedByItself(fs, own, path);
  }

  lemma FqnHasColon(sourceName: string, contractName: string)
    ensures IsFullyQualifiedName(GetFullyQualifiedName(sourceName, contractName))
  {
    assert GetFullyQualifiedName(sourceName, contractName)[|sourceName|] == ':';
  }

  // ----- names that differ in case only -----

  /** A contract is found under its name if and only if its artifact exists and in no
      folder on the way an earlier entry has the wanted name up to case; the other
      answers name an existing path that is the wanted one up to case, or none. */
  lemma FoundExactly(fs: Listing, disk: Disk, sourceName: string, contractName: string)
    requires NormalSourceName(sourceName) && PlainContractName(contractName)
    ensures var path := Split(sourceName, '/') + [contractName + ".json"];
            var r := FindArtifact(fs, disk, GetFullyQualifiedName(sourceName, contractName));
            && (r == Found(path) <==> Exists(disk.Keys, path) && !Shadowed(fs, disk.Keys, path))
            && (r == Found(path) || r == NotFound || r.WrongCasing?)
            && (r.WrongCasing? ==> r.correct != path && SameUpToCase(fs, r.correct, path) && Exists(disk.Keys, r.correct))
  {
    ArtifactPathRoundTrip(sourceName, contractName);
    FqnHasColon(sourceName, contractName);
    var path := Split(sourceName, '/') + [contractName + ".json"];
    hide FormArtifactPath, Split, GetFullyQualifiedName, Walk, Shadowed, Exists, SameUpToCase;
    WalkIsExact(fs, disk.Keys, path);
    if Walk(fs, disk.Keys, [], path).Some? {
      WalkFindsUpToCase(fs, disk.Keys, [], path);
      assert [] + Walk(fs, disk.Keys, [], path).value == Walk(fs, disk.Keys, [], path).value;
    }
  }

  /** Of two contracts of a source whose files differ in case only, one is not found
      although both artifacts exist. */
  lemma OneOfTwoIsNotFound(fs: Listing, disk: Disk, sourceName: string, a: string, b: string)
    requires NormalSourceName(sourceName) && PlainContractName(a) && PlainContractName(b) && a != b
    requires fs.lower(a + ".json") == fs.lower(b + ".json")
    requires Split(sourceName, '/') + [a + ".json"] in disk && Split(sourceName, '/') + [b + ".json"] in disk
    ensures !AllFound(fs, disk, [GetFullyQualifiedName(sourceName, a), GetFullyQualifiedName(sourceName, b)])
  {
    FoundExactly(fs, disk, sourceName, a);
    FoundExactly(fs, disk, sourceName, b);
    SameSuffix(a, b, ".json");
    var dir := Split(sourceName, '/');
    var fqns := [GetFullyQualifiedName(sourceName, a), GetFullyQualifiedName(sourceName, b)];
    assert fqns[0] in fqns && fqns[1] in fqns;
    hide FindArtifact, FormArtifactPath, Split, GetFullyQualifiedName, Shadowed, Exists, Walk, SameUpToCase;
    OneTwinIsShadowed(fs, disk.Keys, dir, a + ".json", b + ".json");
  }

  const UPPER_TOKEN: Path := ["T.sol", "Token.json"]
  const LOWER_TOKEN: Path := ["T.sol", "token.json"]

  /** What saving the contracts `Token` and `token` of `T.sol` leaves. */
  const TOKENS: Disk :=
    Saved(Saved(map[], UPPER_TOKEN, "1", None), LOWER_TOKEN, "2", None)

  lemma TokenNodes()
    ensures TOKENS.Keys == {["T.sol"], UPPER_TOKEN, LOWER_TOKEN} && TOKENS[LOWER_TOKEN] == Plain("2")
  {
    assert forall p: Path :: |p| == 2 ==> (set i | 0 < i < |p| :: p[..i]) == {p[..1]};
    assert UPPER_TOKEN[..1] == ["T.sol"] && LOWER_TOKEN[..1] == ["T.sol"];
  }

  lemma TokenEntries(nodes: set<Path>)
    requires nodes == {["T.sol"], UPPER_TOKEN, LOWER_TOKEN}
    ensures Entries(nodes, []) == {"T.sol"} && Entries(nodes, ["T.sol"]) == {"Token.json", "token.json"}
  {
    assert forall p <- nodes :: |p| > 0 && p[0] == "T.sol" && p[..0] == [] && p[..1] == ["T.sol"];
    assert ["T.sol"] in nodes && UPPER_TOKEN in nodes && LOWER_TOKEN in nodes;
    assert UPPER_TOKEN[1] == "Token.json" && LOWER_TOKEN[1] == "token.json";
  }

  lemma TokenLetters()
    ensures LowerAscii("Token.json") == LowerAscii("token.json") && Alphabetical("Token.json", "token.json")
  {
    assert "Token.json"[1..] == "oken.json" == "token.json"[1..];
  }

  lemma TokenSource()
    ensures NormalSourceName("T.sol") && Split("T.sol", '/') == ["T.sol"]
  {
    SplitPlain("T.sol", '/');
  }

  lemma PlainToken()
    ensures PlainContractName("token")
  {
    NoDotIsPlain("token");
  }

  lemma TokenPath()
    ensures FormArtifactPath("T.sol:token") == Some(LOWER_TOKEN)
  {
    TokenSource();
    PlainToken();
    TokenStrings();
    hide Split, NormalSourceName, FormArtifactPath, PlainContractName, GetFullyQualifiedName;
    ArtifactPathRoundTrip("T.sol", "token");
    assert ["T.sol"] + ["token.json"] == LOWER_TOKEN;
  }

  lemma TokenStrings()
    ensures GetFullyQualifiedName("T.sol", "token") == "T.sol:token" && "token" + ".json" == "token.json"
    ensures IsFullyQualifiedName("T.sol:token") && "Token.json" != "token.json"
  {
    assert "Token.json"[0] != "token.json"[0] && "T.sol:token"[5] == ':';
  }

  lemma TokenWalk(nodes: set<Path>)
    requires nodes == {["T.sol"], UPPER_TOKEN, LOWER_TOKEN}
    ensures Walk(ASCII, nodes, [], LOWER_TOKEN) == Some(UPPER_TOKEN)
  {
    TokenMatches();
    TokenEntries(nodes);
    hide FirstMatch, Entries, Walk;
    TwoLevels(ASCII, nodes, "T.sol", "token.json", "T.sol", "Token.json");
  }

  lemma TokenMatches()
    ensures FirstMatch(ASCII, {"T.sol"}, "T.sol") == Some("T.sol")
    ensures FirstMatch(ASCII, {"Token.json", "token.json"}, "token.json") == Some("Token.json")
  {
    TokenLetters();
    hide FirstMatch, LowerAscii, Alphabetical;
    FirstMatchIs(ASCII, {"T.sol"}, "T.sol", "T.sol");
    FirstMatchIs(ASCII, {"Token.json", "token.json"}, "token.json", "Token.json");
  }

  lemma TwoLevels(fs: Listing, nodes: set<Path>, a: string, b: string, x: string, y: string)
    requires FirstMatch(fs, Entries(nodes, []), a) == Some(x) && FirstMatch(fs, Entries(nodes, [x]), b) == Some(y)
    ensures Walk(fs, nodes, [], [a, b]) == Some([x, y])
  {
    hide FirstMatch, Entries;
    assert [a, b][1..] == [b] && [] + [x] == [x] && [x] + [y] == [x, y];
    assert Walk(fs, nodes, [x], [b]) == Some([y]);
  }

  /** Right after saving both, looking `token` up is answered with the path of `Token`. */
  lemma TokenIsMistakenForItsTwin()
    ensures LOWER_TOKEN in TOKENS && FindArtifact(ASCII, TOKENS, "T.sol:token") == WrongCasing(UPPER_TOKEN)
  {
    TokenNodes();
    TokenPath();
    TokenStrings();
    hide FormArtifactPath, Saved, Walk, IsFullyQualifiedName;
    TokenWalk(TOKENS.Keys);
    assert UPPER_TOKEN[1] == "Token.json" && LOWER_TOKEN[1] == "token.json";
  }

  /** Every valid artifact is found as before, exactly unless the clean-up takes it. */
  ghost predicate FoundAfterExactly(fs: Listing, disk: Disk, names: seq<string>) {
    forall n <- names ::
      && FormArtifactPath(n).Some?
      && (FindArtifact(fs, Cleaned(disk, ValidPaths(names)), n) == FindArtifact(fs, disk, n)
          <==> !TakenThoughValid(disk, ValidPaths(names), FormArtifactPath(n).value))
  }

  lemma {:induction false} ValidNamesAreQualified(vs: seq<ValidArtifacts>)
    ensures forall n <- ValidNames(vs) :: IsFullyQualifiedName(n)
  {
    if vs != [] {
      ValidNamesAreQualified(vs[1..]);
      forall i | 0 <= i < |vs[0].artifacts|
        ensures IsFullyQualifiedName(NamesOf(vs[0])[i])
      {
        FqnHasColon(vs[0].sourceName, vs[0].artifacts[i]);
      }
    }
  }

  lemma ValidIsFoundAfterExactly(fs: Listing, disk: Disk, vs: seq<ValidArtifacts>)
    requires IsTree(disk) && AllFound(fs, disk, ValidNames(vs))
    ensures FoundAfterExactly(fs, disk, ValidNames(vs))
  {
    var names := ValidNames(vs);
    ValidNamesAreQualified(vs);
    forall n | n in names
      ensures FormArtifactPath(n).Some?
      ensures FindArtifact(fs, Cleaned(disk, ValidPaths(names)), n) == FindArtifact(fs, disk, n)
              <==> !TakenThoughValid(disk, ValidPaths(names), FormArtifactPath(n).value)
    {
      OneIsFoundAfterExactly(fs, disk, names, n);
    }
  }

  lemma OneIsFoundAfterExactly(fs: Listing, disk: Disk, names: seq<string>, n: string)
    requires IsTree(disk) && AllFound(fs, disk, names)
    requires n in names && IsFullyQualifiedName(n)
    ensures FormArtifactPath(n).Some?
    ensures FindArtifact(fs, Cleaned(disk, ValidPaths(names)), n) == FindArtifact(fs, disk, n)
            <==> !TakenThoughValid(disk, ValidPaths(names), FormArtifactPath(n).value)
  {
    var path, valid := FormArtifactPath(n).value, ValidPaths(names);
    var after := Cleaned(disk, valid);
    assert FindArtifact(fs, disk, n) == Found(path) && Walk(fs, disk.Keys, [], path) == Some(path);
    assert FindArtifact(fs, after, n) == Found(path) <==> Walk(fs, after.Keys, [], path) == Some(path);
    assert path != [];
    assert path in valid;
    hide Cleaned, ValidPaths, FormArtifactPath, TakenThoughValid, Shadowed, Exists, Walk, FindArtifact;
    WalkIsExact(fs, disk.Keys, path);
    WalkIsExact(fs, after.Keys, path);
    ExistingIsThere(disk, path);
    ValidSurvivesExactly(disk, valid, path);
    CleanedIsLess(disk, valid);
    if path in after {
      ExistsItself(after.Keys, path);
      if Shadowed(fs, after.Keys, path) {
        FewerShadowLess(fs, after.Keys, disk.Keys, path);
      }
    } else {
      TakenIsGone(disk, valid, path);
    }
  }

  lemma InsideIsFolder(disk: Disk, p: Path, q: Path)
    requires IsTree(disk) && q in disk && p != []
    ensures p <= q ==> p in disk && (p == q || disk[p] == Folder)
  {
    if p <= q {
      assert q[..|p|] == p;
      assert |p| == |q| ==> p == q;
    }
  }

  lemma ExistingIsThere(disk: Disk, p: Path)
    requires IsTree(disk) && Exists(disk.Keys, p) && p != []
    ensures p in disk
  {
    var q :| q in disk.Keys && p <= q;
    InsideIsFolder(disk, p, q);
  }

  lemma CleanedIsLess(disk: Disk, valid: set<Path>)
    ensures Cleaned(disk, valid).Keys <= disk.Keys
  {
  }

  lemma TakenIsGone(disk: Disk, valid: set<Path>, p: Path)
    requires IsTree(disk) && p in disk && p in valid && p != [] && p !in Cleaned(disk, valid)
    ensures !Exists(Cleaned(disk, valid).Keys, p)
  {
    ValidSurvivesExactly(disk, valid, p);
    CleanedIsLess(disk, valid);
    assert disk[p] != Folder;
    hide Cleaned, TakenThoughValid, IsTree;
    forall q | q in Cleaned(disk, valid).Keys
      ensures !(p <= q)
    {
      InsideIsFolder(disk, p, q);
    }
  }

  lemma StraySource()
    ensures Split("build-info/A.sol", '/') == ["build-info", "A.sol"]
  {
    SplitPlain("A.sol", '/');
    SplitFirst("build-info", '/', "A.sol");
    assert "build-info" + "/" + "A.sol" == "build-info/A.sol";
  }

  lemma PlainA()
    ensures PlainContractName("A")
  {
    assert forall i :: 0 <= i <= 1 ==> |"A"[i..]| < 5;
  }

  lemma StrayName()
    ensures FormArtifactPath("build-info/A.sol:A") == Some(STRAY_ARTIFACT)
  {
    StraySource();
    PlainA();
    hide Split, PlainContractName, FormArtifactPath;
    assert PlainPath(["build-info", "A.sol"]);
    ArtifactPathRoundTrip("build-info/A.sol", "A");
    assert GetFullyQualifiedName("build-info/A.sol", "A") == "build-info/A.sol:A" && "A" + ".json" == "A.json";
    assert ["build-info", "A.sol"] + ["A.json"] == STRAY_ARTIFACT;
  }

  const ONLY_INFO: Disk := map[BUILD_INFO_DIR := Folder, INFO := Plain("{}")]

  lemma StrayFolders()
    ensures WithFolders(ONLY_INFO, STRAY_ARTIFACT) == map[BUILD_INFO_DIR := Folder, INFO := Plain("{}"), STRAY_DIR := Folder]
  {
    var folders := set i | 0 < i < |STRAY_ARTIFACT| :: STRAY_ARTIFACT[..i];
    assert STRAY_ARTIFACT[..1] == BUILD_INFO_DIR && STRAY_ARTIFACT[..2] == STRAY_DIR;
    assert folders == {BUILD_INFO_DIR, STRAY_DIR};
    assert "A.sol"[0] != "x.json"[0];
  }

  /** The disk of `StrayCleanUp` is what saving that contract leaves. */
  lemma StrayIsSaved()
    ensures Saved(ONLY_INFO, STRAY_ARTIFACT, "{}", Some(INFO)) == STRAY
  {
    StrayFolders();
    hide WithFolders;
    assert Dirname(STRAY_ARTIFACT) == STRAY_DIR;
    assert INFO[1..] == ["x.json"] && STRAY_DIR[1..] == ["A.sol"] && "A.sol"[0] != "x.json"[0];
    assert Relative(["A.sol"], ["x.json"]) == ["..", "x.json"];
    DebugFileOf(STRAY_DIR, "A");
    assert "A" + ".json" == "A.json" && "A" + ".dbg.json" == "A.dbg.json";
    assert STRAY_DIR + ["A.json"] == STRAY_ARTIFACT && STRAY_DIR + ["A.dbg.json"] == STRAY_DEBUG_FILE;
  }
}
