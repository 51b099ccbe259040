/** The `Artifacts` class of artifacts.ts: path caches over the artifacts
    directory, and the clean-up of obsolete files.  A list that the source sorts is
    a set here: its elements are distinct, so the set determines the list. */
module ArtifactStore {
  import opened Prelude
  import opened ContractNames
  import opened TrueCase

  /** A debug file holds a path relative to its directory; other files are opaque. */
  datatype Node = Plain(text: string) | Debug(buildInfo: seq<string>) | Folder

  type Disk = map<Path, Node>

  predicate IsFile(disk: Disk, p: Path) {
    p in disk && disk[p] != Folder
  }

  /** Whatever lies inside something lies inside a folder, and no folder is named like
      an artifact or a debug file. */
  ghost predicate IsTree(disk: Disk) {
    && (forall p <- disk, i :: 0 < i < |p| ==> p[..i] in disk && disk[p[..i]] == Folder)
    && (forall p <- disk :: HasSuffix(p, ".json") || IsDebugFilePath(p) ==> disk[p] != Folder)
  }

  // ----- what the uncached queries answer -----

  predicate HasSuffix(p: Path, suffix: string) {
    p != [] && EndsWith(p[|p| - 1], suffix)
  }

  predicate IsArtifactPath(p: Path) {
    && HasSuffix(p, ".json") && p != ["package.json"]
    && !StartsWith(p[0], "build-info") && !HasSuffix(p, ".dbg.json")
  }

  predicate IsDebugFilePath(p: Path) {
    HasSuffix(p, ".dbg.json")
  }

  predicate IsBuildInfoPath(p: Path) {
    |p| > 1 && p[0] == "build-info" && HasSuffix(p, ".json")
  }

  function ArtifactsOn(disk: Disk): set<Path> {
    set p | p in disk && IsFile(disk, p) && IsArtifactPath(p)
  }

  function DebugFilesOn(disk: Disk): set<Path> {
    set p | p in disk && IsFile(disk, p) && IsDebugFilePath(p)
  }

  function BuildInfosOn(disk: Disk): set<Path> {
    set p | p in disk && IsFile(disk, p) && IsBuildInfoPath(p)
  }

  datatype Lookup =
    | Found(path: Path)
    | InvalidName
    | WrongCasing(correct: Path)
    | NotFound
    | MultipleFound(candidates: set<Path>)

  function NamedFiles(files: set<Path>, name: string): set<Path> {
    set p | p in files && p != [] && p[|p| - 1] == name + ".json"
  }

  /** `_getArtifactPath` without the cache. */
  ghost function FindArtifact(fs: Listing, disk: Disk, name: string): Lookup {
    if IsFullyQualifiedName(name) then
      var path := FormArtifactPath(name);
      if path.None? then InvalidName
      else
        var found := Walk(fs, disk.Keys, [], path.value);
        if found.None? then NotFound
        else if found != path then WrongCasing(found.value)
        else Found(path.value)
    else
      var files := NamedFiles(ArtifactsOn(disk), name);
      if files == {} then NotFound
      else if |files| > 1 then MultipleFound(files)
      else
        var p :| p in files; Found(p)
  }

  /** `path.relative` and `path.resolve` on lists of segments. */
  function Relative(from: Path, target: Path): seq<string> {
    if from != [] && target != [] && from[0] == target[0] then Relative(from[1..], target[1..])
    else Ups(|from|) + target
  }

  function Resolve(from: Path, relative: seq<string>): Path {
    Normalize(from + relative)
  }

  function Dirname(p: Path): Path {
    if p == [] then [] else p[..|p| - 1]
  }

  /** `_getBuildInfoFromDebugFile`. */
  function BuildInfoFromDebugFile(disk: Disk, debugFile: Path): Option<Path> {
    if debugFile in disk && disk[debugFile].Debug? then Some(Resolve(Dirname(debugFile), disk[debugFile].buildInfo)) else None
  }

  /** The path `getBuildInfo` reads, None for `undefined`; an invalid name is an error. */
  datatype BuildInfoLookup = BuildInfoAt(path: Path) | NoBuildInfo | InvalidFqn

  function FindBuildInfo(disk: Disk, fqn: string): BuildInfoLookup {
    var path := FormArtifactPath(fqn);
    if path.None? then InvalidFqn
    else
      var found := BuildInfoFromDebugFile(disk, DebugFilePath(path.value));
      if found.None? then NoBuildInfo else BuildInfoAt(found.value)
  }

  // ----- what a clean-up leaves -----

  ghost function DebugFilesOf(artifacts: set<Path>): set<Path> {
    set p | p in artifacts :: DebugFilePath(p)
  }

  ghost function WithoutObsolete(disk: Disk, valid: set<Path>): Disk {
    var obsolete := ArtifactsOn(disk) - valid;
    disk - (obsolete + DebugFilesOf(obsolete))
  }

  function BuildInfosInUse(disk: Disk): set<Path> {
    set d | d in DebugFilesOn(disk) && BuildInfoFromDebugFile(disk, d).Some? :: BuildInfoFromDebugFile(disk, d).value
  }

  ghost function WithoutUnusedBuildInfos(disk: Disk): Disk {
    disk - (BuildInfosOn(disk) - BuildInfosInUse(disk))
  }

  ghost function Cleaned(disk: Disk, valid: set<Path>): Disk {
    WithoutUnusedBuildInfos(WithoutObsolete(disk, valid))
  }

  /** No debug file lies among the build infos. */
  ghost predicate BuildInfosApart(disk: Disk) {
    forall p <- disk :: !(IsBuildInfoPath(p) && IsDebugFilePath(p))
  }

  lemma DebugFileFacts(p: Path)
    requires IsArtifactPath(p)
    ensures IsDebugFilePath(DebugFilePath(p)) && !IsArtifactPath(DebugFilePath(p))
    ensures !IsBuildInfoPath(p) && !IsBuildInfoPath(DebugFilePath(p))
  {
    var file := p[|p| - 1];
    var stem := file[..|file| - 5];
    assert (stem + ".dbg.json")[|stem|..] == ".dbg.json";
    assert |p| > 1 ==> p[0] != "build-info";
  }

  lemma DebugFilesDiffer(p: Path, q: Path)
    requires HasSuffix(p, ".json") && HasSuffix(q, ".json") && DebugFilePath(p) == DebugFilePath(q)
    ensures p == q
  {
    var a, b := p[|p| - 1], q[|q| - 1];
    var x, y := a[..|a| - 5], b[..|b| - 5];
    SameEnds(p[..|p| - 1], x + ".dbg.json", q[..|q| - 1], y + ".dbg.json");
    SameSuffix(x, y, ".dbg.json");
    assert a == x + ".json" && b == y + ".json";
    assert p == p[..|p| - 1] + [a] && q == q[..|q| - 1] + [b];
  }

  lemma NotADebugFileOf(disk: Disk, valid: set<Path>, p: Path)
    requires !IsDebugFilePath(p)
    ensures p !in DebugFilesOf(ArtifactsOn(disk) - valid)
  {
    hide DebugFilePath, IsDebugFilePath, IsArtifactPath;
    forall q | q in ArtifactsOn(disk) - valid
      ensures DebugFilePath(q) != p
    {
      ArtifactsOnArePaths(disk, q);
      DebugFileFacts(q);
    }
  }

  lemma ArtifactsOnArePaths(disk: Disk, q: Path)
    requires q in ArtifactsOn(disk)
    ensures q in disk && IsArtifactPath(q)
  {
  }

  lemma ArtifactKept(disk: Disk, valid: set<Path>, p: Path)
    requires p in ArtifactsOn(disk)
    ensures p in Cleaned(disk, valid) <==> p in valid
  {
    DebugFileFacts(p);
    assert !IsDebugFilePath(p);
    NotADebugFileOf(disk, valid, p);
    hide DebugFilesOf, IsDebugFilePath, IsArtifactPath, IsBuildInfoPath;
    assert p !in BuildInfosOn(WithoutObsolete(disk, valid));
  }

  lemma OwnDebugFileKept(disk: Disk, valid: set<Path>, p: Path)
    requires p in ArtifactsOn(disk) && p in valid && DebugFilePath(p) in disk
    ensures DebugFilePath(p) in Cleaned(disk, valid)
  {
    var d := DebugFilePath(p);
    DebugFileFacts(p);
    forall q | q in ArtifactsOn(disk) - valid
      ensures DebugFilePath(q) != d
    {
      OnlyItsOwn(disk, p, q);
    }
    hide DebugFilePath, IsDebugFilePath, IsArtifactPath, IsBuildInfoPath;
    assert d !in ArtifactsOn(disk) && d !in BuildInfosOn(WithoutObsolete(disk, valid));
  }

  lemma OnlyItsOwn(disk: Disk, p: Path, q: Path)
    requires p in ArtifactsOn(disk) && q in ArtifactsOn(disk)
    ensures DebugFilePath(q) == DebugFilePath(p) ==> p == q
  {
    if DebugFilePath(q) == DebugFilePath(p) {
      DebugFilesDiffer(q, p);
    }
  }

  lemma CleanedIsPart(disk: Disk, valid: set<Path>, p: Path)
    requires p in Cleaned(disk, valid)
    ensures p in disk && Cleaned(disk, valid)[p] == disk[p]
  {
    hide IsDebugFilePath, IsArtifactPath, IsBuildInfoPath, DebugFilePath, BuildInfoFromDebugFile;
  }

  /** After the clean-up the artifacts are exactly the previous valid ones, each
      with its debug file. */
  lemma ArtifactsLeft(disk: Disk, valid: set<Path>)
    ensures ArtifactsOn(Cleaned(disk, valid)) == ArtifactsOn(disk) * valid
    ensures forall p <- ArtifactsOn(Cleaned(disk, valid)) ::
              var d := DebugFilePath(p);
              d in disk ==> d in Cleaned(disk, valid) && Cleaned(disk, valid)[d] == disk[d]
  {
    var after := Cleaned(disk, valid);
    hide Cleaned, DebugFilePath, IsArtifactPath;
    forall p
      ensures p in ArtifactsOn(after) <==> p in ArtifactsOn(disk) && p in valid
    {
      if p in ArtifactsOn(disk) { ArtifactKept(disk, valid, p); }
      if p in after { CleanedIsPart(disk, valid, p); }
    }
    forall p | p in ArtifactsOn(after) && DebugFilePath(p) in disk
      ensures DebugFilePath(p) in after && after[DebugFilePath(p)] == disk[DebugFilePath(p)]
    {
      OwnDebugFileKept(disk, valid, p);
      CleanedIsPart(disk, valid, DebugFilePath(p));
    }
  }

  // ----- the build infos left -----

  /** `d` is a debug file on the disk that points to `b`. */
  ghost predicate PointsTo(disk: Disk, d: Path, b: Path) {
    d in DebugFilesOn(disk) && BuildInfoFromDebugFile(disk, d) == Some(b)
  }

  lemma InUseIsPointedTo(disk: Disk, b: Path)
    ensures b in BuildInfosInUse(disk) <==> exists d :: PointsTo(disk, d, b)
  {
    hide BuildInfoFromDebugFile;
    if b in BuildInfosInUse(disk) {
      var d :| d in DebugFilesOn(disk) && BuildInfoFromDebugFile(disk, d).Some? && BuildInfoFromDebugFile(disk, d).value == b;
      assert PointsTo(disk, d, b);
    }
  }

  lemma SameBuildInfos(disk: Disk, valid: set<Path>, b: Path)
    ensures b in BuildInfosOn(WithoutObsolete(disk, valid)) <==> b in BuildInfosOn(disk)
  {
    if b in BuildInfosOn(disk) {
      forall q | q in ArtifactsOn(disk) - valid
        ensures q != b && DebugFilePath(q) != b
      {
        DebugFileFacts(q);
      }
    }
  }

  /** Which of the build infos go: those no debug file points to once the obsolete
      artifacts and their debug files have gone. */
  lemma BuildInfoKept(disk: Disk, valid: set<Path>, b: Path)
    ensures b in BuildInfosOn(Cleaned(disk, valid)) <==>
            b in BuildInfosOn(disk) && b in BuildInfosInUse(WithoutObsolete(disk, valid))
  {
    SameBuildInfos(disk, valid, b);
    hide IsBuildInfoPath, WithoutObsolete, BuildInfosInUse;
  }

  /** A debug file outlives the second half of the clean-up unless it is itself an
      unused build info. */
  lemma DebugFileKept(disk: Disk, valid: set<Path>, d: Path, b: Path)
    ensures var mid := WithoutObsolete(disk, valid);
            PointsTo(Cleaned(disk, valid), d, b) <==>
            PointsTo(mid, d, b) && (!IsBuildInfoPath(d) || d in BuildInfosInUse(mid))
  {
    var mid := WithoutObsolete(disk, valid);
    hide IsBuildInfoPath, IsDebugFilePath, WithoutObsolete, BuildInfosInUse, Resolve;
    assert Cleaned(disk, valid) == WithoutUnusedBuildInfos(mid);
  }

  /** A debug file that is not itself an unused build info points to `b`. */
  ghost predicate HasLastingPointer(disk: Disk, b: Path) {
    exists d :: PointsTo(disk, d, b) && (!IsBuildInfoPath(d) || d in BuildInfosInUse(disk))
  }

  /** Every build info in use has such a debug file. */
  ghost predicate PointersStay(disk: Disk) {
    forall b <- BuildInfosOn(disk) * BuildInfosInUse(disk) :: HasLastingPointer(disk, b)
  }

  /** The build infos left are exactly the previous ones that some debug file left
      points to, if and only if no pointer is deleted as an unused build info. */
  lemma BuildInfosLeftExactly(disk: Disk, valid: set<Path>)
    ensures BuildInfosOn(Cleaned(disk, valid)) == BuildInfosOn(disk) * BuildInfosInUse(Cleaned(disk, valid))
       <==> PointersStay(WithoutObsolete(disk, valid))
  {
    var mid, after := WithoutObsolete(disk, valid), Cleaned(disk, valid);
    hide HasLastingPointer, WithoutObsolete, Cleaned, BuildInfosInUse, BuildInfosOn;
    forall b
      ensures b in BuildInfosOn(after) <==> b in BuildInfosOn(mid) && b in BuildInfosInUse(mid)
      ensures b in BuildInfosOn(disk) <==> b in BuildInfosOn(mid)
      ensures b in BuildInfosInUse(after) ==> b in BuildInfosInUse(mid)
      ensures b in BuildInfosInUse(after) <==> HasLastingPointer(mid, b)
    {
      BuildInfoKept(disk, valid, b);
      SameBuildInfos(disk, valid, b);
      StaysInUse(disk, valid, b);
    }
    if PointersStay(mid) {
      assert forall b :: b in BuildInfosOn(after) <==> b in BuildInfosOn(disk) * BuildInfosInUse(after);
    }
  }

  lemma StaysInUse(disk: Disk, valid: set<Path>, b: Path)
    ensures var mid, after := WithoutObsolete(disk, valid), Cleaned(disk, valid);
            && (b in BuildInfosInUse(after) ==> b in BuildInfosInUse(mid))
            && (b in BuildInfosInUse(after) <==> HasLastingPointer(mid, b))
  {
    var mid, after := WithoutObsolete(disk, valid), Cleaned(disk, valid);
    hide PointsTo, IsBuildInfoPath, WithoutObsolete, Cleaned, BuildInfosInUse;
    InUseIsPointedTo(mid, b);
    InUseIsPointedTo(after, b);
    forall d
      ensures PointsTo(after, d, b) <==> PointsTo(mid, d, b) && (!IsBuildInfoPath(d) || d in BuildInfosInUse(mid))
    {
      DebugFileKept(disk, valid, d, b);
    }
  }

  /** In particular when no debug file lies in the `build-info` folder. */
  lemma BuildInfosLeft(disk: Disk, valid: set<Path>)
    requires BuildInfosApart(disk)
    ensures BuildInfosOn(Cleaned(disk, valid)) == BuildInfosOn(disk) * BuildInfosInUse(Cleaned(disk, valid))
  {
    var mid := WithoutObsolete(disk, valid);
    BuildInfosLeftExactly(disk, valid);
    assert forall d :: d in mid ==> d in disk;
    hide WithoutObsolete, Cleaned, BuildInfosInUse, IsBuildInfoPath, IsDebugFilePath;
    forall b | b in BuildInfosOn(mid) * BuildInfosInUse(mid)
      ensures HasLastingPointer(mid, b)
    {
      InUseIsPointedTo(mid, b);
      var d :| PointsTo(mid, d, b);
      assert d in disk && IsDebugFilePath(d);
    }
  }

  /** What a clean-up takes although it is named valid: a path that is also that of
      the debug file of an obsolete artifact, and an unused one in the `build-info`
      folder; the artifacts of a source folder of that name go as unused build infos. */
  ghost predicate TakenThoughValid(disk: Disk, valid: set<Path>, p: Path) {
    || p in DebugFilesOf(ArtifactsOn(disk) - valid)
    || (IsFile(disk, p) && IsBuildInfoPath(p) && p !in BuildInfosInUse(WithoutObsolete(disk, valid)))
  }

  lemma ValidSurvivesExactly(disk: Disk, valid: set<Path>, p: Path)
    requires p in disk && p in valid
    ensures p in Cleaned(disk, valid) <==> !TakenThoughValid(disk, valid, p)
    ensures TakenThoughValid(disk, valid, p) ==> IsDebugFilePath(p) || IsBuildInfoPath(p)
  {
    forall q | q in ArtifactsOn(disk) - valid
      ensures IsDebugFilePath(DebugFilePath(q))
    {
      DebugFileFacts(q);
    }
  }

  // ----- a source folder named `build-info` -----

  const INFO: Path := ["build-info", "x.json"]
  const STRAY_ARTIFACT: Path := ["build-info", "A.sol", "A.json"]
  const STRAY_DEBUG_FILE: Path := ["build-info", "A.sol", "A.dbg.json"]

  const BUILD_INFO_DIR: Path := ["build-info"]
  const STRAY_DIR: Path := ["build-info", "A.sol"]

  /** What saving the contract `A` of the source `build-info/A.sol` leaves. */
  const STRAY: Disk := map[
    BUILD_INFO_DIR := Folder,
    INFO := Plain("{}"),
    STRAY_DIR := Folder,
    STRAY_ARTIFACT := Plain("{}"),
    STRAY_DEBUG_FILE := Debug(["..", "x.json"])
  ]

  lemma StrayPaths()
    ensures IsBuildInfoPath(INFO) && IsBuildInfoPath(STRAY_ARTIFACT) && IsBuildInfoPath(STRAY_DEBUG_FILE)
    ensures IsDebugFilePath(STRAY_DEBUG_FILE) && !IsDebugFilePath(INFO) && !IsDebugFilePath(STRAY_ARTIFACT)
    ensures forall p <- STRAY :: !(IsFile(STRAY, p) && IsArtifactPath(p))
  {
    assert "x.json"[1..] == ".json" && "A.json"[1..] == ".json" && "A.dbg.json"[5..] == ".json" && "A.dbg.json"[1..] == ".dbg.json";
    assert StartsWith("build-info", "build-info") by { assert "build-info"[..10] == "build-info"; }
    hide EndsWith, StartsWith;
    assert EndsWith("x.json", ".json") && EndsWith("A.json", ".json") && EndsWith("A.dbg.json", ".json") by { Endings(); }
    assert EndsWith("A.dbg.json", ".dbg.json") && !EndsWith("x.json", ".dbg.json") && !EndsWith("A.json", ".dbg.json") by { Endings(); }
  }

  lemma Endings()
    ensures EndsWith("x.json", ".json") && EndsWith("A.json", ".json") && EndsWith("A.dbg.json", ".json")
    ensures EndsWith("A.dbg.json", ".dbg.json") && !EndsWith("x.json", ".dbg.json") && !EndsWith("A.json", ".dbg.json")
  {
    assert "x.json"[1..] == ".json" && "A.json"[1..] == ".json";
    assert "A.dbg.json"[5..] == ".json" && "A.dbg.json"[1..] == ".dbg.json";
  }

  lemma StrayPointer()
    ensures BuildInfoFromDebugFile(STRAY, STRAY_DEBUG_FILE) == Some(INFO)
  {
    var dir: Path := ["build-info", "A.sol"];
    assert Dirname(STRAY_DEBUG_FILE) == dir;
    assert PlainPath(dir) && PlainPath(INFO);
    ResolveRelative(dir, INFO);
    assert dir[1..] == ["A.sol"] && INFO[1..] == ["x.json"] && "A.sol"[0] != "x.json"[0];
    assert Relative(["A.sol"], ["x.json"]) == ["..", "x.json"];
  }

  lemma StrayInUse(b: Path)
    ensures b in BuildInfosInUse(STRAY) <==> b == INFO
  {
    StrayPaths();
    StrayPointer();
    assert DebugFilesOn(STRAY) == {STRAY_DEBUG_FILE};
  }

  /** The artifact is not listed.  A clean-up deletes it, although it is named
      valid, and its debug file, and keeps the build info nothing points to now. */
  lemma StrayCleanUp()
    ensures ArtifactsOn(STRAY) == {}
    ensures Cleaned(STRAY, {STRAY_ARTIFACT}) == STRAY - {STRAY_ARTIFACT, STRAY_DEBUG_FILE}
    ensures BuildInfosOn(Cleaned(STRAY, {STRAY_ARTIFACT})) == {INFO}
    ensures BuildInfosInUse(Cleaned(STRAY, {STRAY_ARTIFACT})) == {}
  {
    StrayPaths();
    hide IsArtifactPath, IsDebugFilePath, IsBuildInfoPath, BuildInfoFromDebugFile, DebugFilePath;
    assert ArtifactsOn(STRAY) == {};
    assert DebugFilesOf({}) == {};
    assert WithoutObsolete(STRAY, {STRAY_ARTIFACT}) == STRAY;
    assert BuildInfosOn(STRAY) == {INFO, STRAY_ARTIFACT, STRAY_DEBUG_FILE};
    StrayInUse(INFO);
    StrayInUse(STRAY_ARTIFACT);
    StrayInUse(STRAY_DEBUG_FILE);
    assert STRAY_ARTIFACT != STRAY_DEBUG_FILE by { assert |STRAY_ARTIFACT[2]| != |STRAY_DEBUG_FILE[2]|; }
    assert |STRAY_ARTIFACT| != |INFO|;
    var after := Cleaned(STRAY, {STRAY_ARTIFACT});
    assert after == STRAY - {STRAY_ARTIFACT, STRAY_DEBUG_FILE};
    assert DebugFilesOn(after) == {};
  }

  /** Files that are neither obsolete, nor debug files of obsolete artifacts, nor
      unused build infos are left alone. */
  lemma NothingElseRemoved(disk: Disk, valid: set<Path>, p: Path)
    requires p in disk && !IsArtifactPath(p) && !IsDebugFilePath(p) && !IsBuildInfoPath(p)
    ensures p in Cleaned(disk, valid) && Cleaned(disk, valid)[p] == disk[p]
  {
    forall q | q in ArtifactsOn(disk) - valid
      ensures DebugFilePath(q) != p
    {
      DebugFileFacts(q);
    }
  }

  /** An artifact is in the listing, so can be found by its bare name and cleaned
      up, unless its first folder starts with `build-info` or its contract name ends
      in `.dbg`; under its qualified name it is found all the same. */
  lemma ListedExactly(disk: Disk, sourceName: string, contractName: string)
    requires NormalSourceName(sourceName) && PlainContractName(contractName)
    ensures var path := Split(sourceName, '/') + [contractName + ".json"];
            && FormArtifactPath(GetFullyQualifiedName(sourceName, contractName)) == Some(path)
            && (path in ArtifactsOn(disk) <==>
                  IsFile(disk, path) && !StartsWith(Split(sourceName, '/')[0], "build-info") && !EndsWith(contractName, ".dbg"))
  {
    ArtifactPathRoundTrip(sourceName, contractName);
    var dir, file := Split(sourceName, '/'), contractName + ".json";
    assert file[|file| - 5..] == ".json" && file[..|file| - 5] == contractName;
    DebugSuffix(contractName);
  }

  lemma DebugSuffix(name: string)
    ensures EndsWith(name + ".json", ".dbg.json") <==> EndsWith(name, ".dbg")
  {
    var file := name + ".json";
    if |name| >= 4 {
      assert file[|file| - 9..] == name[|name| - 4..] + ".json";
      SameSuffix(name[|name| - 4..], ".dbg", ".json");
      assert ".dbg" + ".json" == ".dbg.json";
    }
  }

  // ----- relative paths -----

  lemma NormalizeSnoc(s: seq<string>, segment: string)
    ensures Normalize(s + [segment]) == Push(Normalize(s), segment)
  {
    hide Push;
    assert (s + [segment])[..|s|] == s;
  }

  lemma PushPlain(p: Path, segment: string)
    requires ContractNames.Plain(segment)
    ensures Push(p, segment) == p + [segment]
  {
  }

  function Ups(k: nat): seq<string> {
    seq(k, _ => "..")
  }

  lemma UpsSnoc(p: Path, k: nat)
    requires k > 0
    ensures p + Ups(k) == (p + Ups(k - 1)) + [".."]
  {
  }

  lemma {:induction false} PopAll(p: Path, k: nat)
    requires PlainPath(p) && k <= |p|
    ensures Normalize(p + Ups(k)) == p[..|p| - k]
  {
    if k == 0 {
      assert p + Ups(k) == p;
      NormalizePlain(p);
    } else {
      PopAll(p, k - 1);
      hide Normalize, Ups;
      UpsSnoc(p, k);
      NormalizeSnoc(p + Ups(k - 1), "..");
      assert ContractNames.Plain(p[|p| - k]);
    }
  }

  lemma {:induction false} NormalizeMore(s: seq<string>, t: Path)
    requires PlainPath(t)
    ensures Normalize(s + t) == Normalize(s) + t
  {
    hide Normalize, Push, ContractNames.Plain;
    if t == [] {
      assert s + t == s && Normalize(s) + t == Normalize(s);
    } else {
      var rest, last := t[..|t| - 1], t[|t| - 1];
      NormalizeMore(s, rest);
      assert t == rest + [last];
      Regroup(s, rest, [last]);
      Regroup(Normalize(s), rest, [last]);
      NormalizeSnoc(s + rest, last);
      PushPlain(Normalize(s) + rest, last);
    }
  }

  /** Empty segments and `.` are dropped, and `..` takes the segment before it along,
      unless there is none. */
  lemma DotsAreResolved(p: Path, q: Path, dot: string)
    requires PlainPath(p) && PlainPath(q) && dot in ["", ".", ".."]
    ensures Normalize(p + [dot] + q) == (if dot != ".." then p else if p == [] then [".."] else p[..|p| - 1]) + q
  {
    NormalizePlain(p);
    NormalizeSnoc(p, dot);
    PushDot(p, dot);
    hide *;
    NormalizeMore(p + [dot], q);
  }

  lemma PushDot(p: Path, dot: string)
    requires PlainPath(p) && dot in ["", ".", ".."]
    ensures Push(p, dot) == if dot != ".." then p else if p == [] then [".."] else p[..|p| - 1]
  {
    assert p != [] ==> ContractNames.Plain(p[|p| - 1]);
    assert [] + [".."] == [".."];
  }

  lemma Regroup(a: seq<string>, b: seq<string>, c: seq<string>)
    ensures a + (b + c) == a + b + c
  {
  }

  lemma {:induction false} RelativeShape(from: Path, target: Path) returns (k: nat)
    ensures k <= |from| && k <= |target| && from[..k] == target[..k]
    ensures Relative(from, target) == Ups(|from| - k) + target[k..]
  {
    if from != [] && target != [] && from[0] == target[0] {
      var j := RelativeShape(from[1..], target[1..]);
      k := j + 1;
      assert from[..k] == [from[0]] + from[1..][..j] && target[..k] == [target[0]] + target[1..][..j];
    } else {
      k := 0;
    }
  }

  /** A debug file written for an artifact leads back to the build info it was given. */
  lemma ResolveRelative(from: Path, target: Path)
    requires PlainPath(from) && PlainPath(target)
    ensures Resolve(from, Relative(from, target)) == target
  {
    var k := RelativeShape(from, target);
    var ups := Ups(|from| - k);
    assert PlainPath(target[k..]);
    hide Relative, Normalize, PlainPath, Ups;
    PopAll(from, |from| - k);
    NormalizeMore(from + ups, target[k..]);
    Regroup(from, ups, target[k..]);
    assert from[..k] + target[k..] == target;
  }
}
