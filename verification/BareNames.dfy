/** What looking up a contract by its bare name finds (artifacts.ts), in terms of the
    sources that have a listed artifact of a contract of exactly that name. */
module BareNames {
  import opened Prelude
  import opened ContractNames
  import opened TrueCase
  import opened ArtifactStore

  function PathFor(sourceName: string, contractName: string): Path {
    Split(sourceName, '/') + [contractName + ".json"]
  }

  /** The artifact of this contract of this source is listed. */
  ghost predicate HasArtifact(disk: Disk, sourceName: string, contractName: string) {
    NormalSourceName(sourceName) && PathFor(sourceName, contractName) in ArtifactsOn(disk)
  }

  /** Every listed artifact lies in the folder of a source. */
  ghost predicate InSources(disk: Disk) {
    forall p <- ArtifactsOn(disk) :: |p| > 1 && PlainPath(p)
  }

  lemma SourceOf(disk: Disk, p: Path) returns (s: string)
    requires InSources(disk) && p in ArtifactsOn(disk)
    ensures NormalSourceName(s) && Split(s, '/') == p[..|p| - 1]
  {
    var dir := p[..|p| - 1];
    assert PlainPath(p) && |p| > 1;
    assert forall i :: 0 <= i < |dir| ==> dir[i] == p[i] && ContractNames.Plain(dir[i]);
    s := Join(dir, '/');
    SplitJoin(dir, '/');
  }

  lemma OnePathEach(s: string, t: string, contractName: string)
    ensures PathFor(s, contractName) == PathFor(t, contractName) <==> s == t
  {
    SameEnds(Split(s, '/'), contractName + ".json", Split(t, '/'), contractName + ".json");
    JoinSplit(s, '/');
    JoinSplit(t, '/');
  }

  /** The candidates are exactly the artifacts of contracts of that name. */
  lemma CandidatesAre(disk: Disk, name: string, p: Path)
    requires InSources(disk)
    ensures p in NamedFiles(ArtifactsOn(disk), name) <==> exists s :: HasArtifact(disk, s, name) && p == PathFor(s, name)
  {
    hide Split, ArtifactsOn, InSources;
    if p in NamedFiles(ArtifactsOn(disk), name) {
      var s := SourceOf(disk, p);
      assert p == p[..|p| - 1] + [p[|p| - 1]];
      assert p == PathFor(s, name) && HasArtifact(disk, s, name);
    }
  }

  ghost predicate HaveTwo(disk: Disk, name: string) {
    exists s, t :: s != t && HasArtifact(disk, s, name) && HasArtifact(disk, t, name)
  }

  lemma AtMostOne(files: set<Path>, p: Path, q: Path)
    requires |files| <= 1 && p in files && q in files
    ensures p == q
  {
    if p != q {
      assert {p, q} <= files;
      MoreThan(files, p, q);
    }
  }

  lemma MoreThan(files: set<Path>, p: Path, q: Path)
    requires p in files && q in files && p != q
    ensures |files| > 1
  {
    assert |files - {p}| == |files| - 1 && q in files - {p};
  }

  lemma TwoOf(files: set<Path>) returns (p: Path, q: Path)
    requires |files| > 1
    ensures p in files && q in files && p != q
  {
    p :| p in files;
    assert |files - {p}| > 0;
    q :| q in files - {p};
  }

  lemma FindByName(fs: Listing, disk: Disk, name: string)
    requires ':' !in name
    ensures var files, r := NamedFiles(ArtifactsOn(disk), name), FindArtifact(fs, disk, name);
            && (files == {} ==> r == NotFound)
            && (|files| > 1 ==> r == MultipleFound(files))
            && (files != {} && |files| <= 1 ==> r.Found? && r.path in files)
  {
    hide NamedFiles, ArtifactsOn, Walk;
  }

  /** Two sources have a contract of the name exactly if there are two candidates. */
  lemma TwoCandidates(disk: Disk, name: string)
    requires InSources(disk)
    ensures |NamedFiles(ArtifactsOn(disk), name)| > 1 <==> HaveTwo(disk, name)
    ensures NamedFiles(ArtifactsOn(disk), name) == {} <==> forall s :: !HasArtifact(disk, s, name)
  {
    var files := NamedFiles(ArtifactsOn(disk), name);
    hide NamedFiles, ArtifactsOn, InSources, HasArtifact, PathFor;
    if |files| > 1 {
      var p, q := TwoOf(files);
      CandidatesAre(disk, name, p);
      CandidatesAre(disk, name, q);
      var s :| HasArtifact(disk, s, name) && p == PathFor(s, name);
      var t :| HasArtifact(disk, t, name) && q == PathFor(t, name);
      OnePathEach(s, t, name);
    }
    if HaveTwo(disk, name) {
      var s, t :| s != t && HasArtifact(disk, s, name) && HasArtifact(disk, t, name);
      CandidatesAre(disk, name, PathFor(s, name));
      CandidatesAre(disk, name, PathFor(t, name));
      OnePathEach(s, t, name);
      MoreThan(files, PathFor(s, name), PathFor(t, name));
    }
    if s :| HasArtifact(disk, s, name) {
      CandidatesAre(disk, name, PathFor(s, name));
    }
    if p :| p in files {
      CandidatesAre(disk, name, p);
    }
  }

  /** A bare name finds the artifact of a source if and only if that source, and no other,
      has a listed artifact of a contract of exactly that name; it finds nothing if and
      only if no source has one; and it is ambiguous if and only if two have, with
      exactly their artifacts as candidates. */
  lemma BareNameExactly(fs: Listing, disk: Disk, name: string)
    requires ':' !in name && InSources(disk)
    ensures var r := FindArtifact(fs, disk, name);
            && (r == NotFound <==> forall s :: !HasArtifact(disk, s, name))
            && (forall s :: NormalSourceName(s) ==>
                  (r == Found(PathFor(s, name)) <==>
                     HasArtifact(disk, s, name) && forall t :: HasArtifact(disk, t, name) ==> t == s))
            && (r.MultipleFound? <==> HaveTwo(disk, name))
            && (r.MultipleFound? ==>
                  forall p :: p in r.candidates <==> exists s :: HasArtifact(disk, s, name) && p == PathFor(s, name))
            && (r == NotFound || r.Found? || r.MultipleFound?)
  {
    var files, r := NamedFiles(ArtifactsOn(disk), name), FindArtifact(fs, disk, name);
    FindByName(fs, disk, name);
    TwoCandidates(disk, name);
    hide NamedFiles, ArtifactsOn, InSources, HasArtifact, PathFor, FindArtifact, NormalSourceName;
    forall p
      ensures p in files <==> exists s :: HasArtifact(disk, s, name) && p == PathFor(s, name)
    {
      CandidatesAre(disk, name, p);
    }
    forall s | NormalSourceName(s)
      ensures r == Found(PathFor(s, name)) <==> HasArtifact(disk, s, name) && forall t :: HasArtifact(disk, t, name) ==> t == s
    {
      FoundAlone(fs, disk, name, s);
    }
  }

  lemma FoundAlone(fs: Listing, disk: Disk, name: string, s: string)
    requires ':' !in name && InSources(disk) && NormalSourceName(s)
    ensures FindArtifact(fs, disk, name) == Found(PathFor(s, name)) <==>
            HasArtifact(disk, s, name) && forall t :: HasArtifact(disk, t, name) ==> t == s
  {
    var files, r := NamedFiles(ArtifactsOn(disk), name), FindArtifact(fs, disk, name);
    FindByName(fs, disk, name);
    TwoCandidates(disk, name);
    hide NamedFiles, ArtifactsOn, InSources, HasArtifact, PathFor, FindArtifact, NormalSourceName;
    if r == Found(PathFor(s, name)) {
      CandidatesAre(disk, name, PathFor(s, name));
      var t :| HasArtifact(disk, t, name) && PathFor(s, name) == PathFor(t, name);
      OnePathEach(s, t, name);
    }
    if HasArtifact(disk, s, name) && forall t :: HasArtifact(disk, t, name) ==> t == s {
      assert !HaveTwo(disk, name) && files != {};
      CandidatesAre(disk, name, r.path);
    }
  }

  // ----- what the listings hold -----

  /** The file `package.json` of the directory is no artifact; a debug file is listed as
      one and not as an artifact; a build info is listed as one, and as neither. */
  lemma ListedByKind(disk: Disk, s: string, c: string, id: string)
    requires NormalSourceName(s)
    ensures ["package.json"] !in ArtifactsOn(disk)
    ensures Split(s, '/') + [c + ".dbg.json"] !in ArtifactsOn(disk)
    ensures Split(s, '/') + [c + ".dbg.json"] in DebugFilesOn(disk) <==> IsFile(disk, Split(s, '/') + [c + ".dbg.json"])
    ensures !EndsWith(c, ".dbg") ==> Split(s, '/') + [c + ".json"] !in DebugFilesOn(disk)
    ensures ["build-info", id + ".json"] in BuildInfosOn(disk) <==> IsFile(disk, ["build-info", id + ".json"])
    ensures ["build-info", id + ".json"] !in ArtifactsOn(disk)
    ensures Split(s, '/')[0] != "build-info" ==> Split(s, '/') + [c + ".json"] !in BuildInfosOn(disk)
  {
    var debugFile, info := c + ".dbg.json", id + ".json";
    assert debugFile[|debugFile| - 9..] == ".dbg.json" && info[|info| - 5..] == ".json";
    DebugSuffix(c);
    StartsItself();
  }

  lemma StartsItself()
    ensures StartsWith("build-info", "build-info")
  {
    assert "build-info"[..10] == "build-info";
  }
}
