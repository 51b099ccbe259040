/** Replacing suggested names that are not unique by qualified names (artifacts.ts). */
module DuplicateNames {
  import opened Prelude
  import opened ContractNames
  import opened CountingObject
  import opened Suggestions

  function NameOf(file: Path): string
    requires file != []
  {
    WithoutJson(file[|file| - 1])
  }

  /** Artifact files whose base name is a contract name followed by `.json`. */
  ghost predicate FilesOk(files: seq<Path>) {
    && (forall i :: 0 <= i < |files| ==>
          |files[i]| > 1 && PlainContractName(NameOf(files[i])) && files[i][|files[i]| - 1] == NameOf(files[i]) + ".json")
    && (forall i, j :: 0 <= i < j < |files| ==> FqnFromPath(files[i]) != FqnFromPath(files[j]))
  }

  function FqnsNamed(files: seq<Path>, name: string): seq<string>
    requires forall i :: 0 <= i < |files| ==> files[i] != []
  {
    if files == [] then []
    else
      FqnsNamed(files[..|files| - 1], name) +
      if files[|files| - 1][|files[|files| - 1]| - 1] == name + ".json" then [FqnFromPath(files[|files| - 1])] else []
  }

  function Suggestion(files: seq<Path>, similar: seq<string>, name: string): seq<string>
    requires forall i :: 0 <= i < |files| ==> files[i] != []
  {
    if Count(similar, name) > 1 && !InheritedFunction(name) then FqnsNamed(files, name) else [name]
  }

  function SuggestionsFor(files: seq<Path>, similar: seq<string>, keys: seq<string>): seq<string>
    requires forall i :: 0 <= i < |files| ==> files[i] != []
  {
    if keys == [] then []
    else SuggestionsFor(files, similar, keys[..|keys| - 1]) + Suggestion(files, similar, keys[|keys| - 1])
  }

  /** `_filterDuplicatesAsFullyQualifiedNames`. */
  method FilterDuplicatesAsFullyQualifiedNames(files: seq<Path>, similarNames: seq<string>) returns (outputNames: seq<string>)
    requires forall i :: 0 <= i < |files| ==> files[i] != []
    ensures outputNames == SuggestionsFor(files, similarNames, Enumerated(WithoutProto(Keys(similarNames))))
  {
    hide *;
    var groups := CountNames(similarNames);
    var entries := Enumerated(groups.keys);
    outputNames := [];
    var i := 0;
    EnumeratedHolds(groups, similarNames);
    CountsKeys(groups, similarNames);
    NoSuggestions(files, similarNames, entries[..0]);
    while i < |entries|
      invariant 0 <= i <= |entries|
      invariant outputNames == SuggestionsFor(files, similarNames, entries[..i])
    {
      assert entries[i] in entries;
      SuggestionsSnoc(files, similarNames, entries, i);
      if MoreThanOnce(groups.tally[entries[i]]) {
        var fqns := PushNamed(files, entries[i]);
        outputNames := outputNames + fqns;
      } else {
        outputNames := outputNames + [entries[i]];
      }
      i := i + 1;
    }
    assert entries[..i] == entries;
  }

  lemma NoSuggestions(files: seq<Path>, similar: seq<string>, keys: seq<string>)
    requires keys == [] && forall i :: 0 <= i < |files| ==> files[i] != []
    ensures SuggestionsFor(files, similar, keys) == []
  {
  }

  lemma SuggestionsSnoc(files: seq<Path>, similar: seq<string>, keys: seq<string>, i: nat)
    requires i < |keys| && forall i :: 0 <= i < |files| ==> files[i] != []
    ensures SuggestionsFor(files, similar, keys[..i + 1]) ==
            SuggestionsFor(files, similar, keys[..i]) +
            if Count(similar, keys[i]) > 1 && !InheritedFunction(keys[i]) then FqnsNamed(files, keys[i]) else [keys[i]]
  {
    hide Count, InheritedFunction, FqnsNamed;
    assert keys[..i + 1][..i] == keys[..i];
  }

  method PushNamed(files: seq<Path>, name: string) returns (fqns: seq<string>)
    requires forall i :: 0 <= i < |files| ==> files[i] != []
    ensures fqns == FqnsNamed(files, name)
  {
    fqns := [];
    var i := 0;
    while i < |files|
      invariant 0 <= i <= |files|
      invariant fqns == FqnsNamed(files[..i], name)
    {
      assert files[..i + 1][..i] == files[..i] && files[..i + 1][i] == files[i];
      if files[i][|files[i]| - 1] == name + ".json" {
        fqns := fqns + [FqnFromPath(files[i])];
      }
      i := i + 1;
    }
    assert files[..i] == files;
  }

  // ----- the count is kept -----

  function Names(files: seq<Path>): seq<string>
    requires forall i :: 0 <= i < |files| ==> files[i] != []
  {
    seq(|files|, i requires 0 <= i < |files| => NameOf(files[i]))
  }

  lemma NamesSnoc(rest: seq<Path>, f: Path)
    requires f != [] && forall i :: 0 <= i < |rest| ==> rest[i] != []
    ensures Names(rest + [f]) == Names(rest) + [NameOf(f)]
  {
  }

  lemma FilesOkPrefix(files: seq<Path>)
    requires FilesOk(files) && files != []
    ensures FilesOk(files[..|files| - 1])
    ensures files[|files| - 1] != [] && files[|files| - 1][|files[|files| - 1]| - 1] == NameOf(files[|files| - 1]) + ".json"
  {
    hide NameOf, FqnFromPath, PlainContractName;
  }

  lemma FqnsNamedSnoc(rest: seq<Path>, f: Path, name: string)
    requires f != [] && forall i :: 0 <= i < |rest| ==> rest[i] != []
    ensures |FqnsNamed(rest + [f], name)| == |FqnsNamed(rest, name)| + if f[|f| - 1] == name + ".json" then 1 else 0
  {
    hide FqnFromPath;
    assert (rest + [f])[..|rest|] == rest;
  }

  lemma {:induction false} FqnsNamedCount(files: seq<Path>, name: string)
    requires FilesOk(files)
    ensures |FqnsNamed(files, name)| == Count(Names(files), name)
  {
    if files != [] {
      var rest, f := files[..|files| - 1], files[|files| - 1];
      assert files == rest + [f];
      FilesOkPrefix(files);
      assert forall i :: 0 <= i < |rest| ==> rest[i] != [];
      hide *;
      FqnsNamedCount(rest, name);
      NamesSnoc(rest, f);
      FqnsNamedSnoc(rest, f, name);
      CountSnoc(Names(rest), NameOf(f), name);
      SameSuffix(NameOf(f), name, ".json");
    }
  }

  lemma {:induction false} FqnsNamedMember(files: seq<Path>, name: string, s: string) returns (i: nat)
    requires forall i :: 0 <= i < |files| ==> files[i] != []
    requires s in FqnsNamed(files, name)
    ensures i < |files| && s == FqnFromPath(files[i]) && files[i][|files[i]| - 1] == name + ".json"
  {
    var rest, f := files[..|files| - 1], files[|files| - 1];
    hide FqnFromPath;
    if s in FqnsNamed(rest, name) {
      i := FqnsNamedMember(rest, name, s);
    } else {
      i := |rest|;
    }
  }

  /** All files that bear a suggested name are suggested: nearness depends on the name. */
  ghost predicate WholeGroups(files: seq<Path>, similar: seq<string>)
    requires forall i :: 0 <= i < |files| ==> files[i] != []
  {
    forall name <- similar :: Count(similar, name) == Count(Names(files), name)
  }

  lemma SuggestionLength(files: seq<Path>, similar: seq<string>, name: string)
    requires FilesOk(files) && WholeGroups(files, similar) && name in similar && name != PROTO
    ensures |Suggestion(files, similar, name)| == Kept(similar, name)
  {
    FqnsNamedCount(files, name);
    CountPresent(similar, name);
    assert Count(similar, name) == Count(Names(files), name);
    hide FilesOk, Names, Count, FqnsNamed, InheritedFunction, WholeGroups;
  }

  lemma {:induction false} LengthIsSumKept(files: seq<Path>, similar: seq<string>, keys: seq<string>)
    requires FilesOk(files) && WholeGroups(files, similar) && forall k <- keys :: k in similar
    ensures |SuggestionsFor(files, similar, WithoutProto(keys))| == SumKept(similar, keys)
  {
    if keys != [] {
      var rest, k := keys[..|keys| - 1], keys[|keys| - 1];
      assert k in keys && k in similar;
      assert forall i :: 0 <= i < |files| ==> files[i] != [];
      hide FilesOk, WholeGroups, Suggestion, InheritedFunction, Count;
      LengthIsSumKept(files, similar, rest);
      if k != PROTO {
        SuggestionLength(files, similar, k);
        assert WithoutProto(keys)[..|WithoutProto(rest)|] == WithoutProto(rest);
      } else {
        assert WithoutProto(rest) + [] == WithoutProto(rest);
      }
    }
  }

  lemma {:induction false} SuggestionsAppend(files: seq<Path>, similar: seq<string>, a: seq<string>, b: seq<string>)
    requires forall i :: 0 <= i < |files| ==> files[i] != []
    ensures SuggestionsFor(files, similar, a + b) == SuggestionsFor(files, similar, a) + SuggestionsFor(files, similar, b)
  {
    hide Suggestion;
    if b == [] {
      assert a + b == a;
    } else {
      SuggestionsAppend(files, similar, a, b[..|b| - 1]);
      assert (a + b)[..|a + b| - 1] == a + b[..|b| - 1];
    }
  }

  lemma OneSuggestion(files: seq<Path>, similar: seq<string>, k: string)
    requires forall i :: 0 <= i < |files| ==> files[i] != []
    ensures SuggestionsFor(files, similar, [k]) == Suggestion(files, similar, k)
  {
    hide Suggestion;
    assert [k][..0] == [] && SuggestionsFor(files, similar, []) == [];
  }

  lemma {:induction false} InsertedLength(files: seq<Path>, similar: seq<string>, indices: seq<string>, s: string)
    requires forall i :: 0 <= i < |files| ==> files[i] != []
    ensures |SuggestionsFor(files, similar, InsertIndex(indices, s))| ==
            |SuggestionsFor(files, similar, indices)| + |Suggestion(files, similar, s)|
  {
    hide IsIndex, Value, Suggestion, SuggestionsFor;
    OneSuggestion(files, similar, s);
    if indices == [] || Value(indices[|indices| - 1]) <= Value(s) {
      SuggestionsAppend(files, similar, indices, [s]);
      assert indices == [] ==> indices + [s] == [s];
    } else {
      var rest, last := indices[..|indices| - 1], indices[|indices| - 1];
      InsertedLength(files, similar, rest, s);
      SuggestionsAppend(files, similar, InsertIndex(rest, s), [last]);
      SuggestionsAppend(files, similar, rest, [last]);
      assert indices == rest + [last];
    }
  }

  lemma {:induction false} EnumeratedLength(files: seq<Path>, similar: seq<string>, keys: seq<string>)
    requires forall i :: 0 <= i < |files| ==> files[i] != []
    ensures |SuggestionsFor(files, similar, Enumerated(keys))| == |SuggestionsFor(files, similar, keys)|
  {
    if keys != [] {
      var rest, last := keys[..|keys| - 1], keys[|keys| - 1];
      assert keys == rest + [last];
      hide IsIndex, Suggestion, SuggestionsFor;
      EnumeratedLength(files, similar, rest);
      SuggestionsAppend(files, similar, rest, [last]);
      SuggestionsAppend(files, similar, Indices(rest), Others(rest));
      SuggestionsAppend(files, similar, Indices(keys), Others(keys));
      OneSuggestion(files, similar, last);
      if IsIndex(last) {
        InsertedLength(files, similar, Indices(rest), last);
        assert Others(rest) + [] == Others(rest);
      } else {
        SuggestionsAppend(files, similar, Others(rest), [last]);
      }
    } else {
      assert Enumerated(keys) == [];
    }
  }

  /** What the user is offered for the names `similar`. */
  function Offered(files: seq<Path>, similar: seq<string>): seq<string>
    requires forall i :: 0 <= i < |files| ==> files[i] != []
  {
    SuggestionsFor(files, similar, Enumerated(WithoutProto(Keys(similar))))
  }

  /** Replacing the duplicates keeps the number of suggestions if and only if the
      object can count the names; otherwise there are fewer. */
  lemma AsManySuggestionsExactly(files: seq<Path>, similar: seq<string>)
    requires FilesOk(files) && WholeGroups(files, similar)
    ensures |Offered(files, similar)| <= |similar|
    ensures |Offered(files, similar)| == |similar| <==> Countable(similar)
  {
    KeysSum(similar);
    var keys := Keys(similar);
    assert forall i :: 0 <= i < |files| ==> files[i] != [];
    hide FilesOk, WholeGroups, SuggestionsFor, InheritedFunction, Keys, Sum, Count, SumKept;
    EnumeratedLength(files, similar, WithoutProto(keys));
    LengthIsSumKept(files, similar, keys);
    SumKeptExact(similar, keys);
    forall k | k in similar
      ensures Kept(similar, k) == Count(similar, k) <==> k != PROTO && (InheritedFunction(k) ==> Count(similar, k) == 1)
    {
      CountPresent(similar, k);
    }
  }

  // ----- each suggestion means one file -----

  predicate Identifies(suggestion: string, file: Path)
    requires file != []
  {
    suggestion == NameOf(file) || suggestion == FqnFromPath(file)
  }

  ghost predicate IdentifiesOne(suggestion: string, files: seq<Path>)
    requires forall i :: 0 <= i < |files| ==> files[i] != []
  {
    exists i :: 0 <= i < |files| && Identifies(suggestion, files[i]) &&
      forall j :: 0 <= j < |files| && Identifies(suggestion, files[j]) ==> j == i
  }

  lemma NamesHaveNoColon(files: seq<Path>, i: nat)
    requires FilesOk(files) && i < |files|
    ensures ':' !in NameOf(files[i]) && ':' in FqnFromPath(files[i])
  {
    var dir := files[i][..|files[i]| - 1];
    assert FqnFromPath(files[i])[|Join(dir, '/')|] == ':';
  }

  lemma QualifiedIdentifiesOne(files: seq<Path>, i: nat)
    requires FilesOk(files) && i < |files|
    ensures IdentifiesOne(FqnFromPath(files[i]), files)
  {
    forall j | 0 <= j < |files| && Identifies(FqnFromPath(files[i]), files[j])
      ensures j == i
    {
      NamesHaveNoColon(files, i);
      NamesHaveNoColon(files, j);
    }
    assert Identifies(FqnFromPath(files[i]), files[i]);
  }

  lemma BareIdentifiesOne(files: seq<Path>, name: string)
    requires FilesOk(files) && Count(Names(files), name) == 1
    ensures IdentifiesOne(name, files)
  {
    var i := CountOne(Names(files), name);
    assert Identifies(name, files[i]);
    forall j | 0 <= j < |files| && Identifies(name, files[j])
      ensures j == i
    {
      NamesHaveNoColon(files, i);
      NamesHaveNoColon(files, j);
      assert Names(files)[j] == NameOf(files[j]);
    }
  }

  lemma SuggestionIdentifiesOne(files: seq<Path>, similar: seq<string>, name: string, s: string)
    requires FilesOk(files) && Count(similar, name) == Count(Names(files), name) > 0
    requires InheritedFunction(name) ==> Count(similar, name) == 1
    requires s in Suggestion(files, similar, name)
    ensures IdentifiesOne(s, files)
  {
    assert forall i :: 0 <= i < |files| ==> files[i] != [];
    hide FilesOk, IdentifiesOne, Names, FqnFromPath, Count, FqnsNamed, InheritedFunction;
    if Count(similar, name) > 1 && !InheritedFunction(name) {
      var i := FqnsNamedMember(files, name, s);
      QualifiedIdentifiesOne(files, i);
    } else {
      BareIdentifiesOne(files, name);
    }
  }

  lemma RepeatedNameIsAmbiguous(files: seq<Path>, name: string)
    requires FilesOk(files) && Count(Names(files), name) > 1
    ensures !IdentifiesOne(name, files)
  {
    var i, j := CountTwo(Names(files), name);
    assert Names(files)[i] == NameOf(files[i]) && Names(files)[j] == NameOf(files[j]);
    assert Identifies(name, files[i]) && Identifies(name, files[j]);
  }

  /** The suggestions for one name identify one file each, unless it is an inherited
      function that occurs again. */
  lemma SuggestionIdentifiesExactly(files: seq<Path>, similar: seq<string>, name: string)
    requires FilesOk(files) && WholeGroups(files, similar) && name in similar
    ensures (forall s <- Suggestion(files, similar, name) :: IdentifiesOne(s, files)) <==>
            (InheritedFunction(name) ==> Count(similar, name) == 1)
  {
    CountPresent(similar, name);
    assert Count(similar, name) == Count(Names(files), name);
    assert InheritedFunction(name) && Count(similar, name) > 1 ==> name in Suggestion(files, similar, name);
    hide FilesOk, WholeGroups, IdentifiesOne, Names, FqnFromPath, Count, FqnsNamed, InheritedFunction;
    if InheritedFunction(name) && Count(similar, name) > 1 {
      RepeatedNameIsAmbiguous(files, name);
    } else {
      forall s | s in Suggestion(files, similar, name)
        ensures IdentifiesOne(s, files)
      {
        SuggestionIdentifiesOne(files, similar, name, s);
      }
    }
  }

  lemma {:induction false} OfferedMembers(files: seq<Path>, similar: seq<string>, keys: seq<string>, s: string)
    requires forall i :: 0 <= i < |files| ==> files[i] != []
    ensures s in SuggestionsFor(files, similar, keys) <==> exists k <- keys :: s in Suggestion(files, similar, k)
  {
    if keys != [] {
      var rest, last := keys[..|keys| - 1], keys[|keys| - 1];
      assert keys == rest + [last];
      hide Suggestion;
      OfferedMembers(files, similar, rest, s);
    }
  }

  lemma OfferedFrom(files: seq<Path>, similar: seq<string>, s: string)
    requires forall i :: 0 <= i < |files| ==> files[i] != []
    ensures s in Offered(files, similar) <==> exists k <- similar :: k != PROTO && s in Suggestion(files, similar, k)
  {
    var keys := Keys(similar);
    hide Suggestion, SuggestionsFor, Keys, WithoutProto, Enumerated;
    OfferedMembers(files, similar, Enumerated(WithoutProto(keys)), s);
    KeysSum(similar);
    forall k
      ensures k in Enumerated(WithoutProto(keys)) <==> k in similar && k != PROTO
    {
      EnumeratedMembers(WithoutProto(keys), k);
      ProtoGone(keys, k);
    }
  }

  /** Each suggestion is the name or the qualified name of exactly one file if and
      only if no inherited function occurs again among the names. */
  lemma EverySuggestionIdentifiesOneExactly(files: seq<Path>, similar: seq<string>)
    requires FilesOk(files) && WholeGroups(files, similar)
    ensures (forall s <- Offered(files, similar) :: IdentifiesOne(s, files)) <==> NoneInheritedTwice(similar)
  {
    assert forall i :: 0 <= i < |files| ==> files[i] != [];
    assert !InheritedFunction(PROTO);
    hide FilesOk, WholeGroups, IdentifiesOne, Suggestion, Offered, InheritedFunction, Count;
    if NoneInheritedTwice(similar) {
      forall s | s in Offered(files, similar)
        ensures IdentifiesOne(s, files)
      {
        OfferedFrom(files, similar, s);
        var k :| k in similar && k != PROTO && s in Suggestion(files, similar, k);
        SuggestionIdentifiesExactly(files, similar, k);
      }
    } else {
      var k :| k in similar && InheritedFunction(k) && Count(similar, k) != 1;
      SuggestionIdentifiesExactly(files, similar, k);
      var s :| s in Suggestion(files, similar, k) && !IdentifiesOne(s, files);
      OfferedFrom(files, similar, s);
    }
  }

  // ----- nothing is suggested twice -----

  lemma {:induction false} FqnsNamedDistinct(files: seq<Path>, name: string)
    requires FilesOk(files)
    ensures Distinct(FqnsNamed(files, name))
  {
    if files != [] {
      var rest, f := files[..|files| - 1], files[|files| - 1];
      FilesOkPrefix(files);
      FqnsNamedDistinct(rest, name);
      assert forall i :: 0 <= i < |rest| ==> rest[i] == files[i] && FqnFromPath(rest[i]) != FqnFromPath(f);
      hide FilesOk, FqnFromPath;
      if FqnFromPath(f) in FqnsNamed(rest, name) {
        var i := FqnsNamedMember(rest, name, FqnFromPath(f));
      }
    }
  }

  lemma SuggestionDistinct(files: seq<Path>, similar: seq<string>, name: string)
    requires FilesOk(files)
    ensures Distinct(Suggestion(files, similar, name))
  {
    FqnsNamedDistinct(files, name);
  }

  /** A suggestion belongs to one name. */
  lemma SuggestionOwner(files: seq<Path>, similar: seq<string>, a: string, b: string, s: string)
    requires FilesOk(files) && ':' !in a && ':' !in b
    requires s in Suggestion(files, similar, a) && s in Suggestion(files, similar, b)
    ensures a == b
  {
    hide InheritedFunction, Count;
    if s in FqnsNamed(files, a) && s in FqnsNamed(files, b) {
      var i := FqnsNamedMember(files, a, s);
      var j := FqnsNamedMember(files, b, s);
      assert i == j;
      SameSuffix(a, b, ".json");
    } else if s in FqnsNamed(files, a) {
      var i := FqnsNamedMember(files, a, s);
      NamesHaveNoColon(files, i);
    } else if s in FqnsNamed(files, b) {
      var i := FqnsNamedMember(files, b, s);
      NamesHaveNoColon(files, i);
    }
  }

  lemma SimilarHaveNoColon(files: seq<Path>, similar: seq<string>, name: string)
    requires FilesOk(files) && WholeGroups(files, similar) && name in similar
    ensures ':' !in name
    ensures exists i :: 0 <= i < |files| && NameOf(files[i]) == name
  {
    CountPresent(similar, name);
    assert Count(similar, name) == Count(Names(files), name);
    var i := CountSome(Names(files), name);
    assert Names(files)[i] == NameOf(files[i]);
    NamesHaveNoColon(files, i);
  }

  lemma {:induction false} SuggestionsDistinct(files: seq<Path>, similar: seq<string>, keys: seq<string>)
    requires FilesOk(files) && WholeGroups(files, similar) && Distinct(keys) && forall k <- keys :: k in similar
    ensures Distinct(SuggestionsFor(files, similar, keys))
  {
    if keys != [] {
      var rest, last := keys[..|keys| - 1], keys[|keys| - 1];
      assert keys == rest + [last] && last in keys && last !in rest && forall k <- rest :: k in keys;
      assert forall i :: 0 <= i < |files| ==> files[i] != [];
      assert SuggestionsFor(files, similar, keys) == SuggestionsFor(files, similar, rest) + Suggestion(files, similar, last);
      hide *;
      DistinctPrefix(rest, last);
      SuggestionsDistinct(files, similar, rest);
      SuggestionDistinct(files, similar, last);
      forall s | s in SuggestionsFor(files, similar, rest)
        ensures s !in Suggestion(files, similar, last)
      {
        OfferedMembers(files, similar, rest, s);
        var k :| k in rest && s in Suggestion(files, similar, k);
        SuggestionsApart(files, similar, k, last, s);
      }
      DistinctAppend(SuggestionsFor(files, similar, rest), Suggestion(files, similar, last));
    }
  }

  lemma SuggestionsApart(files: seq<Path>, similar: seq<string>, a: string, b: string, s: string)
    requires FilesOk(files) && WholeGroups(files, similar) && a in similar && b in similar && a != b
    ensures forall i :: 0 <= i < |files| ==> files[i] != []
    ensures !(s in Suggestion(files, similar, a) && s in Suggestion(files, similar, b))
  {
    SimilarHaveNoColon(files, similar, a);
    SimilarHaveNoColon(files, similar, b);
    assert forall i :: 0 <= i < |files| ==> files[i] != [];
    hide *;
    if s in Suggestion(files, similar, a) && s in Suggestion(files, similar, b) {
      SuggestionOwner(files, similar, a, b, s);
    }
  }

  lemma DistinctPrefix(rest: seq<string>, last: string)
    requires Distinct(rest + [last])
    ensures Distinct(rest)
  {
    assert forall i :: 0 <= i < |rest| ==> (rest + [last])[i] == rest[i];
  }

  lemma DistinctAppend(a: seq<string>, b: seq<string>)
    requires Distinct(a) && Distinct(b) && forall s <- a :: s !in b
    ensures Distinct(a + b)
  {
    forall i, j | 0 <= i < j < |a + b|
      ensures (a + b)[i] != (a + b)[j]
    {
      assert i < |a| <= j ==> a[i] in a && b[j - |a|] in b;
    }
  }

  /** No two suggestions are the same. */
  lemma OfferedDistinct(files: seq<Path>, similar: seq<string>)
    requires FilesOk(files) && WholeGroups(files, similar)
    ensures Distinct(Offered(files, similar))
  {
    var keys := Enumerated(WithoutProto(Keys(similar)));
    EnumeratedDistinct(similar);
    KeysSum(similar);
    hide FilesOk, WholeGroups, Keys, WithoutProto, Enumerated, SuggestionsFor, Distinct;
    forall k | k in keys
      ensures k in similar
    {
      EnumeratedMembers(WithoutProto(Keys(similar)), k);
      ProtoGone(Keys(similar), k);
    }
    SuggestionsDistinct(files, similar, keys);
  }

  // ----- no file is lost -----

  /** Some suggestion is a name of file `i` and of no other. */
  ghost predicate Suggested(suggestions: seq<string>, files: seq<Path>, i: nat)
    requires i < |files| && forall i :: 0 <= i < |files| ==> files[i] != []
  {
    exists s <- suggestions :: Identifies(s, files[i]) && IdentifiesOne(s, files)
  }

  ghost predicate AllSuggested(suggestions: seq<string>, files: seq<Path>, similar: seq<string>)
    requires forall i :: 0 <= i < |files| ==> files[i] != []
  {
    forall i :: 0 <= i < |files| && NameOf(files[i]) in similar ==> Suggested(suggestions, files, i)
  }

  lemma {:induction false} FqnsNamedHas(files: seq<Path>, name: string, i: nat)
    requires forall i :: 0 <= i < |files| ==> files[i] != []
    requires i < |files| && files[i][|files[i]| - 1] == name + ".json"
    ensures FqnFromPath(files[i]) in FqnsNamed(files, name)
  {
    hide FqnFromPath;
    if i < |files| - 1 {
      FqnsNamedHas(files[..|files| - 1], name, i);
    }
  }

  /** One file is suggested exactly when the object can count its name. */
  lemma FileSuggestedExactly(files: seq<Path>, similar: seq<string>, i: nat)
    requires FilesOk(files) && WholeGroups(files, similar) && i < |files| && NameOf(files[i]) in similar
    ensures forall i :: 0 <= i < |files| ==> files[i] != []
    ensures Suggested(Offered(files, similar), files, i) <==>
            NameOf(files[i]) != PROTO && (InheritedFunction(NameOf(files[i])) ==> Count(similar, NameOf(files[i])) == 1)
  {
    assert forall i :: 0 <= i < |files| ==> files[i] != [];
    var name := NameOf(files[i]);
    CountPresent(similar, name);
    assert Count(similar, name) == Count(Names(files), name);
    if name != PROTO && (InheritedFunction(name) ==> Count(similar, name) == 1) {
      CountableIsSuggested(files, similar, i);
    } else {
      UncountableIsLost(files, similar, i);
    }
  }

  lemma CountableIsSuggested(files: seq<Path>, similar: seq<string>, i: nat)
    requires FilesOk(files) && WholeGroups(files, similar) && i < |files| && NameOf(files[i]) in similar
    requires NameOf(files[i]) != PROTO && (InheritedFunction(NameOf(files[i])) ==> Count(similar, NameOf(files[i])) == 1)
    ensures forall i :: 0 <= i < |files| ==> files[i] != []
    ensures Suggested(Offered(files, similar), files, i)
  {
    assert forall i :: 0 <= i < |files| ==> files[i] != [];
    var name := NameOf(files[i]);
    assert files[i][|files[i]| - 1] == name + ".json";
    var s := if Count(similar, name) > 1 then FqnFromPath(files[i]) else name;
    FqnsNamedHas(files, name, i);
    assert s in Suggestion(files, similar, name) && Identifies(s, files[i]);
    hide FilesOk, WholeGroups, Suggestion, Offered, Identifies, IdentifiesOne, InheritedFunction, NameOf;
    SuggestionIdentifiesExactly(files, similar, name);
    OfferedFrom(files, similar, s);
  }

  lemma UncountableIsLost(files: seq<Path>, similar: seq<string>, i: nat)
    requires FilesOk(files) && WholeGroups(files, similar) && i < |files| && NameOf(files[i]) in similar
    requires NameOf(files[i]) == PROTO || (InheritedFunction(NameOf(files[i])) && Count(similar, NameOf(files[i])) > 1)
    ensures forall i :: 0 <= i < |files| ==> files[i] != []
    ensures !Suggested(Offered(files, similar), files, i)
  {
    assert forall i :: 0 <= i < |files| ==> files[i] != [];
    hide *;
    forall s | s in Offered(files, similar) && Identifies(s, files[i])
      ensures !IdentifiesOne(s, files)
    {
      OfferedFrom(files, similar, s);
      var k :| k in similar && k != PROTO && s in Suggestion(files, similar, k);
      SuggestionNames(files, similar, k, i, s);
      AmbiguousName(files, similar, k);
    }
    NotSuggested(Offered(files, similar), files, i);
  }

  lemma NotSuggested(suggestions: seq<string>, files: seq<Path>, i: nat)
    requires i < |files| && forall i :: 0 <= i < |files| ==> files[i] != []
    requires forall s <- suggestions :: Identifies(s, files[i]) ==> !IdentifiesOne(s, files)
    ensures !Suggested(suggestions, files, i)
  {
  }

  /** What is suggested for a name and identifies a file is a name of that file. */
  lemma SuggestionNames(files: seq<Path>, similar: seq<string>, k: string, i: nat, s: string)
    requires FilesOk(files) && WholeGroups(files, similar) && i < |files| && k in similar
    requires files[i] != [] && Identifies(s, files[i]) && s in Suggestion(files, similar, k)
    ensures k == NameOf(files[i]) && (InheritedFunction(k) ==> s == k)
  {
    SimilarHaveNoColon(files, similar, k);
    NamesHaveNoColon(files, i);
    hide InheritedFunction, Count, WholeGroups;
    if s in FqnsNamed(files, k) {
      var j := FqnsNamedMember(files, k, s);
      NamesHaveNoColon(files, j);
      assert i == j;
      SameSuffix(k, NameOf(files[i]), ".json");
    }
  }

  lemma AmbiguousName(files: seq<Path>, similar: seq<string>, name: string)
    requires FilesOk(files) && WholeGroups(files, similar) && name in similar && Count(similar, name) > 1
    ensures forall i :: 0 <= i < |files| ==> files[i] != []
    ensures !IdentifiesOne(name, files)
  {
    RepeatedNameIsAmbiguous(files, name);
  }

  /** Every file with a suggested name is suggested, on its own, if and only if the
      object can count the names. */
  lemma NoFileIsLostExactly(files: seq<Path>, similar: seq<string>)
    requires FilesOk(files) && WholeGroups(files, similar)
    ensures forall i :: 0 <= i < |files| ==> files[i] != []
    ensures AllSuggested(Offered(files, similar), files, similar) <==> Countable(similar)
  {
    assert forall i :: 0 <= i < |files| ==> files[i] != [];
    hide FilesOk, WholeGroups, Suggested, Offered, NameOf, InheritedFunction, Count;
    forall i | 0 <= i < |files| && NameOf(files[i]) in similar
      ensures Suggested(Offered(files, similar), files, i) <==>
              NameOf(files[i]) != PROTO && (InheritedFunction(NameOf(files[i])) ==> Count(similar, NameOf(files[i])) == 1)
    {
      FileSuggestedExactly(files, similar, i);
    }
    forall k | k in similar
      ensures exists i :: 0 <= i < |files| && NameOf(files[i]) == k
    {
      SimilarHaveNoColon(files, similar, k);
    }
  }

  // ----- from the names to the suggestions -----

  lemma NearestAreWholeGroups(files: seq<Path>, given: string)
    requires FilesOk(files)
    ensures WholeGroups(files, AtDistance(given, Names(files), Shortest(given, Names(files))))
  {
    var similar := AtDistance(given, Names(files), Shortest(given, Names(files)));
    forall name | name in similar
      ensures Count(similar, name) == Count(Names(files), name)
    {
      SuggestedExactly(given, Names(files), name);
      CountIsMultiplicity(similar, name);
      CountIsMultiplicity(Names(files), name);
    }
  }

  /** `_handleWrongArtifactForContractName`: what the user is offered.  A single name
      is offered as it is; several are offered without loss, each identifying one
      file, exactly when the object can count them. */
  method HandleWrongArtifactForContractName(files: seq<Path>, contractName: string) returns (suggestions: seq<string>)
    requires FilesOk(files)
    ensures var similar := AtDistance(contractName, Names(files), Shortest(contractName, Names(files)));
            && (|similar| <= 1 ==> suggestions == similar)
            && (|similar| > 1 ==>
                  && Distinct(suggestions)
                  && (|suggestions| == |similar| <==> Countable(similar))
                  && (AllSuggested(suggestions, files, similar) <==> Countable(similar))
                  && ((forall s <- suggestions :: IdentifiesOne(s, files)) <==> NoneInheritedTwice(similar)))
  {
    assert forall i :: 0 <= i < |files| ==> files[i] != [];
    NearestAreWholeGroups(files, contractName);
    var similarNames := GetSimilarContractNames(contractName, Names(files));
    suggestions := similarNames;
    if |similarNames| > 1 {
      suggestions := FilterDuplicatesAsFullyQualifiedNames(files, similarNames);
      assert suggestions == Offered(files, similarNames);
      hide *;
      OfferedDistinct(files, similarNames);
      AsManySuggestionsExactly(files, similarNames);
      NoFileIsLostExactly(files, similarNames);
      EverySuggestionIdentifiesOneExactly(files, similarNames);
    }
  }

  // ----- names the object cannot count -----

  const TWO_FILES: seq<Path> := [["a", "toString.json"], ["b", "toString.json"]]

  lemma ToStringIsPlain()
    ensures PlainContractName("toString") && WithoutJson("toString.json") == "toString"
  {
    forall i | 0 <= i <= 8
      ensures !StartsWith("toString"[i..], ".json")
    {
      if i < 8 {
        assert "toString"[i] != '.' && "toString"[i..][0] == "toString"[i];
        assert |"toString"[i..]| >= 5 ==> "toString"[i..][..5][0] == "toString"[i];
      }
    }
    WithoutJsonOf("toString");
    assert "toString" + ".json" == "toString.json";
  }

  lemma ToStringIn(folder: string)
    requires folder in ["a", "b"]
    ensures var file := [folder, "toString.json"]; NameOf(file) == "toString" && FqnFromPath(file) == folder + ":" + "toString"
  {
    ToStringIsPlain();
    hide WithoutJson;
    var file := [folder, "toString.json"];
    assert file[..1] == [folder];
  }

  lemma FileOkFromName(file: Path)
    requires |file| > 1 && PlainContractName(NameOf(file)) && file[|file| - 1] == NameOf(file) + ".json"
    ensures FilesOk([file])
  {
    hide NameOf, PlainContractName, FqnFromPath;
  }

  lemma TwoOk(f: Path, g: Path)
    requires FilesOk([f]) && FilesOk([g]) && f != [] && g != [] && FqnFromPath(f) != FqnFromPath(g)
    ensures FilesOk([f, g]) && Names([f, g]) == [NameOf(f), NameOf(g)]
  {
    hide NameOf, PlainContractName, FqnFromPath;
    var files := [f, g];
    assert [f][0] == f && [g][0] == g && files[0] == f && files[1] == g;
  }

  lemma ToStringFile(folder: string)
    requires folder in ["a", "b"]
    ensures var file := [folder, "toString.json"]; FilesOk([file]) && NameOf(file) == "toString"
  {
    hide *;
    ToStringIsPlain();
    ToStringIn(folder);
    ToStringJson();
    FileOkFromName([folder, "toString.json"]);
  }

  lemma ToStringJson()
    ensures "toString" + ".json" == "toString.json"
  {
  }

  lemma TwoFolders()
    ensures FqnFromPath(["a", "toString.json"]) != FqnFromPath(["b", "toString.json"])
  {
    ToStringIn("a");
    ToStringIn("b");
    hide FqnFromPath;
    assert ("a" + ":" + "toString")[0] == 'a' && ("b" + ":" + "toString")[0] == 'b';
  }

  lemma TwoFilesOk()
    ensures FilesOk(TWO_FILES) && Names(TWO_FILES) == ["toString", "toString"]
  {
    assert TWO_FILES == [["a", "toString.json"], ["b", "toString.json"]];
    hide *;
    ToStringFile("a");
    ToStringFile("b");
    TwoFolders();
    TwoOk(["a", "toString.json"], ["b", "toString.json"]);
  }

  lemma OneNear(names: seq<string>)
    requires Distance("toStrin", "toString") == 1 && Shortest("toStrin", names) >= 1 && |names| < 2
    requires Shortest("toStrin", names) > 1 ==> names == []
    requires AtDistance("toStrin", names, 1) == names
    ensures var more := names + ["toString"]; Shortest("toStrin", more) == 1 && AtDistance("toStrin", more, 1) == more
  {
    var more := names + ["toString"];
    assert more[..|names|] == names;
    hide Distance;
  }

  lemma TwoNear()
    ensures var names := ["toString", "toString"]; AtDistance("toStrin", names, Shortest("toStrin", names)) == names
  {
    assert Shortest("toStrin", []) == 3 && AtDistance("toStrin", [], 1) == [];
    hide *;
    LetterMissing("toStrin", 'g');
    assert "toStrin" + ['g'] == "toString";
    OneNear([]);
    assert [] + ["toString"] == ["toString"] && ["toString"] + ["toString"] == ["toString", "toString"];
    OneNear(["toString"]);
  }

  /** Two contracts `toString` and a misspelt `toStrin`: one bare name is offered,
      and it identifies neither. */
  lemma TwoToStringsAreOfferedOnce()
    ensures FilesOk(TWO_FILES)
    ensures var similar := AtDistance("toStrin", Names(TWO_FILES), Shortest("toStrin", Names(TWO_FILES)));
            && similar == ["toString", "toString"]
            && Offered(TWO_FILES, similar) == ["toString"] && !IdentifiesOne("toString", TWO_FILES)
  {
    TwoFilesOk();
    TwoNear();
    var similar := ["toString", "toString"];
    hide FilesOk, Names, IdentifiesOne, AtDistance, Shortest, FqnsNamed;
    assert similar[..1] == ["toString"] && ["toString"][..0] == [];
    assert Keys(similar[..1]) == ["toString"] && Keys(similar) == ["toString"];
    assert Count(similar[..1], "toString") == 1 && Count(similar, "toString") == 2;
    assert "toString"[0] == 't' && PROTO[0] == '_';
    assert WithoutProto(["toString"]) == ["toString"];
    assert !IsIndex("toString");
    assert Indices(["toString"]) == [] && Others(["toString"]) == ["toString"];
    OneSuggestion(TWO_FILES, similar, "toString");
    RepeatedNameIsAmbiguous(TWO_FILES, "toString");
  }

  /** A contract named `__proto__` is never offered among others. */
  lemma ProtoIsNeverOffered(files: seq<Path>, similar: seq<string>)
    requires FilesOk(files) && WholeGroups(files, similar)
    ensures PROTO !in Offered(files, similar)
  {
    assert forall i :: 0 <= i < |files| ==> files[i] != [];
    hide Suggestion, Offered;
    OfferedFrom(files, similar, PROTO);
    if k :| k in similar && k != PROTO && PROTO in Suggestion(files, similar, k) {
      NotASuggestion(files, similar, k);
    }
  }

  lemma NotASuggestion(files: seq<Path>, similar: seq<string>, k: string)
    requires FilesOk(files) && k != PROTO
    ensures PROTO !in Suggestion(files, similar, k)
  {
    if PROTO in FqnsNamed(files, k) {
      var i := FqnsNamedMember(files, k, PROTO);
      NamesHaveNoColon(files, i);
    }
  }
}
