/** Counting names in a plain JavaScript object, as artifacts.ts does: the object
    inherits names of its own, and lists array indices first. */
module CountingObject {
  import opened Prelude

  function Count(s: seq<string>, x: string): nat {
    if s == [] then 0 else Count(s[..|s| - 1], x) + if s[|s| - 1] == x then 1 else 0
  }

  /** The different names, by first occurrence. */
  function Keys(s: seq<string>): seq<string> {
    if s == [] then []
    else
      var keys := Keys(s[..|s| - 1]);
      if s[|s| - 1] in keys then keys else keys + [s[|s| - 1]]
  }

  // ----- the counting object -----

  /** What `obj[name]` holds: a number, or the source text of an inherited function
      with a `1` appended for every occurrence. */
  datatype Tally = Times(n: nat) | Text

  /** The own properties of the object, in the order they were made. */
  datatype Groups = Groups(keys: seq<string>, tally: map<string, Tally>)

  /** `obj[name] = obj[name] ? obj[name] + 1 : 1`. */
  function Tallied(g: Groups, name: string): Groups {
    if name == PROTO then g
    else if name in g.tally then
      g.(tally := g.tally[name := if g.tally[name].Times? then Times(g.tally[name].n + 1) else Text])
    else Groups(g.keys + [name], g.tally[name := if InheritedFunction(name) then Text else Times(1)])
  }

  /** A text is no number, so the comparison fails for it. */
  predicate MoreThanOnce(t: Tally) {
    t.Times? && t.n > 1
  }

  function WithoutProto(keys: seq<string>): seq<string> {
    if keys == [] then []
    else WithoutProto(keys[..|keys| - 1]) + if keys[|keys| - 1] == PROTO then [] else [keys[|keys| - 1]]
  }

  /** What the object is after counting `s`. */
  ghost predicate Counts(g: Groups, s: seq<string>) {
    && g.keys == WithoutProto(Keys(s))
    && (forall name :: name in g.tally <==> name in s && name != PROTO)
    && (forall name <- g.tally :: g.tally[name] == if InheritedFunction(name) then Text else Times(Count(s, name)))
  }

  // ----- `Object.entries` -----

  function Value(s: string): int {
    if s == "" then 0 else Value(s[..|s| - 1]) * 10 + (s[|s| - 1] as int - '0' as int)
  }

  /** An array index, as it is written canonically. */
  predicate IsIndex(s: string) {
    && s != "" && (forall i :: 0 <= i < |s| ==> '0' <= s[i] <= '9')
    && (s[0] == '0' ==> s == "0") && Value(s) < 0xFFFF_FFFF
  }

  function InsertIndex(indices: seq<string>, s: string): seq<string> {
    if indices == [] then [s]
    else if Value(indices[|indices| - 1]) <= Value(s) then indices + [s]
    else InsertIndex(indices[..|indices| - 1], s) + [indices[|indices| - 1]]
  }

  function Indices(keys: seq<string>): seq<string> {
    if keys == [] then []
    else
      var rest := Indices(keys[..|keys| - 1]);
      if IsIndex(keys[|keys| - 1]) then InsertIndex(rest, keys[|keys| - 1]) else rest
  }

  function Others(keys: seq<string>): seq<string> {
    if keys == [] then []
    else Others(keys[..|keys| - 1]) + if IsIndex(keys[|keys| - 1]) then [] else [keys[|keys| - 1]]
  }

  /** The order in which an object's properties are enumerated: array indices first,
      ascending, then the others as they were made. */
  function Enumerated(keys: seq<string>): seq<string> {
    Indices(keys) + Others(keys)
  }

  // ----- counting -----

  function Sum(s: seq<string>, keys: seq<string>): nat {
    if keys == [] then 0 else Sum(s, keys[..|keys| - 1]) + Count(s, keys[|keys| - 1])
  }

  ghost predicate Distinct(keys: seq<string>) {
    forall i, j :: 0 <= i < j < |keys| ==> keys[i] != keys[j]
  }

  lemma {:induction false} SumSnoc(s: seq<string>, x: string, keys: seq<string>)
    requires Distinct(keys)
    ensures Sum(s + [x], keys) == Sum(s, keys) + if x in keys then 1 else 0
  {
    if keys != [] {
      var rest, k := keys[..|keys| - 1], keys[|keys| - 1];
      SumSnoc(s, x, rest);
      assert keys == rest + [k];
      assert (s + [x])[..|s|] == s;
    }
  }

  lemma {:induction false} CountAbsent(s: seq<string>, x: string)
    requires x !in s
    ensures Count(s, x) == 0
  {
    if s != [] {
      CountAbsent(s[..|s| - 1], x);
    }
  }

  lemma {:induction false} CountPresent(s: seq<string>, x: string)
    requires x in s
    ensures Count(s, x) > 0
  {
    if s[|s| - 1] != x {
      CountPresent(s[..|s| - 1], x);
    }
  }

  lemma CountSnoc(s: seq<string>, name: string, n: string)
    ensures Count(s + [name], n) == Count(s, n) + if name == n then 1 else 0
  {
    assert (s + [name])[..|s|] == s;
  }

  lemma {:induction false} CountOne(s: seq<string>, x: string) returns (i: nat)
    requires Count(s, x) == 1
    ensures i < |s| && s[i] == x && forall j :: 0 <= j < |s| && s[j] == x ==> j == i
  {
    var rest := s[..|s| - 1];
    if s[|s| - 1] == x {
      i := |s| - 1;
      if x in rest { CountPresent(rest, x); }
    } else {
      i := CountOne(rest, x);
    }
  }

  lemma {:induction false} CountSome(s: seq<string>, x: string) returns (i: nat)
    requires Count(s, x) > 0
    ensures i < |s| && s[i] == x
  {
    if s[|s| - 1] == x {
      i := |s| - 1;
    } else {
      i := CountSome(s[..|s| - 1], x);
    }
  }

  lemma {:induction false} CountTwo(s: seq<string>, x: string) returns (i: nat, j: nat)
    requires Count(s, x) > 1
    ensures i < j < |s| && s[i] == s[j] == x
  {
    var rest := s[..|s| - 1];
    if s[|s| - 1] == x {
      i := CountSome(rest, x);
      j := |rest|;
    } else {
      i, j := CountTwo(rest, x);
    }
  }

  lemma {:induction false} CountIsMultiplicity(s: seq<string>, x: string)
    ensures Count(s, x) == multiset(s)[x]
  {
    if s != [] {
      CountIsMultiplicity(s[..|s| - 1], x);
      assert s == s[..|s| - 1] + [s[|s| - 1]];
    }
  }

  lemma {:induction false} KeysMembers(s: seq<string>, x: string)
    ensures x in Keys(s) <==> x in s
  {
    if s != [] {
      KeysMembers(s[..|s| - 1], x);
      KeysMembers(s[..|s| - 1], s[|s| - 1]);
      assert s == s[..|s| - 1] + [s[|s| - 1]];
    }
  }

  lemma {:induction false} KeysDistinct(s: seq<string>)
    ensures Distinct(Keys(s))
  {
    if s != [] {
      KeysDistinct(s[..|s| - 1]);
      KeysMembers(s[..|s| - 1], s[|s| - 1]);
    }
  }

  lemma {:induction false} KeysSum(s: seq<string>)
    ensures Distinct(Keys(s)) && Sum(s, Keys(s)) == |s|
    ensures forall x :: x in Keys(s) <==> x in s
  {
    KeysDistinct(s);
    forall x
      ensures x in Keys(s) <==> x in s
    {
      KeysMembers(s, x);
    }
    if s != [] {
      var rest, x := s[..|s| - 1], s[|s| - 1];
      KeysSum(rest);
      assert s == rest + [x];
      assert Keys(s) == if x in rest then Keys(rest) else Keys(rest) + [x];
      hide Keys, Distinct;
      SumSnoc(rest, x, Keys(rest));
      if x !in rest {
        CountAbsent(rest, x);
        assert (Keys(rest) + [x])[..|Keys(rest)|] == Keys(rest);
        SumSnoc(rest, x, Keys(rest) + [x]);
      }
    }
  }

  lemma KeysSnoc(s: seq<string>, name: string)
    ensures Keys(s + [name]) == if name in s then Keys(s) else Keys(s) + [name]
    ensures WithoutProto(Keys(s + [name])) ==
            if name in s || name == PROTO then WithoutProto(Keys(s)) else WithoutProto(Keys(s)) + [name]
  {
    assert (s + [name])[..|s|] == s;
    KeysSum(s);
    assert (Keys(s) + [name])[..|Keys(s)|] == Keys(s);
  }

  lemma {:induction false} ProtoGone(keys: seq<string>, k: string)
    ensures k in WithoutProto(keys) <==> k in keys && k != PROTO
  {
    if keys != [] {
      var rest, last := keys[..|keys| - 1], keys[|keys| - 1];
      ProtoGone(rest, k);
      assert keys == rest + [last];
    }
  }

  /** The `reduce`. */
  method CountNames(similarNames: seq<string>) returns (groups: Groups)
    ensures Counts(groups, similarNames)
  {
    groups := Groups([], map[]);
    var i := 0;
    CountsNothing();
    hide Counts, Tallied;
    while i < |similarNames|
      invariant 0 <= i <= |similarNames|
      invariant Counts(groups, similarNames[..i])
    {
      CountsSnoc(groups, similarNames[..i], similarNames[i]);
      assert similarNames[..i + 1] == similarNames[..i] + [similarNames[i]];
      hide Keys;
      groups := Tallied(groups, similarNames[i]);
      i := i + 1;
    }
    assert similarNames[..i] == similarNames;
  }

  lemma CountsNothing()
    ensures Counts(Groups([], map[]), [])
  {
  }

  lemma CountsSnoc(g: Groups, s: seq<string>, name: string)
    requires Counts(g, s)
    ensures Counts(Tallied(g, name), s + [name])
  {
    var t := Tallied(g, name);
    CountsKeys(g, s);
    CountsAt(g, s, name);
    hide *;
    KeysSnoc(s, name);
    TalliedKeys(g, name);
    forall n
      ensures TallyIs(t, s + [name], n)
    {
      CountsSnocAt(g, s, name, n);
    }
    CountsFromParts(t, s + [name]);
  }

  /** What the object holds for one name. */
  ghost predicate TallyIs(g: Groups, s: seq<string>, n: string) {
    && (n in g.tally <==> n in s && n != PROTO)
    && (n in g.tally ==> g.tally[n] == if InheritedFunction(n) then Text else Times(Count(s, n)))
  }

  lemma CountsFromParts(g: Groups, s: seq<string>)
    requires g.keys == WithoutProto(Keys(s)) && forall n :: TallyIs(g, s, n)
    ensures Counts(g, s)
  {
    hide Keys, WithoutProto, Count, InheritedFunction, PROTO;
    forall n
      ensures n in g.tally <==> n in s && n != PROTO
      ensures n in g.tally ==> g.tally[n] == if InheritedFunction(n) then Text else Times(Count(s, n))
    {
      assert TallyIs(g, s, n);
    }
  }

  lemma CountsAt(g: Groups, s: seq<string>, n: string)
    requires Counts(g, s)
    ensures TallyIs(g, s, n) && (n in g.tally <==> n in s && n != PROTO)
  {
    hide Keys, WithoutProto, Count, InheritedFunction;
  }

  lemma CountsSnocAt(g: Groups, s: seq<string>, name: string, n: string)
    requires Counts(g, s)
    ensures TallyIs(Tallied(g, name), s + [name], n)
  {
    CountsAt(g, s, n);
    hide *;
    if n == name {
      CountedName(g, s, name);
    } else {
      OtherName(g, s, name, n);
    }
  }

  lemma CountedName(g: Groups, s: seq<string>, name: string)
    requires TallyIs(g, s, name)
    ensures TallyIs(Tallied(g, name), s + [name], name)
  {
    TalliedAt(g, name, name);
    hide Tallied, Count, InheritedFunction, PROTO;
    if name !in s {
      CountAbsent(s, name);
    }
    InSnoc(s, name, name);
    CountSnoc(s, name, name);
  }

  lemma OtherName(g: Groups, s: seq<string>, name: string, n: string)
    requires TallyIs(g, s, n) && n != name
    ensures TallyIs(Tallied(g, name), s + [name], n)
  {
    TalliedAt(g, name, n);
    hide Tallied, Count, InheritedFunction, PROTO;
    InSnoc(s, name, n);
    CountSnoc(s, name, n);
  }

  lemma InSnoc(s: seq<string>, name: string, n: string)
    ensures n in s + [name] <==> n in s || n == name
  {
  }

  lemma TalliedAt(g: Groups, name: string, n: string)
    ensures n in Tallied(g, name).tally <==> n in g.tally || (n == name && name != PROTO)
    ensures n in g.tally && (n != name || name == PROTO) ==> Tallied(g, name).tally[n] == g.tally[n]
    ensures name != PROTO && name !in g.tally ==>
              Tallied(g, name).tally[name] == if InheritedFunction(name) then Text else Times(1)
    ensures name != PROTO && name in g.tally ==>
              Tallied(g, name).tally[name] == if g.tally[name].Times? then Times(g.tally[name].n + 1) else Text
  {
    hide InheritedFunction;
  }

  lemma TalliedKeys(g: Groups, name: string)
    ensures Tallied(g, name).keys == if name == PROTO || name in g.tally then g.keys else g.keys + [name]
  {
    hide InheritedFunction;
  }

  lemma CountsKeys(groups: Groups, s: seq<string>)
    requires Counts(groups, s)
    ensures groups.keys == WithoutProto(Keys(s))
  {
  }

  lemma {:induction false} InsertedMembers(indices: seq<string>, s: string, k: string)
    ensures k in InsertIndex(indices, s) <==> k in indices || k == s
  {
    hide IsIndex, Value;
    if indices != [] {
      var rest, last := indices[..|indices| - 1], indices[|indices| - 1];
      assert indices == rest + [last];
      InsertedMembers(rest, s, k);
    }
  }

  lemma {:induction false} EnumeratedMembers(keys: seq<string>, k: string)
    ensures k in Enumerated(keys) <==> k in keys
  {
    if keys != [] {
      var rest, last := keys[..|keys| - 1], keys[|keys| - 1];
      assert keys == rest + [last];
      EnumeratedMembers(rest, k);
      hide IsIndex, InsertIndex;
      if IsIndex(last) {
        InsertedMembers(Indices(rest), last, k);
      }
    }
  }

  lemma EnumeratedHolds(groups: Groups, s: seq<string>)
    requires Counts(groups, s)
    ensures forall k <- Enumerated(groups.keys) :: k in groups.tally
    ensures forall k <- groups.tally :: MoreThanOnce(groups.tally[k]) <==> Count(s, k) > 1 && !InheritedFunction(k)
  {
    hide Keys, WithoutProto, Enumerated, Count;
    forall k | k in Enumerated(groups.keys)
      ensures k in groups.tally
    {
      EnumeratedMembers(groups.keys, k);
      ProtoGone(Keys(s), k);
      KeysSum(s);
    }
  }

  // ----- what the object loses -----

  /** No name is `__proto__`, and none that occurs again is an inherited function. */
  ghost predicate Countable(similar: seq<string>) {
    PROTO !in similar && NoneInheritedTwice(similar)
  }

  ghost predicate NoneInheritedTwice(similar: seq<string>) {
    forall name <- similar :: InheritedFunction(name) ==> Count(similar, name) == 1
  }

  /** How many suggestions a name that was counted is replaced by. */
  function Kept(similar: seq<string>, name: string): nat {
    if name == PROTO then 0 else if InheritedFunction(name) then 1 else Count(similar, name)
  }

  function SumKept(similar: seq<string>, keys: seq<string>): nat {
    if keys == [] then 0 else SumKept(similar, keys[..|keys| - 1]) + Kept(similar, keys[|keys| - 1])
  }

  lemma {:induction false} SumKeptExact(similar: seq<string>, keys: seq<string>)
    requires forall k <- keys :: k in similar
    ensures SumKept(similar, keys) <= Sum(similar, keys)
    ensures SumKept(similar, keys) == Sum(similar, keys) <==> forall k <- keys :: Kept(similar, k) == Count(similar, k)
  {
    if keys != [] {
      var rest, k := keys[..|keys| - 1], keys[|keys| - 1];
      assert keys == rest + [k] && k in keys;
      CountPresent(similar, k);
      assert Kept(similar, k) <= Count(similar, k);
      hide Kept, Count;
      SumKeptExact(similar, rest);
    }
  }

  // ----- enumerating keeps the names apart -----

  lemma DistinctIsOnce(keys: seq<string>)
    ensures Distinct(keys) <==> forall x :: multiset(keys)[x] <= 1
  {
    if Distinct(keys) {
      forall x
        ensures multiset(keys)[x] <= 1
      {
        OnlyOnce(keys, x);
      }
    }
    if !Distinct(keys) {
      var i, j :| 0 <= i < j < |keys| && keys[i] == keys[j];
      TwiceIn(keys, i, j);
    }
  }

  lemma TwiceIn(keys: seq<string>, i: nat, j: nat)
    requires i < j < |keys| && keys[i] == keys[j]
    ensures multiset(keys)[keys[i]] >= 2
  {
    assert keys == keys[..j] + keys[j..];
    assert keys[i] in keys[..j] && keys[j] in keys[j..];
  }

  lemma {:induction false} OnlyOnce(keys: seq<string>, x: string)
    requires Distinct(keys)
    ensures multiset(keys)[x] <= 1
  {
    if keys != [] {
      var rest, last := keys[..|keys| - 1], keys[|keys| - 1];
      OnlyOnce(rest, x);
      assert keys == rest + [last] && last !in rest;
    }
  }

  lemma {:induction false} InsertedOnce(indices: seq<string>, s: string)
    ensures multiset(InsertIndex(indices, s)) == multiset(indices) + multiset{s}
  {
    if indices != [] && !(Value(indices[|indices| - 1]) <= Value(s)) {
      var rest, last := indices[..|indices| - 1], indices[|indices| - 1];
      InsertedOnce(rest, s);
      assert indices == rest + [last];
    }
  }

  lemma {:induction false} EnumeratedOnce(keys: seq<string>)
    ensures multiset(Enumerated(keys)) == multiset(keys)
  {
    if keys == [] {
      assert Enumerated(keys) == [];
    } else {
      var rest, last := keys[..|keys| - 1], keys[|keys| - 1];
      EnumeratedOnce(rest);
      assert keys == rest + [last];
      hide IsIndex, InsertIndex;
      if IsIndex(last) {
        InsertedOnce(Indices(rest), last);
        assert Others(rest) + [] == Others(rest);
      } else {
        assert Indices(rest) + (Others(rest) + [last]) == Indices(rest) + Others(rest) + [last];
      }
    }
  }

  lemma {:induction false} WithoutProtoOnce(keys: seq<string>)
    ensures multiset(WithoutProto(keys)) <= multiset(keys)
  {
    if keys != [] {
      var rest, last := keys[..|keys| - 1], keys[|keys| - 1];
      WithoutProtoOnce(rest);
      assert keys == rest + [last];
      assert WithoutProto(rest) + [] == WithoutProto(rest);
    }
  }

  /** The object lists no name twice. */
  lemma EnumeratedDistinct(s: seq<string>)
    ensures Distinct(Enumerated(WithoutProto(Keys(s))))
  {
    KeysDistinct(s);
    DistinctIsOnce(Keys(s));
    WithoutProtoOnce(Keys(s));
    EnumeratedOnce(WithoutProto(Keys(s)));
    DistinctIsOnce(Enumerated(WithoutProto(Keys(s))));
  }

  // ----- the order of enumeration -----

  lemma {:induction false} InsertedAscend(indices: seq<string>, s: string)
    requires IsIndex(s) && forall i :: 0 <= i < |indices| ==> IsIndex(indices[i])
    requires forall i, j :: 0 <= i < j < |indices| ==> Value(indices[i]) <= Value(indices[j])
    ensures forall i :: 0 <= i < |InsertIndex(indices, s)| ==> IsIndex(InsertIndex(indices, s)[i])
    ensures forall i, j :: 0 <= i < j < |InsertIndex(indices, s)| ==>
              Value(InsertIndex(indices, s)[i]) <= Value(InsertIndex(indices, s)[j])
    ensures forall x <- InsertIndex(indices, s) :: x == s || x in indices
  {
    hide IsIndex, Value;
    if indices != [] && !(Value(indices[|indices| - 1]) <= Value(s)) {
      var rest, last := indices[..|indices| - 1], indices[|indices| - 1];
      InsertedAscend(rest, s);
      var r := InsertIndex(rest, s);
      forall i | 0 <= i < |r|
        ensures Value(r[i]) <= Value(last)
      {
        assert r[i] in r;
        if r[i] != s {
          var k :| 0 <= k < |rest| && rest[k] == r[i];
          assert indices[k] == rest[k];
        }
      }
    }
  }

  lemma {:induction false} IndicesAscend(keys: seq<string>)
    ensures forall i :: 0 <= i < |Indices(keys)| ==> IsIndex(Indices(keys)[i])
    ensures forall i, j :: 0 <= i < j < |Indices(keys)| ==> Value(Indices(keys)[i]) <= Value(Indices(keys)[j])
  {
    hide IsIndex, Value, InsertIndex;
    if keys != [] {
      var rest, last := keys[..|keys| - 1], keys[|keys| - 1];
      IndicesAscend(rest);
      if IsIndex(last) {
        InsertedAscend(Indices(rest), last);
      }
    }
  }

  lemma {:induction false} OthersKeepOrder(keys: seq<string>, a: nat, b: nat) returns (i: nat, j: nat)
    requires a < b < |keys| && !IsIndex(keys[a]) && !IsIndex(keys[b])
    ensures i < j < |Others(keys)| && Others(keys)[i] == keys[a] && Others(keys)[j] == keys[b]
  {
    hide IsIndex;
    var rest := keys[..|keys| - 1];
    if b < |rest| {
      i, j := OthersKeepOrder(rest, a, b);
    } else {
      i := OtherIsThere(rest, a);
      j := |Others(rest)|;
    }
  }

  lemma {:induction false} OtherIsThere(keys: seq<string>, a: nat) returns (i: nat)
    requires a < |keys| && !IsIndex(keys[a])
    ensures i < |Others(keys)| && Others(keys)[i] == keys[a]
  {
    hide IsIndex;
    var rest := keys[..|keys| - 1];
    if a < |rest| {
      i := OtherIsThere(rest, a);
    } else {
      i := |Others(rest)|;
    }
  }

  lemma {:induction false} OthersAreNoIndices(keys: seq<string>)
    ensures forall i :: 0 <= i < |Others(keys)| ==> !IsIndex(Others(keys)[i])
  {
    hide IsIndex;
    if keys != [] {
      OthersAreNoIndices(keys[..|keys| - 1]);
    }
  }

  /** The names are enumerated with the array indices first, in ascending order, and then
      the others, in the order in which they were made. */
  lemma EnumerationOrder(keys: seq<string>) returns (k: nat)
    ensures k <= |Enumerated(keys)|
    ensures forall i :: 0 <= i < |Enumerated(keys)| ==> (IsIndex(Enumerated(keys)[i]) <==> i < k)
    ensures forall i, j :: 0 <= i < j < k ==> Value(Enumerated(keys)[i]) <= Value(Enumerated(keys)[j])
    ensures forall a, b :: 0 <= a < b < |keys| && !IsIndex(keys[a]) && !IsIndex(keys[b]) ==>
              exists i, j :: k <= i < j < |Enumerated(keys)| && Enumerated(keys)[i] == keys[a] && Enumerated(keys)[j] == keys[b]
  {
    k := |Indices(keys)|;
    IndicesAscend(keys);
    OthersAreNoIndices(keys);
    hide IsIndex, Value, Indices, Others;
    var e := Enumerated(keys);
    forall a, b | 0 <= a < b < |keys| && !IsIndex(keys[a]) && !IsIndex(keys[b])
      ensures exists i, j :: k <= i < j < |e| && e[i] == keys[a] && e[j] == keys[b]
    {
      var i, j := OthersKeepOrder(keys, a, b);
      assert e[k + i] == keys[a] && e[k + j] == keys[b];
    }
  }

  // ----- array indices -----

  function Digit(n: nat): char
    requires n < 10
  {
    '0' + n as char
  }

  /** A number as JavaScript writes it. */
  function Decimal(n: nat): string {
    if n < 10 then [Digit(n)] else Decimal(n / 10) + [Digit(n % 10)]
  }

  lemma {:induction false} DecimalIs(n: nat)
    ensures Decimal(n) != "" && Value(Decimal(n)) == n && AllDigits(Decimal(n))
    ensures Decimal(n)[0] == '0' ==> n == 0
  {
    var s := Decimal(n);
    if n < 10 {
      assert s[..0] == "" && Value(s[..0]) == 0;
    } else {
      DecimalIs(n / 10);
      assert s[..|s| - 1] == Decimal(n / 10) && s[0] == Decimal(n / 10)[0];
    }
  }

  predicate AllDigits(s: string) {
    forall i :: 0 <= i < |s| ==> '0' <= s[i] <= '9'
  }

  lemma {:induction false} ValueIsNatural(s: string)
    requires AllDigits(s)
    ensures Value(s) >= 0
    ensures s != "" && s[0] != '0' ==> Value(s) > 0
  {
    if s != "" {
      ValueIsNatural(s[..|s| - 1]);
    }
  }

  lemma {:induction false} ValueIsWritten(s: string)
    requires s != "" && AllDigits(s) && (s[0] == '0' ==> s == "0")
    ensures Value(s) >= 0 && Decimal(Value(s)) == s
  {
    var rest, d := s[..|s| - 1], s[|s| - 1] as int - '0' as int;
    ValueIsNatural(s);
    if rest == "" {
      assert Value(rest) == 0 && Value(s) == d && Decimal(d) == [Digit(d)] && s == [s[0]];
    } else {
      assert rest[0] == s[0] && |s| > 1;
      ValueIsNatural(rest);
      ValueIsWritten(rest);
      assert Value(s) == Value(rest) * 10 + d && Value(s) / 10 == Value(rest) && Value(s) % 10 == d;
      assert s == rest + [s[|s| - 1]];
    }
  }

  /** The array indices are the numbers below 2^32 - 1 as they are written. */
  lemma IndexExactly(s: string)
    ensures IsIndex(s) <==> exists n: nat :: n < 0x1_0000_0000 - 1 && s == Decimal(n)
    ensures forall n: nat :: Value(Decimal(n)) == n
  {
    hide Decimal, Value;
    if IsIndex(s) {
      ValueIsWritten(s);
    }
    if n: nat :| n < 0x1_0000_0000 - 1 && s == Decimal(n) {
      DecimalIs(n);
      if s[0] == '0' {
        assert n == 0 && Decimal(0) == "0" by { ZeroIsWritten(); }
      }
    }
    forall n: nat
      ensures Value(Decimal(n)) == n
    {
      DecimalIs(n);
    }
  }

  lemma ZeroIsWritten()
    ensures Decimal(0) == "0"
  {
  }
}
