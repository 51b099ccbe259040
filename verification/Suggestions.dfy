/** "Did you mean" in artifacts.ts: the names nearest to a misspelt one. */
module Suggestions {
  import opened Levenshtein
  import opened ContractDistance

  const EDIT_DISTANCE_THRESHOLD: nat := 3

  /** The UTF-16 code units of a string, which is what distances are counted in. */
  function CodeUnits(s: string): seq<CodeUnit> {
    if s == "" then []
    else
      var c := s[0] as int;
      (if c < 0x1_0000 then [c as CodeUnit]
       else [(0xD800 + (c - 0x1_0000) / 0x400) as CodeUnit, (0xDC00 + (c - 0x1_0000) % 0x400) as CodeUnit]) +
      CodeUnits(s[1..])
  }

  ghost function Distance(a: string, b: string): nat {
    Lev(CodeUnits(a), CodeUnits(b))
  }

  /** The least distance, or the threshold if none is below it. */
  ghost function Shortest(given: string, names: seq<string>): nat {
    if names == [] then EDIT_DISTANCE_THRESHOLD
    else Min(Shortest(given, names[..|names| - 1]), Distance(given, names[|names| - 1]))
  }

  /** The names at distance `d`, in order and with repetitions. */
  ghost function AtDistance(given: string, names: seq<string>, d: nat): seq<string> {
    if names == [] then []
    else AtDistance(given, names[..|names| - 1], d) +
         if Distance(given, names[|names| - 1]) == d then [names[|names| - 1]] else []
  }

  lemma {:induction false} ShortestIsLeast(given: string, names: seq<string>)
    ensures Shortest(given, names) <= EDIT_DISTANCE_THRESHOLD
    ensures forall n <- names :: Shortest(given, names) <= Distance(given, n)
    ensures Shortest(given, names) == EDIT_DISTANCE_THRESHOLD || exists n <- names :: Distance(given, n) == Shortest(given, names)
  {
    if names != [] {
      var rest, last := names[..|names| - 1], names[|names| - 1];
      ShortestIsLeast(given, rest);
      assert names == rest + [last] && last in names;
      if Shortest(given, rest) <= Distance(given, last) && Shortest(given, rest) != EDIT_DISTANCE_THRESHOLD {
        var n :| n in rest && Distance(given, n) == Shortest(given, rest);
        assert n in names;
      }
    }
  }

  lemma {:induction false} AtDistanceNone(given: string, names: seq<string>, d: nat)
    requires forall n <- names :: Distance(given, n) != d
    ensures AtDistance(given, names, d) == []
  {
    if names != [] {
      AtDistanceNone(given, names[..|names| - 1], d);
    }
  }

  lemma AtDistanceStep(given: string, names: seq<string>, d: nat)
    requires names != []
    ensures AtDistance(given, names, d) == AtDistance(given, names[..|names| - 1], d) +
            if Distance(given, names[|names| - 1]) == d then [names[|names| - 1]] else []
  {
    hide Distance;
  }

  lemma {:induction false} AtDistanceMembers(given: string, names: seq<string>, d: nat, n: string)
    ensures multiset(AtDistance(given, names, d))[n] == if Distance(given, n) == d then multiset(names)[n] else 0
  {
    if names != [] {
      hide *;
      var rest, last := names[..|names| - 1], names[|names| - 1];
      AtDistanceMembers(given, rest, d, n);
      AtDistanceStep(given, names, d);
      assert names == rest + [last];
      MultiplicitySnoc(rest, last, n);
      MultiplicitySnoc(AtDistance(given, rest, d), last, n);
    }
  }

  lemma MultiplicitySnoc(s: seq<string>, last: string, n: string)
    ensures multiset(s + [last])[n] == multiset(s)[n] + if last == n then 1 else 0
  {
  }

  /** `_getSimilarContractNames`. */
  method GetSimilarContractNames(givenName: string, names: seq<string>) returns (mostSimilarNames: seq<string>)
    ensures mostSimilarNames == AtDistance(givenName, names, Shortest(givenName, names))
  {
    var shortestDistance: int := EDIT_DISTANCE_THRESHOLD;
    mostSimilarNames := [];
    var i := 0;
    while i < |names|
      invariant 0 <= i <= |names|
      invariant shortestDistance == Shortest(givenName, names[..i])
      invariant mostSimilarNames == AtDistance(givenName, names[..i], shortestDistance)
    {
      var name := names[i];
      assert names[..i + 1][..i] == names[..i] && names[..i + 1][i] == name;
      var distance := FindDistance(CodeUnits(givenName), CodeUnits(name));
      if distance < shortestDistance {
        ShortestIsLeast(givenName, names[..i]);
        AtDistanceNone(givenName, names[..i], distance);
        shortestDistance := distance;
        mostSimilarNames := [name];
      } else if distance == shortestDistance {
        mostSimilarNames := mostSimilarNames + [name];
      }
      i := i + 1;
    }
    assert names[..i] == names;
  }

  /** A name is suggested, as often as it occurs, if and only if no name is nearer
      and it is within the threshold. */
  lemma SuggestedExactly(given: string, names: seq<string>, n: string)
    ensures var s := AtDistance(given, names, Shortest(given, names));
            && (n in s <==> n in names && Distance(given, n) <= EDIT_DISTANCE_THRESHOLD && forall m <- names :: Distance(given, n) <= Distance(given, m))
            && (n in s ==> multiset(s)[n] == multiset(names)[n])
  {
    var s := AtDistance(given, names, Shortest(given, names));
    ShortestIsLeast(given, names);
    AtDistanceMembers(given, names, Shortest(given, names), n);
    assert n in s <==> multiset(s)[n] > 0;
    assert n in names <==> multiset(names)[n] > 0;
  }

  /** Suggestions come in the order of the names. */
  lemma {:induction false} SuggestedInOrder(given: string, names: seq<string>, d: nat, a: nat, b: nat) returns (i: nat, j: nat)
    requires a < b < |names| && Distance(given, names[a]) == d && Distance(given, names[b]) == d
    ensures i < j < |AtDistance(given, names, d)|
    ensures AtDistance(given, names, d)[i] == names[a] && AtDistance(given, names, d)[j] == names[b]
  {
    hide Distance;
    var rest := names[..|names| - 1];
    if b < |rest| {
      i, j := SuggestedInOrder(given, rest, d, a, b);
    } else {
      i := NearIsThere(given, rest, d, a);
      j := |AtDistance(given, rest, d)|;
    }
  }

  lemma {:induction false} NearIsThere(given: string, names: seq<string>, d: nat, a: nat) returns (i: nat)
    requires a < |names| && Distance(given, names[a]) == d
    ensures i < |AtDistance(given, names, d)| && AtDistance(given, names, d)[i] == names[a]
  {
    hide Distance;
    var rest := names[..|names| - 1];
    if a < |rest| {
      i := NearIsThere(given, rest, d, a);
    } else {
      i := |AtDistance(given, rest, d)|;
    }
  }

  /** A text is read from its UTF-16 code units: a unit below the surrogates is a
      character, a high and a low surrogate are one above them. */
  function Decode(units: seq<CodeUnit>): string
    decreases |units|
  {
    if units == [] then ""
    else if 0xD800 <= units[0] as int < 0xDC00 && |units| >= 2 && 0xDC00 <= units[1] as int < 0xE000 then
      [(0x1_0000 + (units[0] as int - 0xD800) * 0x400 + (units[1] as int - 0xDC00)) as char] + Decode(units[2..])
    else if 0xD800 <= units[0] as int < 0xE000 then "?" + Decode(units[1..])
    else [units[0] as int as char] + Decode(units[1..])
  }

  /** The code units of a text determine it. */
  lemma {:induction false} DecodedUnits(s: string)
    ensures Decode(CodeUnits(s)) == s
  {
    if s != "" {
      var u := CodeUnits(s);
      DecodedUnits(s[1..]);
      if (s[0] as int) < 0x1_0000 {
        assert u[1..] == CodeUnits(s[1..]);
      } else {
        assert u[2..] == CodeUnits(s[1..]);
      }
    }
  }

  lemma {:induction false} CodeUnitsSnoc(s: string, c: char)
    requires (c as int) < 0x1_0000
    ensures CodeUnits(s + [c]) == CodeUnits(s) + [c as int as CodeUnit]
  {
    if s == "" {
      assert s + [c] == [c] && [c][1..] == "";
    } else {
      CodeUnitsSnoc(s[1..], c);
      assert (s + [c])[0] == s[0] && (s + [c])[1..] == s[1..] + [c];
    }
  }

  lemma LetterMissing(s: string, c: char)
    requires (c as int) < 0x1_0000
    ensures Distance(s, s + [c]) == 1
  {
    CodeUnitsSnoc(s, c);
    var a := CodeUnits(s);
    Adjacent(a, c as int as CodeUnit, a);
    ZeroIffEqual(a, a);
    ZeroIffEqual(a, a + [c as int as CodeUnit]);
  }
}
