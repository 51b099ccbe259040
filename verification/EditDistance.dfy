/** The recursive Levenshtein distance, what it means (the length of a shortest
    sequence of single-character edits), and the facts about it that the
    optimised algorithm of `findDistance` rests on. */
module Levenshtein {

  function Min(x: nat, y: nat): nat {
    if x < y then x else y
  }

  function Init<T>(s: seq<T>): seq<T>
    requires s != []
  {
    s[..|s| - 1]
  }

  function Last<T>(s: seq<T>): T
    requires s != []
  {
    s[|s| - 1]
  }

  /** Drop a character, add one, or keep or replace the last one. */
  function Cheapest(drop: nat, add: nat, both: nat, same: bool): nat {
    Min(Min(drop + 1, add + 1), both + if same then 0 else 1)
  }

  /** The textbook definition, by the last characters of both strings. */
  function Lev<T(==)>(a: seq<T>, b: seq<T>): nat
    decreases |a| + |b|
  {
    if a == [] then |b|
    else if b == [] then |a|
    else Cheapest(Lev(Init(a), b), Lev(a, Init(b)), Lev(Init(a), Init(b)), Last(a) == Last(b))
  }

  lemma LevSnoc<T>(a: seq<T>, x: T, b: seq<T>, y: T)
    ensures Lev(a + [x], b + [y]) == Cheapest(Lev(a, b + [y]), Lev(a + [x], b), Lev(a, b), x == y)
  {
    assert Init(a + [x]) == a && Init(b + [y]) == b;
  }

  lemma LevStep<T>(a: seq<T>, b: seq<T>)
    requires a != [] && b != []
    ensures Lev(a, b) == Cheapest(Lev(Init(a), b), Lev(a, Init(b)), Lev(Init(a), Init(b)), Last(a) == Last(b))
  {
  }

  lemma InitAppend<T>(u: seq<T>, v: seq<T>)
    requires v != []
    ensures u + v != [] && Init(u + v) == u + Init(v) && Last(u + v) == Last(v)
  {
  }

  lemma InitLast<T>(s: seq<T>)
    requires s != []
    ensures s == Init(s) + [Last(s)]
  {
  }

  lemma {:induction false} Symmetric<T>(a: seq<T>, b: seq<T>)
    ensures Lev(a, b) == Lev(b, a)
    decreases |a| + |b|
  {
    if a != [] && b != [] {
      Symmetric(Init(a), b);
      Symmetric(a, Init(b));
      Symmetric(Init(a), Init(b));
    }
  }

  /** Neighbouring cells of the dynamic programme differ by at most 1. */
  lemma {:induction false} Adjacent<T>(a: seq<T>, x: T, b: seq<T>)
    ensures Lev(a, b) <= Lev(a + [x], b) + 1
    ensures Lev(a + [x], b) <= Lev(a, b) + 1
    ensures Lev(b, a) <= Lev(b, a + [x]) + 1
    ensures Lev(b, a + [x]) <= Lev(b, a) + 1
    decreases |b|
  {
    Symmetric(a, b);
    Symmetric(a + [x], b);
    assert Init(a + [x]) == a;
    if b != [] {
      Adjacent(a, x, Init(b));
    }
  }

  // ----- trimming -----

  lemma TrimLast<T>(a: seq<T>, b: seq<T>, x: T)
    ensures Lev(a + [x], b + [x]) == Lev(a, b)
  {
    LevSnoc(a, x, b, x);
    Adjacent(b, x, a);
    Adjacent(a, x, b);
  }

  lemma {:induction false} TrimFirst<T>(x: T, a: seq<T>, b: seq<T>)
    ensures Lev([x] + a, [x] + b) == Lev(a, b)
    decreases |a| + |b|
  {
    if a == [] || b == [] {
      TrimFirstEmpty(x, a + b);
      Symmetric([x] + a, [x] + b);
      assert a + b == if a == [] then b else a;
      assert [x] + [] == [x];
    } else {
      TrimFirst(x, Init(a), b);
      TrimFirst(x, a, Init(b));
      TrimFirst(x, Init(a), Init(b));
      InitAppend([x], a);
      InitAppend([x], b);
      LevStep([x] + a, [x] + b);
      LevStep(a, b);
    }
  }

  lemma {:induction false} TrimFirstEmpty<T>(x: T, b: seq<T>)
    ensures Lev([x], [x] + b) == |b|
  {
    assert Init([x]) == [];
    if b == [] {
      assert [x] + b == [x];
    } else {
      TrimFirstEmpty(x, Init(b));
      assert Init([x] + b) == [x] + Init(b);
    }
  }

  lemma {:induction false} ZeroIffEqual<T>(a: seq<T>, b: seq<T>)
    ensures Lev(a, b) == 0 <==> a == b
    decreases |a| + |b|
  {
    if a != [] && b != [] {
      ZeroIffEqual(Init(a), Init(b));
      assert a == Init(a) + [Last(a)] && b == Init(b) + [Last(b)];
    }
  }

  /** After trimming, two short strings share neither their first nor their last
      character, and then their distance is the length of the longer one. */
  lemma ShortDistance<T>(a: seq<T>, b: seq<T>)
    requires |a| <= |b|
    requires a == [] || (|b| < 3 && a[0] != b[0] && Last(a) != Last(b))
    ensures Lev(a, b) == |b|
  {
    if a != [] {
      if |b| == 1 {
        assert Init(a) == [] && Init(b) == [];
      } else if |a| == 1 {
        assert Init(a) == [] && Init(b) == [b[0]] && Init(Init(b)) == [];
      } else {
        assert Init(a) == [a[0]] && Init(b) == [b[0]] && Init(Init(a)) == [] && Init(Init(b)) == [];
        ZeroIffEqual(a, Init(b));
        ZeroIffEqual(Init(a), b);
      }
    }
  }

  // ----- what the number means -----

  datatype Edit<T> = Insert(pos: nat, c: T) | Delete(pos: nat) | Replace(pos: nat, c: T)

  predicate Applicable<T>(e: Edit<T>, a: seq<T>) {
    if e.Insert? then e.pos <= |a| else e.pos < |a|
  }

  function Apply<T>(e: Edit<T>, a: seq<T>): seq<T>
    requires Applicable(e, a)
  {
    match e
    case Insert(p, c) => a[..p] + [c] + a[p..]
    case Delete(p) => a[..p] + [] + a[p + 1..]
    case Replace(p, c) => a[..p] + [c] + a[p + 1..]
  }

  /** `script`, applied edit by edit, turns `a` into `b`. */
  predicate Turns<T(==)>(script: seq<Edit<T>>, a: seq<T>, b: seq<T>) {
    if script == [] then a == b
    else Applicable(script[0], a) && Turns(script[1..], Apply(script[0], a), b)
  }

  lemma {:induction false} TurnsThen<T>(s: seq<Edit<T>>, a: seq<T>, m: seq<T>, e: Edit<T>)
    requires Turns(s, a, m) && Applicable(e, m)
    ensures Turns(s + [e], a, Apply(e, m))
  {
    if s == [] {
      assert (s + [e])[1..] == [];
    } else {
      TurnsThen(s[1..], Apply(s[0], a), m, e);
      assert (s + [e])[1..] == s[1..] + [e];
    }
  }

  lemma {:induction false} TurnsBefore<T>(s: seq<Edit<T>>, a: seq<T>, b: seq<T>, x: T)
    requires Turns(s, a, b)
    ensures Turns(s, a + [x], b + [x])
  {
    if s != [] {
      var e := s[0];
      TurnsBefore(s[1..], Apply(e, a), b, x);
      assert Apply(e, a + [x]) == Apply(e, a) + [x] by {
        assert (a + [x])[..e.pos] == a[..e.pos];
        assert (a + [x])[e.pos..] == a[e.pos..] + [x];
        if !e.Insert? {
          assert (a + [x])[e.pos + 1..] == a[e.pos + 1..] + [x];
        }
      }
    }
  }

  /** A script of exactly `Lev(a, b)` edits exists. */
  lemma {:induction false} ShortestScript<T>(a: seq<T>, b: seq<T>) returns (s: seq<Edit<T>>)
    ensures |s| == Lev(a, b) && Turns(s, a, b)
    decreases |a| + |b|
  {
    if a == [] && b == [] {
      s := [];
    } else {
      var k := LastMove(a, b);
      if k == 0 {
        var rest := ShortestScript(Init(a), b);
        s := DeleteThen(a, b, rest);
      } else if k == 1 {
        var rest := ShortestScript(a, Init(b));
        s := ThenInsert(a, b, rest);
      } else {
        var rest := ShortestScript(Init(a), Init(b));
        s := ReplaceLast(a, b, rest);
      }
    }
  }

  /** Which of the three neighbours attains the minimum. */
  lemma LastMove<T>(a: seq<T>, b: seq<T>) returns (k: nat)
    requires a != [] || b != []
    ensures k == 0 ==> a != [] && Lev(a, b) == Lev(Init(a), b) + 1
    ensures k == 1 ==> b != [] && Lev(a, b) == Lev(a, Init(b)) + 1
    ensures k > 1 ==> a != [] && b != []
    ensures k > 1 ==> Lev(a, b) == Lev(Init(a), Init(b)) + if Last(a) == Last(b) then 0 else 1
  {
    if b == [] {
      k := 0;
    } else if a == [] {
      k := 1;
    } else {
      LevStep(a, b);
      k := if Lev(a, b) == Lev(Init(a), b) + 1 then 0
           else if Lev(a, b) == Lev(a, Init(b)) + 1 then 1 else 2;
    }
  }

  lemma ThenInsert<T>(a: seq<T>, b: seq<T>, rest: seq<Edit<T>>) returns (s: seq<Edit<T>>)
    requires b != [] && Turns(rest, a, Init(b))
    ensures |s| == |rest| + 1 && Turns(s, a, b)
  {
    var e := Insert(|b| - 1, Last(b));
    TurnsThen(rest, a, Init(b), e);
    assert Apply(e, Init(b)) == b;
    s := rest + [e];
  }

  lemma DeleteThen<T>(a: seq<T>, b: seq<T>, rest: seq<Edit<T>>) returns (s: seq<Edit<T>>)
    requires a != [] && Turns(rest, Init(a), b)
    ensures |s| == |rest| + 1 && Turns(s, a, b)
  {
    s := [Delete(|a| - 1)] + rest;
    assert Apply(s[0], a) == Init(a) && s[1..] == rest;
  }

  lemma ReplaceEnd<T>(u: seq<T>, x: T, y: T)
    ensures Apply(Replace(|u|, y), u + [x]) == u + [y]
  {
  }

  lemma ReplaceLast<T>(a: seq<T>, b: seq<T>, rest: seq<Edit<T>>) returns (s: seq<Edit<T>>)
    requires a != [] && b != [] && Turns(rest, Init(a), Init(b))
    ensures |s| == |rest| + (if Last(a) == Last(b) then 0 else 1) && Turns(s, a, b)
  {
    var x, y := Last(a), Last(b);
    TurnsBefore(rest, Init(a), Init(b), x);
    InitLast(a);
    InitLast(b);
    s := rest;
    if x != y {
      ReplaceEnd(Init(b), x, y);
      TurnsThen(rest, a, Init(b) + [x], Replace(|b| - 1, y));
      s := rest + [Replace(|b| - 1, y)];
    }
  }

  /** Replacing a middle part of at most one character by another such part
      moves the distance to `b` by at most 1. */
  lemma {:induction false} Splice<T>(u: seq<T>, m: seq<T>, n: seq<T>, v: seq<T>, b: seq<T>)
    requires |m| <= 1 && |n| <= 1
    ensures Lev(u + m + v, b) <= Lev(u + n + v, b) + 1
    decreases |v| + |b|
  {
    if b == [] {
    } else if v == [] {
      assert u + m + v == u + m && u + n + v == u + n;
      SpliceLast(u, m, n, b);
    } else {
      Splice(u, m, n, Init(v), b);
      Splice(u, m, n, v, Init(b));
      Splice(u, m, n, Init(v), Init(b));
      InitAppend(u + m, v);
      InitAppend(u + n, v);
      LevStep(u + m + v, b);
      LevStep(u + n + v, b);
    }
  }

  lemma SpliceLast<T>(u: seq<T>, m: seq<T>, n: seq<T>, b: seq<T>)
    requires |m| <= 1 && |n| <= 1
    ensures Lev(u + m, b) <= Lev(u + n, b) + 1
  {
    assert u + [] == u;
    if m == [] && n != [] {
      assert n == [n[0]];
      Adjacent(u, n[0], b);
    } else if m != [] && n == [] {
      assert m == [m[0]];
      Adjacent(u, m[0], b);
    } else if m != [] && n != [] {
      assert m == [m[0]] && n == [n[0]];
      SwapLast(u, m[0], n[0], b);
    }
  }

  lemma {:induction false} SwapLast<T>(u: seq<T>, x: T, y: T, b: seq<T>)
    ensures Lev(u + [x], b) <= Lev(u + [y], b) + 1
    decreases |b|
  {
    if b != [] {
      SwapLast(u, x, y, Init(b));
      assert Init(u + [x]) == u && Init(u + [y]) == u;
      LevStep(u + [x], b);
      LevStep(u + [y], b);
    }
  }

  lemma OneEdit<T>(e: Edit<T>, a: seq<T>, b: seq<T>)
    requires Applicable(e, a)
    ensures Lev(a, b) <= Lev(Apply(e, a), b) + 1
  {
    var p := e.pos;
    match e
    case Insert(_, c) =>
      assert a == a[..p] + [] + a[p..];
      Splice(a[..p], [], [c], a[p..], b);
    case Delete(_) =>
      assert a == a[..p] + [a[p]] + a[p + 1..];
      Splice(a[..p], [a[p]], [], a[p + 1..], b);
    case Replace(_, c) =>
      assert a == a[..p] + [a[p]] + a[p + 1..];
      Splice(a[..p], [a[p]], [c], a[p + 1..], b);
  }

  /** No script is shorter. */
  lemma {:induction false} NoShorterScript<T>(s: seq<Edit<T>>, a: seq<T>, b: seq<T>)
    requires Turns(s, a, b)
    ensures Lev(a, b) <= |s|
  {
    if s == [] {
      ZeroIffEqual(a, b);
    } else {
      NoShorterScript(s[1..], Apply(s[0], a), b);
      OneEdit(s[0], a, b);
    }
  }
}

/** `findDistance` of contract-names.ts. */
module ContractDistance {
  import opened Levenshtein

  /** A UTF-16 code unit, as `charCodeAt` returns it. */
  newtype CodeUnit = x: int | 0 <= x < 0x1_0000

  /** The inner function `_min`: it looks at the two neighbours before it
      compares the characters. */
  function Cell(d0: int, d1: int, d2: int, bx: CodeUnit, ay: CodeUnit): int {
    if d0 < d1 || d2 < d1 then
      if d0 > d2 then d2 + 1 else d0 + 1
    else if bx == ay then d1 else d1 + 1
  }

  /** The cell of the table for the first `y` characters of `s` and `x` of `t`. */
  ghost function Table(s: seq<CodeUnit>, t: seq<CodeUnit>, y: nat, x: nat): nat
    requires y <= |s| && x <= |t|
  {
    Lev(s[..y], t[..x])
  }

  /** `_min` computes the next cell exactly, because neighbours differ by at most 1. */
  lemma CellIsNext(s: seq<CodeUnit>, t: seq<CodeUnit>, y: nat, x: nat)
    requires y < |s| && x < |t|
    ensures Cell(Table(s, t, y + 1, x), Table(s, t, y, x), Table(s, t, y, x + 1), t[x], s[y])
         == Table(s, t, y + 1, x + 1)
  {
    assert s[..y + 1] == s[..y] + [s[y]] && t[..x + 1] == t[..x] + [t[x]];
    LevSnoc(s[..y], s[y], t[..x], t[x]);
    Adjacent(s[..y], s[y], t[..x]);
    Adjacent(t[..x], t[x], s[..y]);
  }

  /** One pass of the unrolled loop advances every column by four rows. */
  lemma FourCells(s: seq<CodeUnit>, t: seq<CodeUnit>, y: nat, x: nat)
    requires y < |s| && x + 4 <= |t|
    ensures
      var d0 := Cell(Table(s, t, y + 1, x), Table(s, t, y, x), Table(s, t, y, x + 1), t[x], s[y]);
      var d1 := Cell(d0, Table(s, t, y, x + 1), Table(s, t, y, x + 2), t[x + 1], s[y]);
      var d2 := Cell(d1, Table(s, t, y, x + 2), Table(s, t, y, x + 3), t[x + 2], s[y]);
      var dd := Cell(d2, Table(s, t, y, x + 3), Table(s, t, y, x + 4), t[x + 3], s[y]);
      d0 == Table(s, t, y + 1, x + 1) && d1 == Table(s, t, y + 1, x + 2) &&
      d2 == Table(s, t, y + 1, x + 3) && dd == Table(s, t, y + 1, x + 4)
  {
    CellIsNext(s, t, y, x);
    CellIsNext(s, t, y, x + 1);
    CellIsNext(s, t, y, x + 2);
    CellIsNext(s, t, y, x + 3);
  }

  /** Entries 2y of `v` are row `x` of the table from `from` on, row `x2` before;
      entries 2y + 1 are the characters of `s`. */
  ghost predicate Row(v: seq<int>, s: seq<CodeUnit>, t: seq<CodeUnit>, done: nat, after: nat, before: nat)
    requires after <= |t| && before <= |t|
  {
    && |v| == 2 * |s|
    && (forall y :: 0 <= y < |s| ==> v[2 * y + 1] == s[y] as int)
    && (forall y :: 0 <= y < |s| ==>
          v[2 * y] == Table(s, t, y + 1, if y < done then after else before))
  }

  lemma TrimLastAt(a: seq<CodeUnit>, b: seq<CodeUnit>, i: nat, j: nat)
    requires 0 < i <= |a| && 0 < j <= |b| && a[i - 1] == b[j - 1]
    ensures Lev(a[..i], b[..j]) == Lev(a[..i - 1], b[..j - 1])
  {
    hide Lev;
    TrimLast(a[..i - 1], b[..j - 1], a[i - 1]);
    LastOfSlice(a, i);
    LastOfSlice(b, j);
  }

  lemma LastOfSlice<T>(s: seq<T>, i: nat)
    requires 0 < i <= |s|
    ensures s[..i] == s[..i - 1] + [s[i - 1]]
  {
  }

  lemma FirstOfSlice<T>(s: seq<T>, k: nat, i: nat)
    requires k < i <= |s|
    ensures s[k..i] == [s[k]] + s[k + 1..i]
  {
  }

  lemma TrimFirstAt(a: seq<CodeUnit>, b: seq<CodeUnit>, k: nat, i: nat, j: nat)
    requires k < i <= |a| && k < j <= |b| && a[k] == b[k]
    ensures Lev(a[k..i], b[k..j]) == Lev(a[k + 1..i], b[k + 1..j])
  {
    TrimFirst(a[k], a[k + 1..i], b[k + 1..j]);
    FirstOfSlice(a, k, i);
    FirstOfSlice(b, k, j);
  }

  method TrimSuffix(a: seq<CodeUnit>, b: seq<CodeUnit>) returns (la: nat, lb: nat)
    requires |a| <= |b|
    ensures la <= |a| && lb == la + |b| - |a|
    ensures Lev(a[..la], b[..lb]) == Lev(a, b)
    ensures la > 0 ==> a[la - 1] != b[lb - 1]
  {
    la, lb := |a|, |b|;
    assert a[..la] == a && b[..lb] == b;
    while la > 0 && a[la - 1] == b[lb - 1]
      invariant la <= |a| && lb == la + |b| - |a|
      invariant Lev(a[..la], b[..lb]) == Lev(a, b)
    {
      TrimLastAt(a, b, la, lb);
      la, lb := la - 1, lb - 1;
    }
  }

  method TrimPrefix(a: seq<CodeUnit>, b: seq<CodeUnit>, la: nat, lb: nat) returns (offset: nat)
    requires la <= |a| && la <= lb <= |b|
    ensures offset <= la
    ensures Lev(a[offset..la], b[offset..lb]) == Lev(a[..la], b[..lb])
    ensures offset < la ==> a[offset] != b[offset]
  {
    offset := 0;
    while offset < la && a[offset] == b[offset]
      invariant offset <= la
      invariant Lev(a[offset..la], b[offset..lb]) == Lev(a[..la], b[..lb])
    {
      TrimFirstAt(a, b, offset, la, lb);
      offset := offset + 1;
    }
  }

  lemma RowAt(v: seq<int>, s: seq<CodeUnit>, t: seq<CodeUnit>, y: nat, x: nat, x0: nat)
    requires x <= |t| && x0 <= |t| && y < |s| && Row(v, s, t, y, x, x0)
    ensures v[2 * y] == Table(s, t, y + 1, x0) && v[2 * y + 1] == s[y] as int
  {
  }

  lemma RowDone(v: seq<int>, s: seq<CodeUnit>, t: seq<CodeUnit>, x: nat, x0: nat)
    requires x <= |t| && x0 <= |t| && Row(v, s, t, |s|, x, x0)
    ensures Row(v, s, t, 0, x, x)
  {
  }

  lemma NextRow(v: seq<int>, s: seq<CodeUnit>, t: seq<CodeUnit>, y: nat, x: nat, x0: nat, dd: int)
    requires x <= |t| && x0 <= |t| && y < |s|
    requires Row(v, s, t, y, x, x0) && dd == Table(s, t, y + 1, x)
    ensures Row(v[2 * y := dd], s, t, y + 1, x, x0)
  {
  }

  /** The inner loop of the unrolled part: one column after the other, four rows. */
  method FourRows(vector: array<int>, s: seq<CodeUnit>, t: seq<CodeUnit>, x: nat) returns (dd: int)
    requires 0 < |s| && x + 4 <= |t| && Row(vector[..], s, t, 0, x, x)
    modifies vector
    ensures Row(vector[..], s, t, 0, x + 4, x + 4)
    ensures dd == Table(s, t, |s|, x + 4)
  {
    var bx0, bx1, bx2, bx3 := t[x], t[x + 1], t[x + 2], t[x + 3];
    var d0, d1, d2, d3 := x, x + 1, x + 2, x + 3;
    dd := x + 4;
    var y := 0;
    while y < |s|
      invariant 0 <= y <= |s|
      invariant Row(vector[..], s, t, y, x + 4, x)
      invariant d0 == Table(s, t, y, x) && d1 == Table(s, t, y, x + 1)
      invariant d2 == Table(s, t, y, x + 2) && d3 == Table(s, t, y, x + 3)
      invariant dd == Table(s, t, y, x + 4)
    {
      RowAt(vector[..], s, t, y, x + 4, x);
      var dy := vector[2 * y];
      var ay := vector[2 * y + 1] as CodeUnit;
      FourCells(s, t, y, x);
      d0 := Cell(dy, d0, d1, bx0, ay);
      d1 := Cell(d0, d1, d2, bx1, ay);
      d2 := Cell(d1, d2, d3, bx2, ay);
      dd := Cell(d2, d3, dd, bx3, ay);
      NextRow(vector[..], s, t, y, x + 4, x, dd);
      vector[2 * y] := dd;
      d3 := d2;
      d2 := d1;
      d1 := d0;
      d0 := dy;
      y := y + 1;
    }
    RowDone(vector[..], s, t, x + 4, x);
  }

  /** The inner loop of the tail: one row. */
  method OneRow(vector: array<int>, s: seq<CodeUnit>, t: seq<CodeUnit>, x: nat) returns (dd: int)
    requires 0 < |s| && x < |t| && Row(vector[..], s, t, 0, x, x)
    modifies vector
    ensures Row(vector[..], s, t, 0, x + 1, x + 1)
    ensures dd == Table(s, t, |s|, x + 1)
  {
    var bx0 := t[x];
    var d0 := x;
    dd := x + 1;
    var y := 0;
    while y < |s|
      invariant 0 <= y <= |s|
      invariant Row(vector[..], s, t, y, x + 1, x)
      invariant d0 == Table(s, t, y, x) && dd == Table(s, t, y, x + 1)
    {
      RowAt(vector[..], s, t, y, x + 1, x);
      var dy := vector[2 * y];
      CellIsNext(s, t, y, x);
      dd := Cell(dy, d0, dd, bx0, vector[2 * y + 1] as CodeUnit);
      NextRow(vector[..], s, t, y, x + 1, x, dd);
      vector[2 * y] := dd;
      d0 := dy;
      y := y + 1;
    }
    RowDone(vector[..], s, t, x + 1, x);
  }

  /** The first loop: a row of distances from nothing, paired with the characters. */
  method FirstRow(s: seq<CodeUnit>, t: seq<CodeUnit>) returns (vector: array<int>)
    ensures fresh(vector) && Row(vector[..], s, t, 0, 0, 0)
  {
    vector := new int[2 * |s|];
    var y := 0;
    while y < |s|
      invariant 0 <= y <= |s|
      invariant forall k :: 0 <= k < y ==> vector[2 * k] == k + 1 && vector[2 * k + 1] == s[k] as int
    {
      vector[2 * y] := y + 1;
      vector[2 * y + 1] := s[y] as int;
      y := y + 1;
    }
    FirstColumn(s, t);
  }

  lemma FirstColumn(s: seq<CodeUnit>, t: seq<CodeUnit>)
    ensures forall y :: 0 <= y <= |s| ==> Table(s, t, y, 0) == y
  {
    assert t[..0] == [];
  }

  lemma WholeTable(s: seq<CodeUnit>, t: seq<CodeUnit>)
    ensures Table(s, t, |s|, |t|) == Lev(s, t)
  {
    assert s[..|s|] == s && t[..|t|] == t;
  }

  /** The one-row dynamic programme: four rows at a time, then the rest one by one. */
  method FillTable(s: seq<CodeUnit>, t: seq<CodeUnit>) returns (dd: int)
    requires 0 < |s| && 3 <= |t|
    ensures dd == Lev(s, t)
  {
    hide Table, Lev, Row;
    var vector := FirstRow(s, t);
    var x := 0;
    dd := 0;
    while x < |t| - 3
      invariant 0 <= x <= |t|
      invariant Row(vector[..], s, t, 0, x, x)
      invariant x > 0 ==> dd == Table(s, t, |s|, x)
    {
      dd := FourRows(vector, s, t, x);
      x := x + 4;
    }
    while x < |t|
      invariant 0 <= x <= |t|
      invariant Row(vector[..], s, t, 0, x, x)
      invariant x > 0 ==> dd == Table(s, t, |s|, x)
    {
      dd := OneRow(vector, s, t, x);
      x := x + 1;
    }
    WholeTable(s, t);
  }

  /** The whole of `findDistance`: for all strings, the Levenshtein distance. */
  method FindDistance(a0: seq<CodeUnit>, b0: seq<CodeUnit>) returns (d: int)
    ensures d == Lev(a0, b0)
  {
    if a0 == b0 {
      ZeroIffEqual(a0, b0);
      return 0;
    }
    var a, b := a0, b0;
    if |a| > |b| {
      a, b := b, a;
    }
    Symmetric(a0, b0);
    d := TrimAndFill(a, b);
  }

  /** The part after the swap, with the shorter string first. */
  method TrimAndFill(a: seq<CodeUnit>, b: seq<CodeUnit>) returns (d: int)
    requires |a| <= |b|
    ensures d == Lev(a, b)
  {
    var la, lb := TrimSuffix(a, b);
    var offset := TrimPrefix(a, b, la, lb);
    var s, t := a[offset..la], b[offset..lb];
    assert Lev(s, t) == Lev(a, b);
    la := la - offset;
    lb := lb - offset;
    if la == 0 || lb < 3 {
      ShortDistance(s, t);
      return lb;
    }
    d := FillTable(s, t);
  }

  /** For all strings the number returned is that of a shortest edit script. */
  method FewestEdits(a: seq<CodeUnit>, b: seq<CodeUnit>) returns (d: int)
    ensures exists s: seq<Edit<CodeUnit>> :: Turns(s, a, b) && |s| == d
    ensures forall s: seq<Edit<CodeUnit>> :: Turns(s, a, b) ==> d <= |s|
  {
    d := FindDistance(a, b);
    ghost var w := ShortestScript(a, b);
    forall s: seq<Edit<CodeUnit>> | Turns(s, a, b)
      ensures d <= |s|
    {
      NoShorterScript(s, a, b);
    }
  }
}
