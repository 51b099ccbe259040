/** Library linking in helpers.ts: choosing a link for every library a contract
    needs, and writing the addresses into the bytecode. */
module Linking {

  datatype Result<+T, +E> = Ok(value: T) | Err(error: E)

  datatype Slot = Slot(start: nat, length: nat)

  datatype LibRefs = LibRefs(libName: string, slots: seq<Slot>)

  /** `artifact.linkReferences`, in enumeration order. */
  datatype SourceRefs = SourceRefs(sourceName: string, libs: seq<LibRefs>)

  datatype Library = Library(sourceName: string, libName: string)

  /** One entry of the `libraries` the user passes, its address resolved. */
  datatype Given = Given(name: string, address: string)

  datatype Link = Link(lib: Library, address: string)

  datatype LinkError =
    | InvalidAddress(name: string)
    | NotNeeded(name: string)
    | Ambiguous(name: string, candidates: seq<string>)
    | GivenTwice(libName: string, fqn: string)
    | MissingLinks(missing: seq<string>)

  function Fqn(lib: Library): string {
    lib.sourceName + ":" + lib.libName
  }

  predicate Matches(lib: Library, name: string) {
    lib.libName == name || Fqn(lib) == name
  }

  function LibrariesOf(source: string, libs: seq<LibRefs>): seq<Library> {
    seq(|libs|, i requires 0 <= i < |libs| => Library(source, libs[i].libName))
  }

  function NeededLibraries(refs: seq<SourceRefs>): seq<Library> {
    if refs == [] then [] else LibrariesOf(refs[0].sourceName, refs[0].libs) + NeededLibraries(refs[1..])
  }

  /** `neededLibraries.filter`. */
  function Matching(needed: seq<Library>, name: string): seq<Library> {
    if needed == [] then []
    else if Matches(needed[0], name) then [needed[0]] + Matching(needed[1..], name)
    else Matching(needed[1..], name)
  }

  function Fqns(libs: seq<Library>): seq<string> {
    seq(|libs|, i requires 0 <= i < |libs| => Fqn(libs[i]))
  }

  predicate HasLink(links: seq<Link>, fqn: string) {
    exists i :: 0 <= i < |links| && Fqn(links[i].lib) == fqn
  }

  // ----- what a successful choice is -----

  /** The link made for one given entry: the only needed library its name matches. */
  ghost predicate LinkFor(needed: seq<Library>, isAddress: string -> bool, g: Given, l: Link) {
    isAddress(g.address) && l.address == g.address && Matching(needed, g.name) == [l.lib]
  }

  ghost predicate DistinctLinks(links: seq<Link>) {
    forall i, j :: 0 <= i < j < |links| ==> Fqn(links[i].lib) != Fqn(links[j].lib)
  }

  /** The links so far are those of the entries so far, all for different libraries. */
  ghost predicate LinksOf(needed: seq<Library>, isAddress: string -> bool, given: seq<Given>, links: seq<Link>) {
    && |links| == |given| && DistinctLinks(links)
    && forall i :: 0 <= i < |given| ==> LinkFor(needed, isAddress, given[i], links[i])
  }

  /** Links and needed libraries correspond one to one. */
  ghost predicate Bijection(needed: seq<Library>, links: seq<Link>) {
    && |links| == |needed| && DistinctLinks(links)
    && (forall i :: 0 <= i < |links| ==> links[i].lib in needed)
    && (forall n <- needed :: exists i :: 0 <= i < |links| && links[i].lib == n)
    && (forall i, j :: 0 <= i < j < |needed| ==> Fqn(needed[i]) != Fqn(needed[j]))
  }

  lemma {:induction false} MatchingIsSound(needed: seq<Library>, name: string)
    ensures forall lib <- Matching(needed, name) :: lib in needed && Matches(lib, name)
    ensures forall lib <- needed :: Matches(lib, name) ==> lib in Matching(needed, name)
  {
    if needed != [] {
      MatchingIsSound(needed[1..], name);
    }
  }

  // ----- the counting argument -----

  ghost function Names(s: seq<string>): set<string> {
    set x | x in s
  }

  lemma {:induction false} AtMostLength(s: seq<string>)
    ensures |Names(s)| <= |s|
    ensures |Names(s)| == |s| ==> forall i, j :: 0 <= i < j < |s| ==> s[i] != s[j]
  {
    if s != [] {
      var t, x := s[..|s| - 1], s[|s| - 1];
      AtMostLength(t);
      assert s == t + [x];
      assert Names(s) == Names(t) + {x};
    }
  }

  lemma {:induction false} DistinctCount(s: seq<string>)
    requires forall i, j :: 0 <= i < j < |s| ==> s[i] != s[j]
    ensures |Names(s)| == |s|
  {
    if s != [] {
      var t, x := s[..|s| - 1], s[|s| - 1];
      DistinctCount(t);
      assert s == t + [x];
      assert Names(s) == Names(t) + {x} && x !in Names(t);
    }
  }

  lemma SubsetOfEqualSize<T>(a: set<T>, b: set<T>)
    requires a <= b && |a| >= |b|
    ensures a == b
  {
    assert b == a + (b - a);
  }

  lemma SubsetSize<T>(a: set<T>, b: set<T>)
    requires a <= b
    ensures |a| <= |b|
  {
    assert b == a + (b - a);
  }

  ghost function LinkFqns(links: seq<Link>): seq<string> {
    seq(|links|, i requires 0 <= i < |links| => Fqn(links[i].lib))
  }

  /** No size check beyond `links.size < needed.length` is needed: distinct links
      to needed libraries, at least as many, are a bijection. */
  lemma EnoughLinksAreAll(needed: seq<Library>, links: seq<Link>)
    requires DistinctLinks(links) && |links| >= |needed|
    requires forall i :: 0 <= i < |links| ==> links[i].lib in needed
    ensures Bijection(needed, links)
  {
    var a, b := LinkFqns(links), Fqns(needed);
    DistinctCount(a);
    AtMostLength(b);
    forall i | 0 <= i < |links|
      ensures a[i] in b
    {
      var j :| 0 <= j < |needed| && needed[j] == links[i].lib;
      assert b[j] == a[i];
    }
    assert Names(a) <= Names(b);
    SubsetSize(Names(a), Names(b));
    SubsetOfEqualSize(Names(a), Names(b));
    AllLinked(needed, links, a, b);
  }

  lemma AllLinked(needed: seq<Library>, links: seq<Link>, a: seq<string>, b: seq<string>)
    requires a == LinkFqns(links) && b == Fqns(needed) && Names(a) == Names(b)
    requires forall i, j :: 0 <= i < j < |b| ==> b[i] != b[j]
    requires forall i :: 0 <= i < |links| ==> links[i].lib in needed
    ensures forall i, j :: 0 <= i < j < |needed| ==> Fqn(needed[i]) != Fqn(needed[j])
    ensures forall n <- needed :: exists i :: 0 <= i < |links| && links[i].lib == n
  {
    assert forall i :: 0 <= i < |needed| ==> b[i] == Fqn(needed[i]);
    forall n | n in needed
      ensures exists i :: 0 <= i < |links| && links[i].lib == n
    {
      var k :| 0 <= k < |needed| && needed[k] == n;
      assert b[k] in Names(b);
      var i :| 0 <= i < |a| && a[i] == b[k];
      var j :| 0 <= j < |needed| && needed[j] == links[i].lib;
      assert b[j] == b[k];
    }
  }

  // ----- choosing the links -----

  /** The nested loops over `linkReferences`. */
  method CollectNeeded(refs: seq<SourceRefs>) returns (needed: seq<Library>)
    ensures needed == NeededLibraries(refs)
  {
    needed := [];
    var i := 0;
    assert refs[..0] == [];
    while i < |refs|
      invariant 0 <= i <= |refs|
      invariant needed == NeededLibraries(refs[..i])
    {
      NeededSnoc(refs, i);
      hide NeededLibraries;
      var j := 0;
      ghost var before, all := needed, LibrariesOf(refs[i].sourceName, refs[i].libs);
      while j < |refs[i].libs|
        invariant 0 <= j <= |refs[i].libs|
        invariant needed == before + all[..j]
      {
        needed := needed + [Library(refs[i].sourceName, refs[i].libs[j].libName)];
        assert all[..j + 1] == all[..j] + [all[j]];
        j := j + 1;
      }
      assert all[..j] == all;
      i := i + 1;
    }
    assert refs[..i] == refs;
  }

  lemma {:induction false} NeededSnoc(refs: seq<SourceRefs>, i: nat)
    requires i < |refs|
    ensures NeededLibraries(refs[..i + 1]) == NeededLibraries(refs[..i]) + LibrariesOf(refs[i].sourceName, refs[i].libs)
  {
    hide LibrariesOf;
    if i == 0 {
      assert refs[..1] == [refs[0]] && refs[..0] == [];
    } else {
      NeededSnoc(refs[1..], i - 1);
      assert refs[..i + 1][1..] == refs[1..][..i] && refs[..i][1..] == refs[1..][..i - 1];
    }
  }

  /** The loop over the given libraries and the final size check: it succeeds
      exactly when the entries determine a link for every needed library. */
  method ChooseLinks(needed: seq<Library>, given: seq<Given>, isAddress: string -> bool)
    returns (r: Result<seq<Link>, LinkError>)
    ensures r.Ok? ==> LinksOf(needed, isAddress, given, r.value) && Bijection(needed, r.value)
    ensures r.Err? ==> Explains(needed, isAddress, given, r.error)
    ensures r.Err? && !r.error.MissingLinks? ==> FirstBad(needed, isAddress, given, r.error)
    ensures r.Err? ==> forall links :: !(LinksOf(needed, isAddress, given, links) && Bijection(needed, links))
  {
    hide Bijection, Explains, EntryError;
    var links: seq<Link> := [];
    var i := 0;
    while i < |given|
      invariant 0 <= i <= |given|
      invariant LinksOf(needed, isAddress, given[..i], links)
    {
      var link := ChooseLink(needed, given[i], links, isAddress);
      if link.Err? {
        EntryStops(needed, isAddress, given, i, links, link.error);
        assert FirstBad(needed, isAddress, given, link.error);
        return Err(link.error);
      }
      assert given[..i + 1] == given[..i] + [given[i]];
      links := links + [link.value];
      i := i + 1;
    }
    assert given[..i] == given;
    if |links| < |needed| {
      TooFew(needed, isAddress, given, links);
      return Err(MissingLinks(Missing(Fqns(needed), links)));
    }
    LinksAreNeeded(needed, isAddress, given, links);
    EnoughLinksAreAll(needed, links);
    r := Ok(links);
  }

  /** The error is that of the first entry without a link: those before have theirs. */
  ghost predicate FirstBad(needed: seq<Library>, isAddress: string -> bool, given: seq<Given>, e: LinkError) {
    exists i, links :: 0 <= i < |given| && LinksOf(needed, isAddress, given[..i], links) &&
      EntryError(needed, isAddress, given[i], links, e)
  }

  /** The body of the loop. */
  method ChooseLink(needed: seq<Library>, g: Given, links: seq<Link>, isAddress: string -> bool)
    returns (r: Result<Link, LinkError>)
    ensures r.Ok? ==> LinkFor(needed, isAddress, g, r.value) && !HasLink(links, Fqn(r.value.lib))
    ensures r.Err? ==> EntryError(needed, isAddress, g, links, r.error)
  {
    if !isAddress(g.address) {
      return Err(InvalidAddress(g.name));
    }
    var matching := Matching(needed, g.name);
    if |matching| == 0 {
      return Err(NotNeeded(g.name));
    }
    if |matching| > 1 {
      return Err(Ambiguous(g.name, Fqns(matching)));
    }
    var lib := matching[0];
    if HasLink(links, Fqn(lib)) {
      return Err(GivenTwice(lib.libName, Fqn(lib)));
    }
    r := Ok(Link(lib, g.address));
  }

  ghost predicate EntryError(needed: seq<Library>, isAddress: string -> bool, g: Given, links: seq<Link>, e: LinkError) {
    var m := Matching(needed, g.name);
    match e
    case InvalidAddress(name) => name == g.name && !isAddress(g.address)
    case NotNeeded(name) => name == g.name && m == []
    case Ambiguous(name, candidates) => name == g.name && |m| > 1 && candidates == Fqns(m)
    case GivenTwice(libName, fqn) => |m| == 1 && libName == m[0].libName && fqn == Fqn(m[0]) && HasLink(links, fqn)
    case MissingLinks(_) => false
  }

  lemma EntryStops(needed: seq<Library>, isAddress: string -> bool, given: seq<Given>, i: nat, links: seq<Link>, e: LinkError)
    requires i < |given| && LinksOf(needed, isAddress, given[..i], links)
    requires EntryError(needed, isAddress, given[i], links, e)
    ensures Explains(needed, isAddress, given, e)
    ensures forall all :: !LinksOf(needed, isAddress, given, all)
  {
    LinksUnique(needed, isAddress, given, i, links);
    if e.GivenTwice? {
      var j :| 0 <= j < |links| && Fqn(links[j].lib) == e.fqn;
      assert LinkFor(needed, isAddress, given[..i][j], links[j]) && given[..i][j] == given[j];
      assert SameLibrary(needed, given[j], given[i], e.fqn);
    }
  }

  lemma TooFew(needed: seq<Library>, isAddress: string -> bool, given: seq<Given>, links: seq<Link>)
    requires LinksOf(needed, isAddress, given, links) && |links| < |needed|
    ensures Explains(needed, isAddress, given, MissingLinks(Missing(Fqns(needed), links)))
    ensures forall all :: !(LinksOf(needed, isAddress, given, all) && Bijection(needed, all))
  {
    MissingIsExact(Fqns(needed), links);
  }

  /** The error names what is wrong with the entries. */
  ghost predicate Explains(needed: seq<Library>, isAddress: string -> bool, given: seq<Given>, e: LinkError) {
    match e
    case InvalidAddress(name) => exists g <- given :: g.name == name && !isAddress(g.address)
    case NotNeeded(name) => (exists g <- given :: g.name == name) && Matching(needed, name) == []
    case Ambiguous(name, candidates) =>
      (exists g <- given :: g.name == name) && |Matching(needed, name)| > 1 && candidates == Fqns(Matching(needed, name))
    case GivenTwice(_, fqn) =>
      exists i, j :: 0 <= i < j < |given| && SameLibrary(needed, given[i], given[j], fqn)
    case MissingLinks(missing) =>
      exists links :: LinksOf(needed, isAddress, given, links) &&
        forall fqn :: fqn in missing <==> fqn in Fqns(needed) && !HasLink(links, fqn)
  }

  ghost predicate SameLibrary(needed: seq<Library>, g: Given, h: Given, fqn: string) {
    && |Matching(needed, g.name)| == 1 && Fqn(Matching(needed, g.name)[0]) == fqn
    && |Matching(needed, h.name)| == 1 && Fqn(Matching(needed, h.name)[0]) == fqn
  }

  lemma {:induction false} MissingIsExact(fqns: seq<string>, links: seq<Link>)
    ensures forall fqn :: fqn in Missing(fqns, links) <==> fqn in fqns && !HasLink(links, fqn)
  {
    if fqns != [] {
      MissingIsExact(fqns[1..], links);
    }
  }

  function Missing(fqns: seq<string>, links: seq<Link>): seq<string> {
    if fqns == [] then []
    else if HasLink(links, fqns[0]) then Missing(fqns[1..], links)
    else [fqns[0]] + Missing(fqns[1..], links)
  }

  /** The links chosen for a prefix of the entries are the only possible ones. */
  lemma LinksUnique(needed: seq<Library>, isAddress: string -> bool, given: seq<Given>, i: nat, links: seq<Link>)
    requires i <= |given| && LinksOf(needed, isAddress, given[..i], links)
    ensures forall all: seq<Link> :: LinksOf(needed, isAddress, given, all) ==>
              |all| == |given| && (i == |given| ==> all == links) &&
              (i < |given| ==> LinkFor(needed, isAddress, given[i], all[i]) && !HasLink(links, Fqn(all[i].lib)))
  {
    forall all: seq<Link> | LinksOf(needed, isAddress, given, all)
      ensures i == |given| ==> all == links
      ensures i < |given| ==> !HasLink(links, Fqn(all[i].lib))
    {
      forall k | 0 <= k < i
        ensures all[k] == links[k]
      {
        assert given[..i][k] == given[k];
        assert LinkFor(needed, isAddress, given[k], all[k]) && LinkFor(needed, isAddress, given[k], links[k]);
      }
    }
  }

  lemma LinksAreNeeded(needed: seq<Library>, isAddress: string -> bool, given: seq<Given>, links: seq<Link>)
    requires LinksOf(needed, isAddress, given, links)
    ensures forall i :: 0 <= i < |links| ==> links[i].lib in needed && Matches(links[i].lib, given[i].name)
  {
    forall i | 0 <= i < |links|
      ensures links[i].lib in needed && Matches(links[i].lib, given[i].name)
    {
      MatchingIsSound(needed, given[i].name);
      assert links[i].lib in Matching(needed, given[i].name);
    }
  }

  // ----- writing addresses into the bytecode -----

  /** JavaScript `substr`: out-of-range positions are clamped. */
  function Take(s: string, n: nat): string {
    if n < |s| then s[..n] else s
  }

  function Drop(s: string, n: nat): string {
    if n < |s| then s[n..] else ""
  }

  datatype Patch = Patch(slot: Slot, address: string)

  function ApplyPatch(b: string, p: Patch): string {
    Take(b, 2 + p.slot.start * 2) + Drop(p.address, 2) + Drop(b, 2 + (p.slot.start + p.slot.length) * 2)
  }

  function ApplyPatches(b: string, ps: seq<Patch>): string
    decreases |ps|
  {
    if ps == [] then b else ApplyPatches(ApplyPatch(b, ps[0]), ps[1..])
  }

  function PatchesFor(slots: seq<Slot>, address: string): seq<Patch> {
    if slots == [] then [] else [Patch(slots[0], address)] + PatchesFor(slots[1..], address)
  }

  /** `artifact.linkReferences[sourceName][libraryName]`. */
  function SlotsIn(libs: seq<LibRefs>, libName: string): seq<Slot> {
    if libs == [] then [] else if libs[0].libName == libName then libs[0].slots else SlotsIn(libs[1..], libName)
  }

  function SlotsOf(refs: seq<SourceRefs>, lib: Library): seq<Slot> {
    if refs == [] then []
    else if refs[0].sourceName == lib.sourceName then SlotsIn(refs[0].libs, lib.libName)
    else SlotsOf(refs[1..], lib)
  }

  function PatchesOf(refs: seq<SourceRefs>, links: seq<Link>): seq<Patch> {
    if links == [] then []
    else PatchesFor(SlotsOf(refs, links[0].lib), links[0].address) + PatchesOf(refs, links[1..])
  }

  lemma {:induction false} ApplyAppend(b: string, x: seq<Patch>, y: seq<Patch>)
    ensures ApplyPatches(b, x + y) == ApplyPatches(ApplyPatches(b, x), y)
    decreases |x|
  {
    if x == [] {
      assert x + y == y;
    } else {
      assert (x + y)[1..] == x[1..] + y;
      ApplyAppend(ApplyPatch(b, x[0]), x[1..], y);
    }
  }

  /** `linkBytecode`. */
  method LinkBytecode(bytecode: string, refs: seq<SourceRefs>, links: seq<Link>) returns (linked: string)
    ensures linked == ApplyPatches(bytecode, PatchesOf(refs, links))
  {
    linked := bytecode;
    var i := 0;
    assert links[0..] == links;
    while i < |links|
      invariant 0 <= i <= |links|
      invariant ApplyPatches(linked, PatchesOf(refs, links[i..])) == ApplyPatches(bytecode, PatchesOf(refs, links))
    {
      var slots := SlotsOf(refs, links[i].lib);
      ghost var before := linked;
      ApplyAppend(before, PatchesFor(slots, links[i].address), PatchesOf(refs, links[i + 1..]));
      assert links[i..][1..] == links[i + 1..];
      linked := WriteAddress(linked, slots, links[i].address);
      i := i + 1;
    }
  }

  /** The inner loop: one address into all slots of its library. */
  method WriteAddress(bytecode: string, slots: seq<Slot>, address: string) returns (linked: string)
    ensures linked == ApplyPatches(bytecode, PatchesFor(slots, address))
  {
    hide ApplyPatches, PatchesFor, Take, Drop;
    linked := bytecode;
    var i := 0;
    assert slots[0..] == slots;
    while i < |slots|
      invariant 0 <= i <= |slots|
      invariant ApplyPatches(linked, PatchesFor(slots[i..], address)) == ApplyPatches(bytecode, PatchesFor(slots, address))
    {
      PatchStep(linked, slots, i, address);
      linked := Take(linked, 2 + slots[i].start * 2) + Drop(address, 2)
              + Drop(linked, 2 + (slots[i].start + slots[i].length) * 2);
      i := i + 1;
    }
    NoPatches(linked, slots[i..], address);
  }

  lemma NoPatches(b: string, slots: seq<Slot>, address: string)
    requires slots == []
    ensures ApplyPatches(b, PatchesFor(slots, address)) == b
  {
  }

  lemma PatchStep(b: string, slots: seq<Slot>, i: nat, address: string)
    requires i < |slots|
    ensures ApplyPatches(b, PatchesFor(slots[i..], address)) ==
            ApplyPatches(ApplyPatch(b, Patch(slots[i], address)), PatchesFor(slots[i + 1..], address))
  {
    hide Take, Drop, ApplyPatch;
    assert slots[i..][1..] == slots[i + 1..];
    assert PatchesFor(slots[i..], address)[1..] == PatchesFor(slots[i + 1..], address);
  }

  // ----- what the linked bytecode is -----

  /** The characters of `b` that a slot covers. */
  predicate Covers(slot: Slot, k: int) {
    2 + slot.start * 2 <= k < 2 + (slot.start + slot.length) * 2
  }

  /** The address fills the slot exactly, and the slot lies within `n` characters. */
  predicate Fits(p: Patch, n: nat) {
    2 + (p.slot.start + p.slot.length) * 2 <= n && |p.address| == 2 + p.slot.length * 2
  }

  ghost predicate Disjoint(ps: seq<Patch>) {
    forall i, j :: 0 <= i < j < |ps| ==> forall k :: !(Covers(ps[i].slot, k) && Covers(ps[j].slot, k))
  }

  /** `t` is `b` with every patch in its place and nothing else changed. */
  ghost predicate Patched(b: string, ps: seq<Patch>, t: string) {
    && |t| == |b|
    && (forall i :: 0 <= i < |ps| ==> InPlace(ps[i], t))
    && (forall k :: 0 <= k < |b| && (forall i :: 0 <= i < |ps| ==> !Covers(ps[i].slot, k)) ==> t[k] == b[k])
  }

  ghost predicate InPlace(p: Patch, t: string) {
    forall k :: 0 <= k < |t| && Covers(p.slot, k) ==> 0 <= k - p.slot.start * 2 < |p.address| && t[k] == p.address[k - p.slot.start * 2]
  }

  lemma OnePatch(b: string, p: Patch)
    requires Fits(p, |b|)
    ensures |ApplyPatch(b, p)| == |b| && InPlace(p, ApplyPatch(b, p))
    ensures forall k :: 0 <= k < |b| && !Covers(p.slot, k) ==> ApplyPatch(b, p)[k] == b[k]
  {
  }

  /** With disjoint slots that the addresses fit, linking keeps the length, holds
      the right address in every slot and changes nothing else. */
  lemma {:induction false} LinkedIsPatched(b: string, ps: seq<Patch>)
    requires Disjoint(ps) && forall i :: 0 <= i < |ps| ==> Fits(ps[i], |b|)
    ensures Patched(b, ps, ApplyPatches(b, ps))
    decreases |ps|
  {
    if ps != [] {
      var c, rest := ApplyPatch(b, ps[0]), ps[1..];
      OnePatch(b, ps[0]);
      assert forall i :: 0 <= i < |rest| ==> rest[i] == ps[i + 1];
      LinkedIsPatched(c, rest);
      PatchedOneMore(b, ps, c, ApplyPatches(c, rest));
    }
  }

  lemma PatchedOneMore(b: string, ps: seq<Patch>, c: string, t: string)
    requires ps != [] && Disjoint(ps) && |c| == |b| && InPlace(ps[0], c) && Patched(c, ps[1..], t)
    requires forall k :: 0 <= k < |b| && !Covers(ps[0].slot, k) ==> c[k] == b[k]
    ensures Patched(b, ps, t)
  {
    var rest := ps[1..];
    assert forall i :: 0 <= i < |rest| ==> rest[i] == ps[i + 1];
    forall k | 0 <= k < |t| && Covers(ps[0].slot, k)
      ensures t[k] == c[k]
    {
      assert forall i :: 0 <= i < |rest| ==> !Covers(rest[i].slot, k);
    }
    forall i | 0 <= i < |ps|
      ensures InPlace(ps[i], t)
    {
      if i > 0 { assert InPlace(rest[i - 1], t); }
    }
  }

  /** Only one string is so patched, so the order of the patches does not matter. */
  lemma SamePatches(b: string, ps: seq<Patch>, qs: seq<Patch>)
    requires Disjoint(ps) && Disjoint(qs) && forall i :: 0 <= i < |ps| ==> Fits(ps[i], |b|)
    requires forall p :: p in ps <==> p in qs
    ensures ApplyPatches(b, ps) == ApplyPatches(b, qs)
  {
    hide ApplyPatches;
    assert forall i :: 0 <= i < |qs| ==> qs[i] in ps && Fits(qs[i], |b|);
    LinkedIsPatched(b, ps);
    LinkedIsPatched(b, qs);
    PatchedIsUnique(b, ps, qs, ApplyPatches(b, ps), ApplyPatches(b, qs));
  }

  lemma PatchedIsUnique(b: string, ps: seq<Patch>, qs: seq<Patch>, s: string, t: string)
    requires Patched(b, ps, s) && Patched(b, qs, t) && forall p :: p in ps <==> p in qs
    ensures s == t
  {
    forall k | 0 <= k < |b|
      ensures s[k] == t[k]
    {
      if exists i :: 0 <= i < |ps| && Covers(ps[i].slot, k) {
        var i :| 0 <= i < |ps| && Covers(ps[i].slot, k);
        assert ps[i] in qs;
        var j :| 0 <= j < |qs| && qs[j] == ps[i];
        assert InPlace(ps[i], s) && InPlace(qs[j], t);
      } else {
        assert forall j :: 0 <= j < |qs| ==> qs[j] in ps;
      }
    }
  }

  /** Writing one address keeps the length if and only if the address without its
      first two characters is as long as the slot. */
  lemma LengthKeptExactly(b: string, p: Patch)
    requires 2 + (p.slot.start + p.slot.length) * 2 <= |b| && |p.address| >= 2
    ensures |ApplyPatch(b, p)| == |b| <==> |p.address| == 2 + p.slot.length * 2
  {
  }

  /** So an address of 40 digits without the prefix, if the address check lets it
      through, shortens the bytecode and loses its first two digits. */
  lemma UnprefixedAddressShifts(b: string, start: nat, address: string)
    requires 2 + (start + 20) * 2 <= |b| && |address| == 40
    ensures var t := ApplyPatch(b, Patch(Slot(start, 20), address));
            |t| == |b| - 2 && t[2 + start * 2..][..38] == address[2..]
  {
    var t := ApplyPatch(b, Patch(Slot(start, 20), address));
    assert t == b[..2 + start * 2] + address[2..] + b[2 + (start + 20) * 2..];
  }

  // ----- the order of the links -----

  lemma {:induction false} EverySlotIsPatched(refs: seq<SourceRefs>, links: seq<Link>, i: nat, slot: Slot)
    requires i < |links| && slot in SlotsOf(refs, links[i].lib)
    ensures Patch(slot, links[i].address) in PatchesOf(refs, links)
  {
    if i == 0 {
      SlotsArePatched(SlotsOf(refs, links[0].lib), links[0].address, slot);
    } else {
      EverySlotIsPatched(refs, links[1..], i - 1, slot);
    }
  }

  lemma {:induction false} SlotsArePatched(slots: seq<Slot>, address: string, slot: Slot)
    requires slot in slots
    ensures Patch(slot, address) in PatchesFor(slots, address)
  {
    if slots[0] != slot {
      SlotsArePatched(slots[1..], address, slot);
    }
  }

  /** In the linked bytecode every slot of every linked library holds its address. */
  lemma EverySlotHoldsItsAddress(b: string, refs: seq<SourceRefs>, links: seq<Link>, i: nat, slot: Slot)
    requires i < |links| && slot in SlotsOf(refs, links[i].lib)
    requires var ps := PatchesOf(refs, links); Disjoint(ps) && forall k :: 0 <= k < |ps| ==> Fits(ps[k], |b|)
    ensures var t := ApplyPatches(b, PatchesOf(refs, links));
            && |t| == |b| && 2 + (slot.start + slot.length) * 2 <= |t|
            && t[2 + slot.start * 2..2 + (slot.start + slot.length) * 2] == Drop(links[i].address, 2)
  {
    hide ApplyPatches, PatchesOf;
    var ps := PatchesOf(refs, links);
    EverySlotIsPatched(refs, links, i, slot);
    LinkedIsPatched(b, ps);
    var k :| 0 <= k < |ps| && ps[k] == Patch(slot, links[i].address);
    assert Fits(ps[k], |b|) && InPlace(ps[k], ApplyPatches(b, ps));
  }

  lemma TwoPlaces<T>(s: seq<T>, x: T) returns (i: nat, j: nat)
    requires multiset(s)[x] >= 2
    ensures i < j < |s| && s[i] == s[j] == x
  {
    assert x in s;
    i :| i < |s| && s[i] == x;
    assert s == s[..i] + [x] + s[i + 1..];
    var rest := s[..i] + s[i + 1..];
    assert multiset(s) == multiset(rest) + multiset{x};
    assert x in rest;
    var k :| 0 <= k < |rest| && rest[k] == x;
    j := if k < i then k else k + 1;
    assert s[j] == x && j != i;
    if j < i { i, j := j, i; }
  }

  lemma TwiceIsTwo<T>(s: seq<T>, i: nat, j: nat)
    requires i < j < |s| && s[i] == s[j]
    ensures multiset(s)[s[i]] >= 2
  {
    assert s == s[..i] + [s[i]] + s[i + 1..j] + [s[j]] + s[j + 1..];
  }

  /** Being disjoint depends only on which patches there are, and how often. */
  lemma DisjointByMultiset(ps: seq<Patch>, qs: seq<Patch>)
    requires Disjoint(ps) && multiset(ps) == multiset(qs)
    ensures Disjoint(qs)
  {
    forall i, j, k | 0 <= i < j < |qs|
      ensures !(Covers(qs[i].slot, k) && Covers(qs[j].slot, k))
    {
      NotTogether(ps, qs, i, j, k);
    }
  }

  lemma NotTogether(ps: seq<Patch>, qs: seq<Patch>, i: nat, j: nat, k: int)
    requires Disjoint(ps) && multiset(ps) == multiset(qs) && i < j < |qs|
    ensures !(Covers(qs[i].slot, k) && Covers(qs[j].slot, k))
  {
    hide Covers;
    if qs[i] == qs[j] {
      TwiceIsTwo(qs, i, j);
      var m, n := TwoPlaces(ps, qs[i]);
    } else {
      assert qs[i] in multiset(qs) && qs[j] in multiset(qs);
      var m :| 0 <= m < |ps| && ps[m] == qs[i];
      var n :| 0 <= n < |ps| && ps[n] == qs[j];
      assert m != n;
    }
  }

  lemma Associate<T>(a: seq<T>, b: seq<T>, c: seq<T>)
    ensures a + b + c == a + (b + c)
  {
  }

  lemma {:induction false} PatchesAppend(refs: seq<SourceRefs>, a: seq<Link>, b: seq<Link>)
    ensures PatchesOf(refs, a + b) == PatchesOf(refs, a) + PatchesOf(refs, b)
  {
    if a == [] {
      assert a + b == b && PatchesOf(refs, a) == [];
    } else {
      hide *;
      PatchesAppend(refs, a[1..], b);
      assert (a + b)[1..] == a[1..] + b && (a + b)[0] == a[0];
      PatchesCons(refs, a + b);
      PatchesCons(refs, a);
      Associate(PatchesFor(SlotsOf(refs, a[0].lib), a[0].address), PatchesOf(refs, a[1..]), PatchesOf(refs, b));
    }
  }

  lemma RemoveOne<T>(s: seq<T>, x: T, rest: seq<T>, before: seq<T>, after: seq<T>)
    requires s == [x] + rest && multiset(s) == multiset(before + [x] + after)
    ensures multiset(rest) == multiset(before + after)
  {
    assert multiset(s) == multiset{x} + multiset(rest);
    assert multiset(before + [x] + after) == multiset(before) + multiset{x} + multiset(after);
    assert multiset(before + after) == multiset(before) + multiset(after);
    assert multiset(rest) == multiset(s) - multiset{x};
  }

  lemma MultisetSwap<T>(x: seq<T>, before: seq<T>, after: seq<T>, rest: seq<T>)
    requires multiset(rest) == multiset(before + after)
    ensures multiset(x + rest) == multiset(before + x + after)
  {
    assert multiset(before + after) == multiset(before) + multiset(after);
    assert multiset(x + rest) == multiset(x) + multiset(rest);
    assert multiset(before + x + after) == multiset(before) + multiset(x) + multiset(after);
  }

  lemma {:induction false} SameLinksSamePatches(refs: seq<SourceRefs>, links: seq<Link>, permuted: seq<Link>)
    requires multiset(links) == multiset(permuted)
    ensures multiset(PatchesOf(refs, links)) == multiset(PatchesOf(refs, permuted))
    decreases |links|
  {
    hide *;
    if links == [] {
      assert |permuted| == |multiset(permuted)| == |multiset(links)| == 0;
      assert permuted == links;
    } else {
      var l, rest := links[0], links[1..];
      assert l in multiset(links) && links == [l] + rest;
      var before, after := Around(permuted, l);
      RemoveOne(links, l, rest, before, after);
      SameLinksSamePatches(refs, rest, before + after);
      PatchesAppend(refs, [l], rest);
      PatchesOfThree(refs, before, l, after);
      MultisetSwap(PatchesOf(refs, [l]), PatchesOf(refs, before), PatchesOf(refs, after), PatchesOf(refs, rest));
    }
  }

  lemma Around(links: seq<Link>, l: Link) returns (before: seq<Link>, after: seq<Link>)
    requires l in multiset(links)
    ensures links == before + [l] + after
  {
    var j: nat :| j < |links| && links[j] == l;
    before, after := links[..j], links[j + 1..];
  }

  lemma PatchesOfThree(refs: seq<SourceRefs>, before: seq<Link>, l: Link, after: seq<Link>)
    ensures PatchesOf(refs, before + [l] + after) == PatchesOf(refs, before) + PatchesOf(refs, [l]) + PatchesOf(refs, after)
    ensures PatchesOf(refs, before + after) == PatchesOf(refs, before) + PatchesOf(refs, after)
  {
    hide PatchesOf;
    PatchesAppend(refs, before, after);
    PatchesAppend(refs, before + [l], after);
    PatchesAppend(refs, before, [l]);
  }

  /** The linked bytecode does not depend on the order of the links. */
  lemma OrderIsIrrelevant(b: string, refs: seq<SourceRefs>, links: seq<Link>, permuted: seq<Link>)
    requires multiset(links) == multiset(permuted)
    requires var ps := PatchesOf(refs, links); Disjoint(ps) && forall i :: 0 <= i < |ps| ==> Fits(ps[i], |b|)
    ensures ApplyPatches(b, PatchesOf(refs, links)) == ApplyPatches(b, PatchesOf(refs, permuted))
  {
    var ps, qs := PatchesOf(refs, links), PatchesOf(refs, permuted);
    SameLinksSamePatches(refs, links, permuted);
    hide PatchesOf, ApplyPatches, Disjoint, Fits;
    DisjointByMultiset(ps, qs);
    assert forall p :: p in ps <==> p in multiset(ps);
    assert forall p :: p in qs <==> p in multiset(qs);
    SamePatches(b, ps, qs);
  }

  // ----- the whole of collectLibrariesAndLink -----

  /** What solc promises: 20-byte slots within the bytecode, no two of which overlap. */
  ghost predicate SlotsOk(refs: seq<SourceRefs>, needed: seq<Library>, n: nat) {
    && (forall lib <- needed, slot <- SlotsOf(refs, lib) :: slot.length == 20 && 2 + (slot.start + 20) * 2 <= n)
    && (forall lib <- needed :: SlotsDisjoint(SlotsOf(refs, lib)))
    && (forall x <- needed, y <- needed :: x != y ==> SlotsApart(SlotsOf(refs, x), SlotsOf(refs, y)))
  }

  ghost predicate SlotsDisjoint(slots: seq<Slot>) {
    forall i, j :: 0 <= i < j < |slots| ==> forall k :: !(Covers(slots[i], k) && Covers(slots[j], k))
  }

  ghost predicate SlotsApart(a: seq<Slot>, b: seq<Slot>) {
    forall x <- a, y <- b :: forall k :: !(Covers(x, k) && Covers(y, k))
  }

  lemma {:induction false} PatchesForAt(slots: seq<Slot>, address: string)
    ensures |PatchesFor(slots, address)| == |slots|
    ensures forall i :: 0 <= i < |slots| ==> PatchesFor(slots, address)[i] == Patch(slots[i], address)
  {
    if slots != [] {
      PatchesForAt(slots[1..], address);
    }
  }

  /** A patch is for a slot of the library of some link, with its address. */
  lemma {:induction false} PatchFrom(refs: seq<SourceRefs>, links: seq<Link>, p: Patch) returns (l: Link)
    requires p in PatchesOf(refs, links)
    ensures l in links && p.slot in SlotsOf(refs, l.lib) && p.address == l.address
  {
    var first := PatchesFor(SlotsOf(refs, links[0].lib), links[0].address);
    PatchesForAt(SlotsOf(refs, links[0].lib), links[0].address);
    hide SlotsOf, PatchesFor;
    if p in first {
      l := links[0];
    } else {
      l := PatchFrom(refs, links[1..], p);
    }
  }

  lemma DisjointAppend(ps: seq<Patch>, qs: seq<Patch>)
    requires Disjoint(ps) && Disjoint(qs)
    requires forall p <- ps, q <- qs :: forall k :: !(Covers(p.slot, k) && Covers(q.slot, k))
    ensures Disjoint(ps + qs)
  {
    hide Covers;
  }

  ghost predicate DistinctLibs(links: seq<Link>) {
    forall i, j :: 0 <= i < j < |links| ==> links[i].lib != links[j].lib
  }

  lemma {:induction false} LinksAreDisjoint(refs: seq<SourceRefs>, needed: seq<Library>, links: seq<Link>, n: nat)
    requires SlotsOk(refs, needed, n) && DistinctLibs(links) && forall l <- links :: l.lib in needed
    ensures Disjoint(PatchesOf(refs, links))
  {
    if links != [] {
      var l, rest := links[0], links[1..];
      assert l in links && forall m <- rest :: m in links && m.lib != l.lib;
      LinksAreDisjoint(refs, needed, rest, n);
      var slots := SlotsOf(refs, l.lib);
      var ps, qs := PatchesFor(slots, l.address), PatchesOf(refs, rest);
      PatchesForAt(slots, l.address);
      assert SlotsDisjoint(slots);
      hide SlotsOf, PatchesFor, PatchesOf, Covers;
      forall p, q, k | p in ps && q in qs
        ensures !(Covers(p.slot, k) && Covers(q.slot, k))
      {
        var m := PatchFrom(refs, rest, q);
        assert SlotsApart(slots, SlotsOf(refs, m.lib));
        assert p.slot in slots;
      }
      assert Disjoint(ps);
      DisjointAppend(ps, qs);
      PatchesCons(refs, links);
    }
  }

  lemma PatchesCons(refs: seq<SourceRefs>, links: seq<Link>)
    requires links != []
    ensures PatchesOf(refs, links) == PatchesFor(SlotsOf(refs, links[0].lib), links[0].address) + PatchesOf(refs, links[1..])
  {
  }

  lemma LinksFit(refs: seq<SourceRefs>, needed: seq<Library>, links: seq<Link>, n: nat)
    requires SlotsOk(refs, needed, n) && forall l <- links :: l.lib in needed && |l.address| == 42
    ensures var ps := PatchesOf(refs, links); forall i :: 0 <= i < |ps| ==> Fits(ps[i], n)
  {
    var ps := PatchesOf(refs, links);
    hide PatchesOf, SlotsOf, SlotsDisjoint, SlotsApart;
    forall i | 0 <= i < |ps|
      ensures Fits(ps[i], n)
    {
      assert ps[i] in ps;
      var l := PatchFrom(refs, links, ps[i]);
    }
  }

  // ----- what the result is, read off `linkReferences` itself -----

  ghost predicate IsPlace(refs: seq<SourceRefs>, i: int, j: int) {
    0 <= i < |refs| && 0 <= j < |refs[i].libs|
  }

  function LibAt(refs: seq<SourceRefs>, i: int, j: int): Library
    requires IsPlace(refs, i, j)
  {
    Library(refs[i].sourceName, refs[i].libs[j].libName)
  }

  /** Objects have every key once; library names are identifiers. */
  ghost predicate RefsOk(refs: seq<SourceRefs>) {
    && (forall i, j :: 0 <= i < j < |refs| ==> refs[i].sourceName != refs[j].sourceName)
    && (forall i :: 0 <= i < |refs| ==> LibsOk(refs[i].libs))
  }

  ghost predicate LibsOk(libs: seq<LibRefs>) {
    && (forall i, j :: 0 <= i < j < |libs| ==> libs[i].libName != libs[j].libName)
    && (forall i :: 0 <= i < |libs| ==> ':' !in libs[i].libName)
  }

  lemma {:induction false} SlotsInIs(libs: seq<LibRefs>, j: nat)
    requires LibsOk(libs) && j < |libs|
    ensures SlotsIn(libs, libs[j].libName) == libs[j].slots
  {
    if j > 0 {
      SlotsInIs(libs[1..], j - 1);
    }
  }

  /** Looking the slots of a library up finds all of its slots. */
  lemma {:induction false} SlotsOfIs(refs: seq<SourceRefs>, i: nat, j: nat)
    requires RefsOk(refs) && IsPlace(refs, i, j)
    ensures SlotsOf(refs, LibAt(refs, i, j)) == refs[i].libs[j].slots
  {
    if i > 0 {
      SlotsOfIs(refs[1..], i - 1, j);
    } else {
      SlotsInIs(refs[0].libs, j);
    }
  }

  /** The needed libraries are exactly those of the references. */
  lemma {:induction false} NeededAre(refs: seq<SourceRefs>, lib: Library)
    ensures lib in NeededLibraries(refs) <==> exists i, j :: IsPlace(refs, i, j) && LibAt(refs, i, j) == lib
  {
    if refs != [] {
      var first, rest := LibrariesOf(refs[0].sourceName, refs[0].libs), refs[1..];
      NeededAre(rest, lib);
      if lib in first {
        var j :| 0 <= j < |first| && first[j] == lib;
        assert IsPlace(refs, 0, j) && LibAt(refs, 0, j) == lib;
      }
      if i, j :| IsPlace(rest, i, j) && LibAt(rest, i, j) == lib {
        assert IsPlace(refs, i + 1, j) && LibAt(refs, i + 1, j) == lib;
      }
      if i, j :| IsPlace(refs, i, j) && LibAt(refs, i, j) == lib {
        if i == 0 {
          assert first[j] == lib;
        } else {
          assert IsPlace(rest, i - 1, j) && LibAt(rest, i - 1, j) == lib;
        }
      }
    }
  }

  lemma OnePlace(refs: seq<SourceRefs>, i: int, j: int, k: int, m: int)
    requires RefsOk(refs) && IsPlace(refs, i, j) && IsPlace(refs, k, m)
    ensures LibAt(refs, i, j) == LibAt(refs, k, m) <==> i == k && j == m
  {
    assert LibsOk(refs[i].libs) && LibsOk(refs[k].libs);
  }

  /** The address a library is linked with, without its prefix, where it is written. */
  ghost predicate Holds(t: string, slot: Slot, address: string) {
    && 2 + (slot.start + slot.length) * 2 <= |t| && |address| >= 2
    && t[2 + slot.start * 2..2 + (slot.start + slot.length) * 2] == address[2..]
  }

  ghost predicate AllHold(t: string, slots: seq<Slot>, address: string) {
    forall slot <- slots :: Holds(t, slot, address)
  }

  ghost predicate InNoSlot(refs: seq<SourceRefs>, k: int) {
    forall i, j :: IsPlace(refs, i, j) ==> forall slot <- refs[i].libs[j].slots :: !Covers(slot, k)
  }

  /** `t` is `b` with every slot of every referenced library holding the address of
      the link of that library, and no other character changed. */
  ghost predicate LinkedExactly(refs: seq<SourceRefs>, b: string, links: seq<Link>, t: string) {
    && |t| == |b|
    && (forall i, j :: IsPlace(refs, i, j) ==>
          exists l <- links :: l.lib == LibAt(refs, i, j) && AllHold(t, refs[i].libs[j].slots, l.address))
    && (forall k :: 0 <= k < |b| && InNoSlot(refs, k) ==> t[k] == b[k])
  }

  ghost predicate SlotsInside(slots: seq<Slot>, n: nat) {
    forall slot <- slots :: slot.length == 20 && 2 + (slot.start + 20) * 2 <= n
  }

  /** What solc promises: 20-byte slots within the bytecode, no two of which overlap. */
  ghost predicate SlotsAsPromised(refs: seq<SourceRefs>, n: nat) {
    && (forall i, j :: IsPlace(refs, i, j) ==> SlotsInside(refs[i].libs[j].slots, n) && SlotsDisjoint(refs[i].libs[j].slots))
    && (forall i, j, k, m :: IsPlace(refs, i, j) && IsPlace(refs, k, m) && (i != k || j != m) ==>
          SlotsApart(refs[i].libs[j].slots, refs[k].libs[m].slots))
  }

  lemma PlaceOf(refs: seq<SourceRefs>, lib: Library) returns (i: nat, j: nat)
    requires RefsOk(refs) && lib in NeededLibraries(refs)
    ensures IsPlace(refs, i, j) && LibAt(refs, i, j) == lib && SlotsOf(refs, lib) == refs[i].libs[j].slots
  {
    NeededAre(refs, lib);
    i, j :| IsPlace(refs, i, j) && LibAt(refs, i, j) == lib;
    SlotsOfIs(refs, i, j);
  }

  lemma PromisedAreOk(refs: seq<SourceRefs>, n: nat)
    requires RefsOk(refs) && SlotsAsPromised(refs, n)
    ensures SlotsOk(refs, NeededLibraries(refs), n)
  {
    hide NeededLibraries, SlotsOf, SlotsDisjoint, SlotsApart, RefsOk;
    forall lib | lib in NeededLibraries(refs)
      ensures SlotsDisjoint(SlotsOf(refs, lib))
      ensures forall slot <- SlotsOf(refs, lib) :: slot.length == 20 && 2 + (slot.start + 20) * 2 <= n
    {
      var i, j := PlaceOf(refs, lib);
    }
    forall x, y | x in NeededLibraries(refs) && y in NeededLibraries(refs) && x != y
      ensures SlotsApart(SlotsOf(refs, x), SlotsOf(refs, y))
    {
      var i, j := PlaceOf(refs, x);
      var k, m := PlaceOf(refs, y);
      assert i != k || j != m;
    }
  }

  lemma BijectionIsDistinct(needed: seq<Library>, links: seq<Link>)
    requires Bijection(needed, links)
    ensures DistinctLibs(links) && forall l <- links :: l.lib in needed
  {
    hide Fqn;
  }

  lemma OneLink(refs: seq<SourceRefs>, links: seq<Link>, i: nat, j: nat) returns (k: nat)
    requires Bijection(NeededLibraries(refs), links) && IsPlace(refs, i, j)
    ensures k < |links| && links[k].lib == LibAt(refs, i, j)
  {
    NeededAre(refs, LibAt(refs, i, j));
    assert LibAt(refs, i, j) in NeededLibraries(refs);
    k :| 0 <= k < |links| && links[k].lib == LibAt(refs, i, j);
  }

  /** With the slots solc promises and prefixed addresses, linking by a bijection is
      exact. */
  lemma BijectionLinksExactly(refs: seq<SourceRefs>, b: string, links: seq<Link>)
    requires Bijection(NeededLibraries(refs), links) && RefsOk(refs) && SlotsAsPromised(refs, |b|)
    requires forall l <- links :: |l.address| == 42
    ensures LinkedExactly(refs, b, links, ApplyPatches(b, PatchesOf(refs, links)))
  {
    var needed, ps := NeededLibraries(refs), PatchesOf(refs, links);
    var t := ApplyPatches(b, ps);
    BijectionIsDistinct(needed, links);
    PromisedAreOk(refs, |b|);
    hide *;
    LinksAreDisjoint(refs, needed, links, |b|);
    LinksFit(refs, needed, links, |b|);
    LinkedIsPatched(b, ps);
    assert |t| == |b| && forall k :: 0 <= k < |b| && InNoSlot(refs, k) ==> t[k] == b[k] by {
      OutsideIsKept(refs, b, links, t);
    }
    forall i, j | IsPlace(refs, i, j)
      ensures exists l <- links :: l.lib == LibAt(refs, i, j) && AllHold(t, refs[i].libs[j].slots, l.address)
    {
      PlaceHolds(refs, b, links, i, j);
    }
    LinkedByParts(refs, b, links, t);
  }

  lemma LinkedByParts(refs: seq<SourceRefs>, b: string, links: seq<Link>, t: string)
    requires |t| == |b| && forall k :: 0 <= k < |b| && InNoSlot(refs, k) ==> t[k] == b[k]
    requires forall i, j :: IsPlace(refs, i, j) ==>
               exists l <- links :: l.lib == LibAt(refs, i, j) && AllHold(t, refs[i].libs[j].slots, l.address)
    ensures LinkedExactly(refs, b, links, t)
  {
    hide InNoSlot, AllHold;
  }

  lemma PlaceHolds(refs: seq<SourceRefs>, b: string, links: seq<Link>, i: nat, j: nat)
    requires Bijection(NeededLibraries(refs), links) && RefsOk(refs) && IsPlace(refs, i, j)
    requires var ps := PatchesOf(refs, links); Disjoint(ps) && forall k :: 0 <= k < |ps| ==> Fits(ps[k], |b|)
    requires forall l <- links :: |l.address| == 42
    ensures exists l <- links :: l.lib == LibAt(refs, i, j) &&
              AllHold(ApplyPatches(b, PatchesOf(refs, links)), refs[i].libs[j].slots, l.address)
  {
    var t := ApplyPatches(b, PatchesOf(refs, links));
    hide Bijection, NeededLibraries, PatchesOf, ApplyPatches, SlotsOf, Disjoint, Fits, RefsOk;
    var k := OneLink(refs, links, i, j);
    SlotsOfIs(refs, i, j);
    assert links[k] in links;
    forall slot | slot in refs[i].libs[j].slots
      ensures Holds(t, slot, links[k].address)
    {
      EverySlotHoldsItsAddress(b, refs, links, k, slot);
    }
  }

  lemma OutsideIsKept(refs: seq<SourceRefs>, b: string, links: seq<Link>, t: string)
    requires RefsOk(refs) && Patched(b, PatchesOf(refs, links), t) && forall l <- links :: l.lib in NeededLibraries(refs)
    ensures |t| == |b| && forall k :: 0 <= k < |b| && InNoSlot(refs, k) ==> t[k] == b[k]
  {
    var ps := PatchesOf(refs, links);
    hide NeededLibraries, PatchesOf, SlotsOf, Covers, InPlace, RefsOk;
    forall k | 0 <= k < |b| && InNoSlot(refs, k)
      ensures t[k] == b[k]
    {
      forall m | 0 <= m < |ps|
        ensures !Covers(ps[m].slot, k)
      {
        assert ps[m] in ps;
        var l := PatchFrom(refs, links, ps[m]);
        var i, j := PlaceOf(refs, l.lib);
      }
    }
  }

  // ----- when linking succeeds -----

  /** The name is that of the library at this place, bare or qualified. */
  ghost predicate IsNameOf(refs: seq<SourceRefs>, i: int, j: int, name: string)
    requires IsPlace(refs, i, j)
  {
    name == refs[i].libs[j].libName || name == refs[i].sourceName + ":" + refs[i].libs[j].libName
  }

  ghost predicate NamesOne(refs: seq<SourceRefs>, name: string) {
    exists i, j :: IsPlace(refs, i, j) && IsNameOf(refs, i, j, name) &&
      forall k, m :: IsPlace(refs, k, m) && IsNameOf(refs, k, m, name) ==> k == i && m == j
  }

  /** Every entry has an address and names exactly one referenced library, no two name
      the same, and every referenced library is named. */
  ghost predicate Determined(refs: seq<SourceRefs>, isAddress: string -> bool, given: seq<Given>) {
    && (forall g <- given :: isAddress(g.address) && NamesOne(refs, g.name))
    && (forall i, j, x, y :: IsPlace(refs, i, j) && 0 <= x < y < |given| ==>
          !(IsNameOf(refs, i, j, given[x].name) && IsNameOf(refs, i, j, given[y].name)))
    && (forall i, j :: IsPlace(refs, i, j) ==> exists g <- given :: IsNameOf(refs, i, j, g.name))
  }

  lemma NameMatches(refs: seq<SourceRefs>, i: int, j: int, name: string)
    requires IsPlace(refs, i, j)
    ensures Matches(LibAt(refs, i, j), name) <==> IsNameOf(refs, i, j, name)
  {
  }

  ghost predicate NoneTwice(libs: seq<Library>) {
    forall i, j :: 0 <= i < j < |libs| ==> libs[i] != libs[j]
  }

  lemma {:induction false} NeededOnce(refs: seq<SourceRefs>)
    requires RefsOk(refs)
    ensures NoneTwice(NeededLibraries(refs))
  {
    if refs != [] {
      var first, rest := LibrariesOf(refs[0].sourceName, refs[0].libs), refs[1..];
      NeededOnce(rest);
      assert LibsOk(refs[0].libs);
      forall lib | lib in NeededLibraries(rest)
        ensures lib !in first
      {
        NeededAre(rest, lib);
        var i, j :| IsPlace(rest, i, j) && LibAt(rest, i, j) == lib;
        assert rest[i] == refs[i + 1];
      }
      assert NoneTwice(first);
      OnceAppend(first, NeededLibraries(rest));
    }
  }

  lemma OnceAppend(a: seq<Library>, b: seq<Library>)
    requires NoneTwice(a) && NoneTwice(b) && forall x <- b :: x !in a
    ensures NoneTwice(a + b)
  {
    forall i, j | 0 <= i < j < |a + b|
      ensures (a + b)[i] != (a + b)[j]
    {
      assert i < |a| <= j ==> a[i] in a && b[j - |a|] in b;
    }
  }

  lemma {:induction false} MatchingOnce(needed: seq<Library>, name: string)
    requires NoneTwice(needed)
    ensures NoneTwice(Matching(needed, name))
  {
    if needed != [] {
      MatchingOnce(needed[1..], name);
      MatchingIsSound(needed[1..], name);
      assert forall x <- needed[1..] :: x != needed[0];
    }
  }

  /** One library matches exactly when the name names one. */
  lemma MatchesOne(refs: seq<SourceRefs>, name: string, i: int, j: int)
    requires RefsOk(refs) && IsPlace(refs, i, j)
    ensures Matching(NeededLibraries(refs), name) == [LibAt(refs, i, j)] <==>
            IsNameOf(refs, i, j, name) &&
            forall k, m :: IsPlace(refs, k, m) && IsNameOf(refs, k, m, name) ==> k == i && m == j
  {
    var needed, lib := NeededLibraries(refs), LibAt(refs, i, j);
    var found := Matching(needed, name);
    NeededOnce(refs);
    MatchingOnce(needed, name);
    MatchingIsSound(needed, name);
    NeededAre(refs, lib);
    NameMatches(refs, i, j, name);
    hide NeededLibraries, Matching, RefsOk, Matches, IsNameOf;
    if found == [lib] {
      assert lib in found;
      forall k, m | IsPlace(refs, k, m) && IsNameOf(refs, k, m, name)
        ensures k == i && m == j
      {
        NameMatches(refs, k, m, name);
        NeededAre(refs, LibAt(refs, k, m));
        OnePlace(refs, i, j, k, m);
      }
    }
    if IsNameOf(refs, i, j, name) && forall k, m :: IsPlace(refs, k, m) && IsNameOf(refs, k, m, name) ==> k == i && m == j {
      forall x | x in found
        ensures x == lib
      {
        NeededAre(refs, x);
        var k, m :| IsPlace(refs, k, m) && LibAt(refs, k, m) == x;
        NameMatches(refs, k, m, name);
      }
      OnlyElement(found, lib);
    }
  }

  lemma OnlyElement(found: seq<Library>, lib: Library)
    requires lib in found && NoneTwice(found) && forall x <- found :: x == lib
    ensures found == [lib]
  {
    if |found| > 1 {
      FirstTwoDiffer(found);
    }
  }

  lemma FirstTwoDiffer(found: seq<Library>)
    requires NoneTwice(found) && |found| > 1
    ensures found[0] in found && found[1] in found && found[0] != found[1]
  {
  }

  lemma FqnsDiffer(x: Library, y: Library)
    requires ':' !in x.libName && ':' !in y.libName && Fqn(x) == Fqn(y)
    ensures x == y
  {
    LastColon(x.sourceName, x.libName, y.sourceName, y.libName);
  }

  lemma LastColon(a: string, b: string, c: string, d: string)
    requires ':' !in b && ':' !in d && a + ":" + b == c + ":" + d
    ensures a == c && b == d
  {
    var s, t := a + ":" + b, c + ":" + d;
    assert s[|a|] == ':' && t[|c|] == ':';
    assert forall k :: |a| < k < |s| ==> s[k] == b[k - |a| - 1] && s[k] in b;
    assert forall k :: |c| < k < |t| ==> t[k] == d[k - |c| - 1] && t[k] in d;
    assert |a| == |c|;
    assert s[..|a|] == a && t[..|c|] == c && s[|a| + 1..] == b && t[|c| + 1..] == d;
  }

  ghost function LinkOf(refs: seq<SourceRefs>, g: Given): Link
    requires RefsOk(refs) && NamesOne(refs, g.name)
  {
    var i, j :| IsPlace(refs, i, j) && IsNameOf(refs, i, j, g.name) &&
      forall k, m :: IsPlace(refs, k, m) && IsNameOf(refs, k, m, g.name) ==> k == i && m == j;
    Link(LibAt(refs, i, j), g.address)
  }

  ghost predicate IsNamedBy(refs: seq<SourceRefs>, lib: Library, name: string) {
    ':' !in lib.libName && exists i, j :: IsPlace(refs, i, j) && LibAt(refs, i, j) == lib && IsNameOf(refs, i, j, name)
  }

  lemma LinkOfIs(refs: seq<SourceRefs>, g: Given, isAddress: string -> bool)
    requires RefsOk(refs) && NamesOne(refs, g.name) && isAddress(g.address)
    ensures LinkFor(NeededLibraries(refs), isAddress, g, LinkOf(refs, g))
    ensures IsNamedBy(refs, LinkOf(refs, g).lib, g.name)
  {
    var i, j :| IsPlace(refs, i, j) && IsNameOf(refs, i, j, g.name) && LinkOf(refs, g) == Link(LibAt(refs, i, j), g.address) &&
      forall k, m :: IsPlace(refs, k, m) && IsNameOf(refs, k, m, g.name) ==> k == i && m == j;
    assert LibsOk(refs[i].libs);
    hide NeededLibraries, Matching, IsNameOf;
    MatchesOne(refs, g.name, i, j);
  }

  lemma DeterminedHasLinks(refs: seq<SourceRefs>, isAddress: string -> bool, given: seq<Given>) returns (links: seq<Link>)
    requires RefsOk(refs) && Determined(refs, isAddress, given)
    ensures LinksOf(NeededLibraries(refs), isAddress, given, links) && Bijection(NeededLibraries(refs), links)
  {
    assert forall x :: 0 <= x < |given| ==> given[x] in given;
    links := seq(|given|, x requires 0 <= x < |given| => LinkOf(refs, given[x]));
    hide NeededLibraries, LinkOf, LinkFor, IsNameOf, NamesOne, RefsOk, Fqn, Bijection, IsNamedBy;
    forall x | 0 <= x < |given|
      ensures LinkFor(NeededLibraries(refs), isAddress, given[x], links[x]) && IsNamedBy(refs, links[x].lib, given[x].name)
    {
      LinkOfIs(refs, given[x], isAddress);
    }
    forall x, y | 0 <= x < y < |links|
      ensures Fqn(links[x].lib) != Fqn(links[y].lib)
    {
      LinksDiffer(refs, isAddress, given, links, x, y);
    }
    EveryLibraryIsLinked(refs, isAddress, given, links);
  }

  lemma LinksDiffer(refs: seq<SourceRefs>, isAddress: string -> bool, given: seq<Given>, links: seq<Link>, x: nat, y: nat)
    requires RefsOk(refs) && Determined(refs, isAddress, given) && |links| == |given| && x < y < |links|
    requires IsNamedBy(refs, links[x].lib, given[x].name) && IsNamedBy(refs, links[y].lib, given[y].name)
    ensures Fqn(links[x].lib) != Fqn(links[y].lib)
  {
    var i, j :| IsPlace(refs, i, j) && LibAt(refs, i, j) == links[x].lib && IsNameOf(refs, i, j, given[x].name);
    var k, m :| IsPlace(refs, k, m) && LibAt(refs, k, m) == links[y].lib && IsNameOf(refs, k, m, given[y].name);
    hide IsNameOf, NamesOne, RefsOk, Fqn;
    OnePlace(refs, i, j, k, m);
    assert links[x].lib != links[y].lib;
    DifferentFqns(links[x].lib, links[y].lib);
  }

  lemma DifferentFqns(x: Library, y: Library)
    requires ':' !in x.libName && ':' !in y.libName && x != y
    ensures Fqn(x) != Fqn(y)
  {
    if Fqn(x) == Fqn(y) {
      FqnsDiffer(x, y);
    }
  }

  lemma EveryLibraryIsLinked(refs: seq<SourceRefs>, isAddress: string -> bool, given: seq<Given>, links: seq<Link>)
    requires RefsOk(refs) && Determined(refs, isAddress, given) && LinksOf(NeededLibraries(refs), isAddress, given, links)
    ensures Bijection(NeededLibraries(refs), links)
  {
    var needed := NeededLibraries(refs);
    LinksAreNeeded(needed, isAddress, given, links);
    NeededOnce(refs);
    forall lib | lib in needed
      ensures exists x :: 0 <= x < |links| && links[x].lib == lib
    {
      var i, j := PlaceOf(refs, lib);
      var g :| g in given && IsNameOf(refs, i, j, g.name);
      var x :| 0 <= x < |given| && given[x] == g;
      assert LinkFor(needed, isAddress, given[x], links[x]);
      MatchingIsSound(needed, g.name);
      NameMatches(refs, i, j, g.name);
      assert lib in Matching(needed, g.name) && Matching(needed, g.name) == [links[x].lib];
    }
    forall i, j | 0 <= i < j < |needed|
      ensures Fqn(needed[i]) != Fqn(needed[j])
    {
      NeededHaveNoColon(refs, needed[i]);
      NeededHaveNoColon(refs, needed[j]);
      DifferentFqns(needed[i], needed[j]);
    }
    hide NeededLibraries, Fqn, RefsOk, Determined;
    AsManyLinks(needed, links);
  }

  lemma NeededHaveNoColon(refs: seq<SourceRefs>, lib: Library)
    requires RefsOk(refs) && lib in NeededLibraries(refs)
    ensures ':' !in lib.libName
  {
    var i, j := PlaceOf(refs, lib);
    assert LibsOk(refs[i].libs);
  }

  /** Every needed library linked by different links to needed libraries: a bijection. */
  lemma AsManyLinks(needed: seq<Library>, links: seq<Link>)
    requires DistinctLinks(links) && forall i :: 0 <= i < |links| ==> links[i].lib in needed
    requires forall n <- needed :: exists i :: 0 <= i < |links| && links[i].lib == n
    requires forall i, j :: 0 <= i < j < |needed| ==> Fqn(needed[i]) != Fqn(needed[j])
    ensures Bijection(needed, links)
  {
    var a, b := LinkFqns(links), Fqns(needed);
    DistinctCount(a);
    DistinctCount(b);
    forall k | 0 <= k < |b|
      ensures b[k] in a
    {
      assert needed[k] in needed;
      var i :| 0 <= i < |links| && links[i].lib == needed[k];
      assert a[i] == b[k];
    }
    assert Names(b) <= Names(a);
    SubsetSize(Names(b), Names(a));
    EnoughLinksAreAll(needed, links);
  }

  lemma LinksDetermine(refs: seq<SourceRefs>, isAddress: string -> bool, given: seq<Given>, links: seq<Link>)
    requires RefsOk(refs) && LinksOf(NeededLibraries(refs), isAddress, given, links) && Bijection(NeededLibraries(refs), links)
    ensures Determined(refs, isAddress, given)
    ensures forall i, j :: IsPlace(refs, i, j) ==> forall x :: 0 <= x < |given| && links[x].lib == LibAt(refs, i, j) ==> IsNameOf(refs, i, j, given[x].name)
  {
    var needed := NeededLibraries(refs);
    BijectionIsDistinct(needed, links);
    assert forall i, j :: IsPlace(refs, i, j) ==> LibAt(refs, i, j) in needed by {
      forall i, j | IsPlace(refs, i, j) ensures LibAt(refs, i, j) in needed { NeededAre(refs, LibAt(refs, i, j)); }
    }
    hide NeededLibraries, Matching, RefsOk, IsNameOf, Fqn, DistinctLinks;
    forall x | 0 <= x < |given|
      ensures isAddress(given[x].address) && NamesOne(refs, given[x].name)
      ensures forall i, j :: IsPlace(refs, i, j) ==> (IsNameOf(refs, i, j, given[x].name) <==> LibAt(refs, i, j) == links[x].lib)
    {
      assert LinkFor(needed, isAddress, given[x], links[x]) && links[x] in links && links[x].lib in needed;
      OneNamed(refs, given[x].name, links[x].lib);
    }
    forall i, j, x, y | IsPlace(refs, i, j) && 0 <= x < y < |given|
      ensures !(IsNameOf(refs, i, j, given[x].name) && IsNameOf(refs, i, j, given[y].name))
    {
      assert links[x].lib != links[y].lib;
    }
    forall i, j | IsPlace(refs, i, j)
      ensures exists g <- given :: IsNameOf(refs, i, j, g.name)
    {
      var k := OneLink(refs, links, i, j);
      assert given[k] in given;
    }
  }

  lemma OneNamed(refs: seq<SourceRefs>, name: string, lib: Library)
    requires RefsOk(refs) && lib in NeededLibraries(refs) && Matching(NeededLibraries(refs), name) == [lib]
    ensures NamesOne(refs, name)
    ensures forall i, j :: IsPlace(refs, i, j) ==> (IsNameOf(refs, i, j, name) <==> LibAt(refs, i, j) == lib)
  {
    hide NeededLibraries, Matching, IsNameOf;
    var k, m := PlaceOf(refs, lib);
    MatchesOne(refs, name, k, m);
    forall i, j | IsPlace(refs, i, j)
      ensures IsNameOf(refs, i, j, name) <==> LibAt(refs, i, j) == lib
    {
      OnePlace(refs, i, j, k, m);
    }
  }

  /** `t` is `b` with the address given for it in every slot of every referenced
      library, and no other character changed. */
  ghost predicate LinkedAsGiven(refs: seq<SourceRefs>, b: string, given: seq<Given>, t: string) {
    && |t| == |b|
    && (forall i, j :: IsPlace(refs, i, j) ==>
          exists g <- given :: IsNameOf(refs, i, j, g.name) && AllHold(t, refs[i].libs[j].slots, g.address))
    && (forall k :: 0 <= k < |b| && InNoSlot(refs, k) ==> t[k] == b[k])
  }

  lemma LinkedIsAsGiven(refs: seq<SourceRefs>, isAddress: string -> bool, b: string, given: seq<Given>, links: seq<Link>, t: string)
    requires RefsOk(refs) && LinksOf(NeededLibraries(refs), isAddress, given, links) && Bijection(NeededLibraries(refs), links)
    requires LinkedExactly(refs, b, links, t)
    ensures LinkedAsGiven(refs, b, given, t)
  {
    LinksDetermine(refs, isAddress, given, links);
    hide NeededLibraries, Matching, RefsOk, IsNameOf, Fqn, DistinctLinks, AllHold, InNoSlot, Bijection;
    forall i, j | IsPlace(refs, i, j)
      ensures exists g <- given :: IsNameOf(refs, i, j, g.name) && AllHold(t, refs[i].libs[j].slots, g.address)
    {
      var l :| l in links && l.lib == LibAt(refs, i, j) && AllHold(t, refs[i].libs[j].slots, l.address);
      var x :| 0 <= x < |links| && links[x] == l;
      assert LinkFor(NeededLibraries(refs), isAddress, given[x], links[x]) && given[x] in given;
    }
  }

  /** `collectLibrariesAndLink`: it succeeds if and only if the entries determine an
      address for every referenced library, and then links the bytecode as given. */
  method CollectLibrariesAndLink(bytecode: string, refs: seq<SourceRefs>, given: seq<Given>, isAddress: string -> bool)
    returns (r: Result<string, LinkError>)
    ensures RefsOk(refs) ==> (r.Ok? <==> Determined(refs, isAddress, given))
    ensures RefsOk(refs) && r.Ok? && SlotsAsPromised(refs, |bytecode|) && (forall g <- given :: |g.address| == 42) ==>
              LinkedAsGiven(refs, bytecode, given, r.value)
    ensures r.Ok? ==> exists links ::
              && LinksOf(NeededLibraries(refs), isAddress, given, links)
              && Bijection(NeededLibraries(refs), links)
              && r.value == ApplyPatches(bytecode, PatchesOf(refs, links))
    ensures r.Err? ==> Explains(NeededLibraries(refs), isAddress, given, r.error)
  {
    hide *;
    var needed := CollectNeeded(refs);
    var links := ChooseLinks(needed, given, isAddress);
    if links.Err? {
      if RefsOk(refs) && Determined(refs, isAddress, given) {
        ghost var all := DeterminedHasLinks(refs, isAddress, given);
      }
      return Err(links.error);
    }
    var linked := LinkBytecode(bytecode, refs, links.value);
    if RefsOk(refs) {
      LinksDetermine(refs, isAddress, given, links.value);
    }
    if RefsOk(refs) && SlotsAsPromised(refs, |bytecode|) && forall g <- given :: |g.address| == 42 {
      AddressesAreGiven(needed, isAddress, given, links.value);
      BijectionLinksExactly(refs, bytecode, links.value);
      LinkedIsAsGiven(refs, isAddress, bytecode, given, links.value, linked);
    }
    r := Ok(linked);
  }

  lemma AddressesAreGiven(needed: seq<Library>, isAddress: string -> bool, given: seq<Given>, links: seq<Link>)
    requires LinksOf(needed, isAddress, given, links)
    ensures forall l <- links :: exists g <- given :: g.address == l.address
  {
    forall l | l in links
      ensures exists g <- given :: g.address == l.address
    {
      var i :| 0 <= i < |links| && links[i] == l;
      assert LinkFor(needed, isAddress, given[i], links[i]) && given[i] in given;
    }
  }
}
