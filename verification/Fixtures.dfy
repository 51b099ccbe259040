/** `loadFixture` and `takeSnapshot` as functions on a world: the node and the
    module-level list of recorded fixtures. */
module FixtureSpec {
  import opened Prelude
  import opened Snapshots

  /** A fixture function: its identity and its JavaScript `name`. */
  datatype Fixture = Fixture(id: nat, name: string)

  /** One element of `snapshots`.  `createdId` is the property the restorer shows,
      `currentId` the variable its closure has moved on to; `origin` is history:
      the chain state when the restorer was made. */
  datatype Entry<S, D> = Entry(fixture: Fixture, data: D, createdId: nat, currentId: nat, origin: S)

  /** `retired` is history: the current ids, on this node, of restorers no longer in
      the list. */
  datatype World<S, D> = World(node: NodeState<S>, recorded: seq<Entry<S, D>>, retired: set<nat>)

  /** What a test, or the body of a fixture, does.  A `Load` carries the actions
      and the result of the fixture's body, used only if the body runs. */
  datatype Action<S, D> =
    | Transact(after: S)
    | MineWithSnapshot(included: bool, after: S)
    | TakeOwn
    | RevertOwn(id: nat)
    | Reset(genesis: S)
    | Load(fixture: Fixture, body: seq<Action<S, D>>, data: D)

  datatype Error = FixtureAnonymousFunctionError | FixtureSnapshotError

  datatype Outcome<D> = Loaded(data: D) | Failed(error: Error)

  ghost predicate Recorded<S, D>(es: seq<Entry<S, D>>, f: Fixture) {
    exists i :: 0 <= i < |es| && es[i].fixture == f
  }

  /** `snapshots.find`: the first element for this fixture. */
  ghost function Find<S, D>(es: seq<Entry<S, D>>, f: Fixture): (i: nat)
    requires Recorded(es, f)
    ensures i < |es| && es[i].fixture == f
    ensures forall k :: 0 <= k < i ==> es[k].fixture != f
  {
    if es[0].fixture == f then 0
    else
      assert exists i :: 0 <= i < |es[1..]| && es[1..][i].fixture == f by {
        var i :| 0 <= i < |es| && es[i].fixture == f;
        assert es[1..][i - 1].fixture == f;
      }
      Find(es[1..], f) + 1
  }

  /** `snapshots.filter`: the comparison is with the id saved at creation. */
  ghost function Prune<S, D>(es: seq<Entry<S, D>>, limit: nat): seq<Entry<S, D>> {
    if es == [] then []
    else (if es[0].createdId <= limit then [es[0]] else []) + Prune(es[1..], limit)
  }

  ghost function Dropped<S, D>(es: seq<Entry<S, D>>, limit: nat): set<nat> {
    set e | e in es && e.createdId > limit :: e.currentId
  }

  /** Restoring element `i`: revert, take a new snapshot, prune. */
  ghost function Reload<S, D>(w: World<S, D>, i: nat): World<S, D>
    requires i < |w.recorded| && Live(w.node, w.recorded[i].currentId)
  {
    var e := w.recorded[i];
    var moved := w.recorded[i := e.(currentId := w.node.nextId)];
    World(Take(Revert(w.node, e.currentId)), Prune(moved, e.createdId), w.retired + Dropped(moved, e.createdId))
  }

  ghost function Record<S, D>(w: World<S, D>, f: Fixture, data: D): World<S, D> {
    var id := w.node.nextId;
    World(Take(w.node), w.recorded + [Entry(f, data, id, id, w.node.state)], w.retired)
  }

  ghost function LoadFixture<S, D>(w: World<S, D>, f: Fixture, body: seq<Action<S, D>>, data: D): (World<S, D>, Outcome<D>)
    decreases body, 2
  {
    if f.name == "" then (w, Failed(FixtureAnonymousFunctionError))
    else if Recorded(w.recorded, f) then
      var i := Find(w.recorded, f);
      if Live(w.node, w.recorded[i].currentId) then (Reload(w, i), Loaded(w.recorded[i].data))
      else (w, Failed(FixtureSnapshotError))
    else
      var (w1, error) := Body(w, body);
      match error
      case Some(e) => (w1, Failed(e))
      case None => (Record(w1, f, data), Loaded(data))
  }

  /** An anonymous function is refused, with nothing run and nothing changed, whatever is
      recorded, and no other function is refused for that. */
  lemma AnonymousIsRefused<S, D>(w: World<S, D>, f: Fixture, body: seq<Action<S, D>>, data: D)
    ensures f.name == "" ==> LoadFixture(w, f, body, data) == (w, Failed(FixtureAnonymousFunctionError))
    ensures f.name != "" && Recorded(w.recorded, f) ==> LoadFixture(w, f, body, data).1 != Failed(FixtureAnonymousFunctionError)
    ensures f.name != "" && body == [] ==> LoadFixture(w, f, body, data).1 != Failed(FixtureAnonymousFunctionError)
  {
  }

  /** One action; the second component is the error it throws, if any. */
  ghost function Step<S, D>(w: World<S, D>, a: Action<S, D>): (World<S, D>, Option<Error>)
    decreases a, 3
  {
    match a
    case Transact(after) => (w.(node := w.node.(state := after)), None)
    case MineWithSnapshot(included, after) =>
      (w.(node := NodeState(w.node.snaps, w.node.nextId + 1, if included then after else w.node.state)), None)
    case TakeOwn => (w.(node := Take(w.node)), None)
    case RevertOwn(id) => (if Live(w.node, id) then w.(node := Revert(w.node, id)) else w, None)
    case Reset(genesis) => (w.(node := NodeState([], 1, genesis), retired := {}), None)
    case Load(f, body, data) =>
      var (w1, outcome) := LoadFixture(w, f, body, data);
      (w1, if outcome.Failed? then Some(outcome.error) else None)
  }

  /** The body of a fixture: an error ends it. */
  ghost function Body<S, D>(w: World<S, D>, actions: seq<Action<S, D>>): (World<S, D>, Option<Error>)
    decreases actions, 1
  {
    if actions == [] then (w, None)
    else
      var (w1, error) := Step(w, actions[0]);
      if error.Some? then (w1, error) else Body(w1, actions[1..])
  }

  /** A whole test run: a failing test does not stop the next one. */
  ghost function Run<S, D>(w: World<S, D>, actions: seq<Action<S, D>>): World<S, D>
    decreases |actions|
  {
    if actions == [] then w else Run(Step(w, actions[0]).0, actions[1..])
  }

  // ----- the invariant -----

  /** Ids only grow along the list: whatever ids the restorers have moved on to,
      each is below the id at which the next one was created. */
  ghost predicate Ordered<S, D>(es: seq<Entry<S, D>>, nextId: nat) {
    && (forall i :: 0 <= i < |es| ==> es[i].createdId <= es[i].currentId < nextId)
    && (forall i, j :: 0 <= i < j < |es| ==> es[i].currentId < es[j].createdId)
  }

  ghost predicate Inv<S, D>(w: World<S, D>) {
    && NodeOk(w.node)
    && Ordered(w.recorded, w.node.nextId)
    && SavedOrigins(w)
    && RetiredDead(w)
  }

  /** A snapshot a restorer can still reach holds the state the restorer was made in. */
  ghost predicate SavedOrigins<S, D>(w: World<S, D>) {
    forall e <- w.recorded :: Live(w.node, e.currentId) ==> Saved(w.node, e.currentId) == e.origin
  }

  /** No restorer that was pruned could still be restored. */
  ghost predicate RetiredDead<S, D>(w: World<S, D>) {
    forall id <- w.retired :: id < w.node.nextId && !Live(w.node, id)
  }

  /** Every recorded fixture can be restored. */
  ghost predicate AllLive<S, D>(w: World<S, D>) {
    forall e <- w.recorded :: Live(w.node, e.currentId)
  }

  /** Chain transactions and `loadFixture` calls only, nested to any depth: the
      test does not itself revert the node. */
  ghost predicate Tame<S, D>(a: Action<S, D>) {
    match a
    case RevertOwn(_) => false
    case Load(_, body, _) => forall b <- body :: Tame(b)
    case _ => true
  }

  /** The node is reset only while nothing is recorded, also inside the bodies of
      fixtures that run. */
  ghost predicate Guarded<S, D>(w: World<S, D>, a: Action<S, D>)
    decreases a, 3
  {
    match a
    case Reset(_) => w.recorded == []
    case Load(f, body, _) => f.name != "" && !Recorded(w.recorded, f) ==> GuardedBody(w, body)
    case _ => true
  }

  ghost predicate GuardedBody<S, D>(w: World<S, D>, actions: seq<Action<S, D>>)
    decreases actions, 1
  {
    actions == [] ||
    (Guarded(w, actions[0]) && (Step(w, actions[0]).1.None? ==> GuardedBody(Step(w, actions[0]).0, actions[1..])))
  }

  ghost predicate GuardedRun<S, D>(w: World<S, D>, actions: seq<Action<S, D>>)
    decreases |actions|
  {
    actions == [] || (Guarded(w, actions[0]) && GuardedRun(Step(w, actions[0]).0, actions[1..]))
  }

  ghost predicate NoReset<S, D>(a: Action<S, D>) {
    match a
    case Reset(_) => false
    case Load(_, body, _) => forall b <- body :: NoReset(b)
    case _ => true
  }

  lemma {:induction false} NoResetIsGuarded<S, D>(w: World<S, D>, a: Action<S, D>)
    requires NoReset(a)
    ensures Guarded(w, a)
    decreases a, 3
  {
    if a.Load? {
      NoResetBodyIsGuarded(w, a.body);
    }
  }

  lemma {:induction false} NoResetBodyIsGuarded<S, D>(w: World<S, D>, actions: seq<Action<S, D>>)
    requires forall a <- actions :: NoReset(a)
    ensures GuardedBody(w, actions)
    decreases actions, 1
  {
    if actions != [] {
      NoResetIsGuarded(w, actions[0]);
      NoResetBodyIsGuarded(Step(w, actions[0]).0, actions[1..]);
    }
  }

  /** In particular every run without a reset is guarded. */
  lemma {:induction false} NoResetRunIsGuarded<S, D>(w: World<S, D>, actions: seq<Action<S, D>>)
    requires forall a <- actions :: NoReset(a)
    ensures GuardedRun(w, actions)
    decreases |actions|
  {
    if actions != [] {
      NoResetIsGuarded(w, actions[0]);
      NoResetRunIsGuarded(Step(w, actions[0]).0, actions[1..]);
    }
  }

  lemma {:induction false} PruneIsPrefix<S, D>(es: seq<Entry<S, D>>, i: nat)
    requires i < |es| && forall j, k :: 0 <= j < k < |es| ==> es[j].createdId < es[k].createdId
    ensures Prune(es, es[i].createdId) == es[..i + 1]
  {
    if i > 0 {
      PruneIsPrefix(es[1..], i - 1);
      assert es[1..][..i] == es[1..i + 1];
    } else {
      NothingKept(es[1..], es[0].createdId);
    }
  }

  lemma {:induction false} NothingKept<S, D>(es: seq<Entry<S, D>>, limit: nat)
    requires forall e <- es :: e.createdId > limit
    ensures Prune(es, limit) == []
  {
    if es != [] {
      NothingKept(es[1..], limit);
    }
  }

  /** What a restored world looks like: a prefix of the list survives, with the
      restored element moved on to the newest id. */
  lemma ReloadShape<S, D>(w: World<S, D>, i: nat)
    requires Inv(w) && i < |w.recorded| && Live(w.node, w.recorded[i].currentId)
    ensures Reload(w, i).recorded == w.recorded[..i] + [w.recorded[i].(currentId := w.node.nextId)]
    ensures forall id: nat :: id in Reload(w, i).retired <==>
              id in w.retired || exists j :: i < j < |w.recorded| && w.recorded[j].currentId == id
  {
    var e := w.recorded[i];
    var moved := w.recorded[i := e.(currentId := w.node.nextId)];
    PruneIsPrefix(moved, i);
    assert moved[..i + 1] == w.recorded[..i] + [moved[i]];
    forall j | i < j < |w.recorded|
      ensures w.recorded[j].currentId in Dropped(moved, e.createdId)
    {
      assert moved[j] in moved;
    }
    forall id | id in Dropped(moved, e.createdId)
      ensures exists j :: i < j < |w.recorded| && w.recorded[j].currentId == id
    {
      var d :| d in moved && d.createdId > e.createdId && d.currentId == id;
      var j :| 0 <= j < |moved| && moved[j] == d;
      assert i < j && w.recorded[j].currentId == id;
    }
  }

  /** Which snapshots the node holds after a restore. */
  lemma ReloadNode<S, D>(w: World<S, D>, i: nat)
    requires Inv(w) && i < |w.recorded| && Live(w.node, w.recorded[i].currentId)
    ensures var n, e := Reload(w, i).node, w.recorded[i];
            && NodeOk(n) && n.nextId == w.node.nextId + 1 && n.state == e.origin
            && (forall id: nat :: Live(n, id) <==> (Live(w.node, id) && id < e.currentId) || id == w.node.nextId)
            && (forall id: nat :: Live(n, id) && id != w.node.nextId ==> Saved(n, id) == Saved(w.node, id))
            && Live(n, w.node.nextId) && Saved(n, w.node.nextId) == e.origin
  {
    var e := w.recorded[i];
    assert e in w.recorded;
    RevertIsExact(w.node, e.currentId);
    TakeIsExact(Revert(w.node, e.currentId));
  }

  lemma ReloadKeeps<S, D>(w: World<S, D>, i: nat)
    requires Inv(w) && i < |w.recorded| && Live(w.node, w.recorded[i].currentId)
    ensures Inv(Reload(w, i)) && (AllLive(w) ==> AllLive(Reload(w, i)))
  {
    ReloadKeepsRecorded(w, i);
    ReloadKeepsRetired(w, i);
    ReloadNode(w, i);
  }

  lemma ReloadKeepsOrder<S, D>(w: World<S, D>, i: nat)
    requires Inv(w) && i < |w.recorded| && Live(w.node, w.recorded[i].currentId)
    ensures Ordered(Reload(w, i).recorded, w.node.nextId + 1)
  {
    ReloadShape(w, i);
    var kept := w.recorded[..i] + [w.recorded[i].(currentId := w.node.nextId)];
    assert Ordered(w.recorded, w.node.nextId);
    hide Reload, SavedOrigins, RetiredDead, NodeOk, Live;
    assert forall j :: 0 <= j < i ==> kept[j] == w.recorded[j];
  }

  lemma ReloadedOrigin<S, D>(w: World<S, D>, i: nat, j: nat)
    requires Inv(w) && j <= i < |w.recorded| && Live(w.node, w.recorded[i].currentId)
    ensures var n := Reload(w, i).node;
            var f := if j == i then w.recorded[i].(currentId := w.node.nextId) else w.recorded[j];
            && (Live(n, f.currentId) ==> Saved(n, f.currentId) == f.origin)
            && (AllLive(w) ==> Live(n, f.currentId))
  {
    ReloadNode(w, i);
    assert w.recorded[j] in w.recorded && w.recorded[i] in w.recorded;
    assert Ordered(w.recorded, w.node.nextId) && SavedOrigins(w);
    hide Reload, Live, Saved, NodeOk, RetiredDead;
  }

  lemma ReloadKeepsRecorded<S, D>(w: World<S, D>, i: nat)
    requires Inv(w) && i < |w.recorded| && Live(w.node, w.recorded[i].currentId)
    ensures Ordered(Reload(w, i).recorded, w.node.nextId + 1) && SavedOrigins(Reload(w, i))
    ensures AllLive(w) ==> AllLive(Reload(w, i))
  {
    var v, e := Reload(w, i), w.recorded[i];
    ReloadKeepsOrder(w, i);
    assert v.recorded == w.recorded[..i] + [e.(currentId := w.node.nextId)] by { ReloadShape(w, i); }
    forall f | f in v.recorded
      ensures Live(v.node, f.currentId) ==> Saved(v.node, f.currentId) == f.origin
      ensures AllLive(w) ==> Live(v.node, f.currentId)
    {
      hide Reload, Live, Saved, AllLive, Inv;
      var j: nat :| j < |v.recorded| && v.recorded[j] == f;
      ReloadedOrigin(w, i, j);
    }
  }

  lemma ReloadKeepsRetired<S, D>(w: World<S, D>, i: nat)
    requires Inv(w) && i < |w.recorded| && Live(w.node, w.recorded[i].currentId)
    ensures RetiredDead(Reload(w, i))
  {
    ReloadShape(w, i);
    ReloadNode(w, i);
  }

  lemma RecordKeeps<S, D>(w: World<S, D>, f: Fixture, data: D)
    requires Inv(w)
    ensures Inv(Record(w, f, data)) && (AllLive(w) ==> AllLive(Record(w, f, data)))
  {
    TakeIsExact(w.node);
    var v := Record(w, f, data);
    assert v.node == Take(w.node) && v.retired == w.retired;
    assert Ordered(v.recorded, v.node.nextId) && RetiredDead(v);
    hide Ordered, RetiredDead, Live, Saved, Take, NodeOk;
    forall e | e in v.recorded
      ensures Live(v.node, e.currentId) ==> Saved(v.node, e.currentId) == e.origin
      ensures AllLive(w) ==> Live(v.node, e.currentId)
    {
      if e != v.recorded[|w.recorded|] {
        assert e in w.recorded;
      }
    }
  }

  /** Every guarded action, whatever it nests, keeps the invariant; a tame one keeps
      every recorded fixture restorable and never raises `FixtureSnapshotError`. */
  lemma {:induction false} StepKeeps<S, D>(w: World<S, D>, a: Action<S, D>)
    requires Inv(w) && Guarded(w, a)
    ensures Inv(Step(w, a).0)
    ensures AllLive(w) && Tame(a) ==> AllLive(Step(w, a).0) && Step(w, a).1 != Some(FixtureSnapshotError)
    decreases a, 3
  {
    match a
    case Transact(_) => SameSnapshots(w, Step(w, a).0);
    case MineWithSnapshot(_, _) => SameSnapshots(w, Step(w, a).0);
    case TakeOwn => TakeIsExact(w.node);
    case RevertOwn(id) => if Live(w.node, id) { RevertIsExact(w.node, id); }
    case Reset(_) =>
    case Load(f, body, data) => LoadKeeps(w, f, body, data);
  }

  lemma SameSnapshots<S, D>(w: World<S, D>, v: World<S, D>)
    requires Inv(w) && v.node.snaps == w.node.snaps && v.node.nextId >= w.node.nextId
    requires v.recorded == w.recorded && v.retired == w.retired
    ensures Inv(v) && (AllLive(w) ==> AllLive(v))
  {
    forall id: nat
      ensures Live(v.node, id) <==> Live(w.node, id)
      ensures Live(w.node, id) ==> Saved(v.node, id) == Saved(w.node, id)
    {
      if Live(w.node, id) { assert At(v.node, Index(w.node, id), id); }
      if Live(v.node, id) { assert At(w.node, Index(v.node, id), id); }
    }
  }

  lemma {:induction false} LoadKeeps<S, D>(w: World<S, D>, f: Fixture, body: seq<Action<S, D>>, data: D)
    requires Inv(w) && Guarded(w, Load(f, body, data))
    ensures Inv(LoadFixture(w, f, body, data).0)
    ensures AllLive(w) && (forall b <- body :: Tame(b)) ==>
              AllLive(LoadFixture(w, f, body, data).0) &&
              LoadFixture(w, f, body, data).1 != Failed(FixtureSnapshotError)
    decreases body, 2
  {
    if f.name != "" {
      if Recorded(w.recorded, f) {
        var i := Find(w.recorded, f);
        assert w.recorded[i] in w.recorded;
        if Live(w.node, w.recorded[i].currentId) { ReloadKeeps(w, i); }
      } else {
        BodyKeeps(w, body);
        RecordKeeps(Body(w, body).0, f, data);
      }
    }
  }

  lemma {:induction false} BodyKeeps<S, D>(w: World<S, D>, actions: seq<Action<S, D>>)
    requires Inv(w) && GuardedBody(w, actions)
    ensures Inv(Body(w, actions).0)
    ensures AllLive(w) && (forall b <- actions :: Tame(b)) ==>
              AllLive(Body(w, actions).0) && Body(w, actions).1 != Some(FixtureSnapshotError)
    decreases actions, 1
  {
    if actions != [] {
      StepKeeps(w, actions[0]);
      if Step(w, actions[0]).1.None? {
        BodyKeeps(Step(w, actions[0]).0, actions[1..]);
      }
    }
  }

  lemma {:induction false} RunKeeps<S, D>(w: World<S, D>, actions: seq<Action<S, D>>)
    requires Inv(w) && GuardedRun(w, actions)
    ensures Inv(Run(w, actions))
    ensures AllLive(w) && (forall b <- actions :: Tame(b)) ==> AllLive(Run(w, actions))
    decreases |actions|
  {
    if actions != [] {
      StepKeeps(w, actions[0]);
      RunKeeps(Step(w, actions[0]).0, actions[1..]);
    }
  }

  // ----- what a whole run guarantees -----

  ghost function Initial<S, D>(genesis: S): World<S, D> {
    World(NodeState([], 1, genesis), [], {})
  }

  /** After any run of transactions and `loadFixture` calls, nested to any depth,
      and of resets while nothing is recorded, the list holds exactly the fixtures
      whose current snapshot the node still has. */
  lemma RecordedAreExactlyTheLive<S, D>(genesis: S, actions: seq<Action<S, D>>)
    requires GuardedRun(Initial<S, D>(genesis), actions) && forall a <- actions :: Tame(a)
    ensures forall e <- Run(Initial<S, D>(genesis), actions).recorded ::
              Live(Run(Initial<S, D>(genesis), actions).node, e.currentId)
    ensures forall id <- Run(Initial<S, D>(genesis), actions).retired ::
              !Live(Run(Initial<S, D>(genesis), actions).node, id)
  {
    RunKeeps(Initial<S, D>(genesis), actions);
  }

  lemma KeptUpTo<S, D>(w: World<S, D>, i: nat, j: nat)
    requires Inv(w) && i < |w.recorded| && j < |w.recorded| && Live(w.node, w.recorded[i].currentId)
    ensures w.recorded[i := w.recorded[i].(currentId := w.node.nextId)][j] in Reload(w, i).recorded <==> j <= i
  {
    var moved := w.recorded[i := w.recorded[i].(currentId := w.node.nextId)];
    var kept := Reload(w, i).recorded;
    assert kept == moved[..i + 1] by { ReloadShape(w, i); }
    assert Ordered(w.recorded, w.node.nextId);
    hide Reload, NodeOk, SavedOrigins, RetiredDead, Live;
    assert j <= i ==> kept[j] == moved[j];
    assert forall k :: 0 <= k < |kept| ==> kept[k].createdId == w.recorded[k].createdId;
  }

  lemma LiveUpTo<S, D>(w: World<S, D>, i: nat, j: nat)
    requires Inv(w) && AllLive(w) && i < |w.recorded| && j < |w.recorded| && Live(w.node, w.recorded[i].currentId)
    ensures Live(Reload(w, i).node, w.recorded[i := w.recorded[i].(currentId := w.node.nextId)][j].currentId) <==> j <= i
  {
    ReloadNode(w, i);
    assert w.recorded[i] in w.recorded && w.recorded[j] in w.recorded;
    assert Ordered(w.recorded, w.node.nextId);
    hide Reload, NodeOk, SavedOrigins, RetiredDead, Live, Saved;
  }

  /** Pruning by the ids shown at creation removes exactly the elements whose
      current snapshot the restore has just destroyed. */
  lemma PruningIsExact<S, D>(w: World<S, D>, i: nat, j: nat)
    requires Inv(w) && AllLive(w) && i < |w.recorded| && j < |w.recorded|
    ensures Live(w.node, w.recorded[i].currentId)
    ensures var moved := w.recorded[i := w.recorded[i].(currentId := w.node.nextId)];
            moved[j] in Reload(w, i).recorded <==> Live(Reload(w, i).node, moved[j].currentId)
  {
    assert w.recorded[i] in w.recorded;
    hide Reload, Live, Inv;
    KeptUpTo(w, i, j);
    LiveUpTo(w, i, j);
  }

  /** A revert by the test itself leaves every fixture restorable if and only if
      no recorded fixture has been created or restored since that snapshot. */
  lemma OwnRevertIsHarmless<S, D>(w: World<S, D>, id: nat)
    requires Inv(w) && AllLive(w) && Live(w.node, id)
    ensures AllLive(Step(w, RevertOwn(id)).0) <==> forall e <- w.recorded :: e.currentId < id
  {
    RevertIsExact(w.node, id);
  }

  /** A reset leaves every fixture restorable if and only if nothing is recorded, and
      then it keeps the invariant. */
  lemma ResetIsHarmlessExactly<S, D>(w: World<S, D>, genesis: S)
    requires Inv(w)
    ensures AllLive(Step(w, Reset(genesis)).0) <==> w.recorded == []
    ensures w.recorded == [] ==> Inv(Step(w, Reset(genesis)).0)
  {
    var v := Step(w, Reset(genesis)).0;
    assert forall id: nat :: !Live(v.node, id);
    if w.recorded != [] {
      assert w.recorded[0] in v.recorded;
    }
  }

  lemma FirstLoad<S, D>(w: World<S, D>, f: Fixture, after: S, data: D)
    requires f.name != "" && !Recorded(w.recorded, f)
    ensures LoadFixture(w, f, [Transact(after)], data) ==
            (Record(w.(node := w.node.(state := after)), f, data), Loaded(data))
  {
    var body: seq<Action<S, D>> := [Transact(after)];
    var v := w.(node := w.node.(state := after));
    assert Step(w, body[0]) == (v, None) && body[1..] == [];
    assert Body(v, []) == (v, Option<Error>.None);
  }

  /** Loading a fixture again after a revert, by the test, to the very snapshot the
      fixture took raises the error. */
  lemma LoadAfterOwnRevertFails<S, D>(genesis: S, f: Fixture, after: S, data: D)
    requires f.name != ""
    ensures var w1 := LoadFixture(Initial<S, D>(genesis), f, [Transact(after)], data).0;
            var w2 := Step(w1, RevertOwn(1)).0;
            LoadFixture(w2, f, [Transact(after)], data) == (w2, Failed(FixtureSnapshotError))
  {
    FirstLoad(Initial<S, D>(genesis), f, after, data);
    var w1 := LoadFixture(Initial<S, D>(genesis), f, [Transact(after)], data).0;
    assert w1.node == NodeState([Snap(1, after)], 2, after) && At(w1.node, 0, 1) && Index(w1.node, 1) == 0;
    var w2 := Step(w1, RevertOwn(1)).0;
    assert w2.node.snaps == [];
    assert w2.recorded[0].fixture == f && Find(w2.recorded, f) == 0;
    assert !Live(w2.node, w2.recorded[0].currentId);
  }

  /** Loading a fixture, resetting the node and loading it again raises the error,
      without any revert by the test. */
  lemma LoadAfterResetFails<S, D>(genesis: S, again: S, f: Fixture, after: S, data: D)
    requires f.name != ""
    ensures var w1 := LoadFixture(Initial<S, D>(genesis), f, [Transact(after)], data).0;
            var w2 := Step(w1, Reset(again)).0;
            LoadFixture(w2, f, [Transact(after)], data) == (w2, Failed(FixtureSnapshotError))
  {
    FirstLoad(Initial<S, D>(genesis), f, after, data);
    var w1 := LoadFixture(Initial<S, D>(genesis), f, [Transact(after)], data).0;
    var w2 := Step(w1, Reset(again)).0;
    assert w2.recorded[0].fixture == f && Find(w2.recorded, f) == 0;
    assert !Live(w2.node, w2.recorded[0].currentId);
  }

  /** With another fixture loaded after the reset there is no error: the first
      fixture's data comes back on the other one's state. */
  lemma LoadAfterResetMixesUp<S, D>(genesis: S, again: S, f: Fixture, g: Fixture, a: S, b: S, dataF: D, dataG: D)
    requires f.name != "" && g.name != "" && f != g
    ensures var w1 := LoadFixture(Initial<S, D>(genesis), f, [Transact(a)], dataF).0;
            var w2 := Step(w1, Reset(again)).0;
            var w3 := LoadFixture(w2, g, [Transact(b)], dataG).0;
            var (w4, outcome) := LoadFixture(w3, f, [Transact(a)], dataF);
            outcome == Loaded(dataF) && w4.node.state == b
  {
    FirstLoad(Initial<S, D>(genesis), f, a, dataF);
    var w1 := LoadFixture(Initial<S, D>(genesis), f, [Transact(a)], dataF).0;
    var w2 := Step(w1, Reset(again)).0;
    assert w2.recorded == [Entry(f, dataF, 1, 1, a)] && !Recorded(w2.recorded, g);
    FirstLoad(w2, g, b, dataG);
    var w3 := LoadFixture(w2, g, [Transact(b)], dataG).0;
    assert w3.node == NodeState([Snap(1, b)], 2, b) && w3.recorded[0].fixture == f && Find(w3.recorded, f) == 0;
    assert At(w3.node, 0, 1);
    assert Index(w3.node, 1) == 0 && Saved(w3.node, 1) == b;
  }

  /** Once something is recorded, elements of `w` older than `v` stand for the same
      runs of the same fixtures. */
  ghost predicate Descends<S, D>(v: World<S, D>, w: World<S, D>) {
    v.recorded != [] ==>
      && w.recorded != [] && v.node.nextId <= w.node.nextId
      && forall e <- w.recorded :: e.createdId < v.node.nextId ==> Known(v.recorded, e)
  }

  ghost predicate Known<S, D>(es: seq<Entry<S, D>>, e: Entry<S, D>) {
    exists d <- es :: SameRun(d, e)
  }

  ghost predicate SameRun<S, D>(d: Entry<S, D>, e: Entry<S, D>) {
    d.(currentId := e.currentId) == e
  }

  lemma DescendsTransitive<S, D>(u: World<S, D>, v: World<S, D>, w: World<S, D>)
    requires Descends(u, v) && Descends(v, w)
    ensures Descends(u, w)
  {
    forall e | u.recorded != [] && e in w.recorded && e.createdId < u.node.nextId
      ensures Known(u.recorded, e)
    {
      var d :| d in v.recorded && SameRun(d, e);
      var c :| c in u.recorded && SameRun(c, d);
      assert SameRun(c, e);
    }
  }

  lemma DescendsSelf<S, D>(v: World<S, D>, w: World<S, D>)
    requires v.recorded != [] ==> v.node.nextId <= w.node.nextId
    requires v.recorded == w.recorded
    ensures Descends(v, w)
  {
    forall e | e in w.recorded
      ensures Known(v.recorded, e)
    {
      assert SameRun(e, e);
    }
  }

  lemma ReloadDescends<S, D>(w: World<S, D>, i: nat)
    requires Inv(w) && i < |w.recorded| && Live(w.node, w.recorded[i].currentId)
    ensures Descends(w, Reload(w, i))
  {
    ReloadNode(w, i);
    var v := Reload(w, i);
    assert v.recorded == w.recorded[..i] + [w.recorded[i].(currentId := w.node.nextId)] by { ReloadShape(w, i); }
    forall e | e in v.recorded
      ensures Known(w.recorded, e)
    {
      var j :| 0 <= j < |v.recorded| && v.recorded[j] == e;
      assert w.recorded[j] in w.recorded && SameRun(w.recorded[j], e);
    }
  }

  lemma RecordDescends<S, D>(w: World<S, D>, f: Fixture, data: D)
    ensures Descends(w, Record(w, f, data))
  {
    var v := Record(w, f, data);
    forall e | e in v.recorded && e.createdId < w.node.nextId
      ensures Known(w.recorded, e)
    {
      assert e in w.recorded && SameRun(e, e);
    }
  }

  lemma {:induction false} StepDescends<S, D>(w: World<S, D>, a: Action<S, D>)
    requires Inv(w) && Guarded(w, a)
    ensures Descends(w, Step(w, a).0)
    decreases a, 3
  {
    if a.Load? {
      LoadDescends(w, a.fixture, a.body, a.data);
    } else {
      DescendsSelf(w, Step(w, a).0);
    }
  }

  lemma {:induction false} LoadDescends<S, D>(w: World<S, D>, f: Fixture, body: seq<Action<S, D>>, data: D)
    requires Inv(w) && Guarded(w, Load(f, body, data))
    ensures Descends(w, LoadFixture(w, f, body, data).0)
    decreases body, 2
  {
    DescendsSelf(w, w);
    if f.name != "" {
      if Recorded(w.recorded, f) {
        var i := Find(w.recorded, f);
        if Live(w.node, w.recorded[i].currentId) { ReloadDescends(w, i); }
      } else {
        var (w1, error) := Body(w, body);
        BodyDescends(w, body);
        RecordDescends(w1, f, data);
        if error.None? { DescendsTransitive(w, w1, Record(w1, f, data)); }
      }
    }
  }

  lemma {:induction false} BodyDescends<S, D>(w: World<S, D>, actions: seq<Action<S, D>>)
    requires Inv(w) && GuardedBody(w, actions)
    ensures Descends(w, Body(w, actions).0)
    decreases actions, 1
  {
    DescendsSelf(w, w);
    if actions != [] {
      var (w1, error) := Step(w, actions[0]);
      StepDescends(w, actions[0]);
      StepKeeps(w, actions[0]);
      if error.None? {
        BodyDescends(w1, actions[1..]);
        DescendsTransitive(w, w1, Body(w, actions).0);
      }
    }
  }

  lemma {:induction false} RunDescends<S, D>(w: World<S, D>, actions: seq<Action<S, D>>)
    requires Inv(w) && GuardedRun(w, actions)
    ensures Descends(w, Run(w, actions))
    decreases |actions|
  {
    DescendsSelf(w, w);
    if actions != [] {
      var w1 := Step(w, actions[0]).0;
      StepDescends(w, actions[0]);
      StepKeeps(w, actions[0]);
      RunDescends(w1, actions[1..]);
      DescendsTransitive(w, w1, Run(w, actions));
    }
  }

  /** Whatever tame actions come in between, loading a fixture again returns what
      its first run returned and puts the chain back to where that run left it. */
  lemma ReloadRepeatsFirstRun<S, D>(
      w: World<S, D>, f: Fixture, body: seq<Action<S, D>>, data: D,
      later: seq<Action<S, D>>, body2: seq<Action<S, D>>, data2: D)
    requires Inv(w) && AllLive(w) && f.name != "" && !Recorded(w.recorded, f)
    requires forall a <- body + later :: Tame(a)
    requires GuardedBody(w, body) && GuardedRun(LoadFixture(w, f, body, data).0, later)
    requires LoadFixture(w, f, body, data).1.Loaded?
    requires var w1 := LoadFixture(w, f, body, data).0;
             var w2 := Run(w1, later);
             Recorded(w2.recorded, f) &&
             w2.recorded[Find(w2.recorded, f)].createdId == w1.node.nextId - 1
    ensures var w1 := LoadFixture(w, f, body, data).0;
            var (w3, outcome) := LoadFixture(Run(w1, later), f, body2, data2);
            outcome == Loaded(data) && w3.node.state == w1.node.state
  {
    assert forall a <- body :: a in body + later;
    assert forall a <- later :: a in body + later;
    var w1 := LoadFixture(w, f, body, data).0;
    LoadKeeps(w, f, body, data);
    FirstRun(w, f, body, data);
    RepeatAfter(w1, later, f, data, w1.node.state);
  }

  /** The element a first run records. */
  lemma FirstRun<S, D>(w: World<S, D>, f: Fixture, body: seq<Action<S, D>>, data: D)
    requires Inv(w) && f.name != "" && !Recorded(w.recorded, f) && GuardedBody(w, body)
    requires LoadFixture(w, f, body, data).1.Loaded?
    ensures var w1 := LoadFixture(w, f, body, data).0;
            w1.node.nextId > 0 && w1.recorded != [] &&
            forall d <- w1.recorded :: d.createdId == w1.node.nextId - 1 ==>
              d.data == data && d.origin == w1.node.state
  {
    BodyKeeps(w, body);
    var v := Body(w, body).0;
    assert Ordered(v.recorded, v.node.nextId);
  }

  lemma RepeatAfter<S, D>(w1: World<S, D>, later: seq<Action<S, D>>, f: Fixture, data: D, origin: S)
    requires Inv(w1) && AllLive(w1) && w1.node.nextId > 0 && w1.recorded != [] && f.name != "" && GuardedRun(w1, later)
    requires forall a <- later :: Tame(a)
    requires forall d <- w1.recorded :: d.createdId == w1.node.nextId - 1 ==> d.data == data && d.origin == origin
    requires var w2 := Run(w1, later);
             Recorded(w2.recorded, f) && w2.recorded[Find(w2.recorded, f)].createdId == w1.node.nextId - 1
    ensures forall body, data2 :: var (w3, outcome) := LoadFixture(Run(w1, later), f, body, data2);
              outcome == Loaded(data) && w3.node.state == origin
  {
    var w2 := Run(w1, later);
    RunKeeps(w1, later);
    RunDescends(w1, later);
    hide Run, GuardedRun, Tame;
    var i := Find(w2.recorded, f);
    assert w2.recorded[i] in w2.recorded;
    var d :| d in w1.recorded && SameRun(d, w2.recorded[i]);
    ReloadNode(w2, i);
  }

  // ----- what a first load does -----

  /** The body runs its actions in order, up to and including the first that fails. */
  lemma {:induction false} BodyIsRun<S, D>(w: World<S, D>, actions: seq<Action<S, D>>)
    ensures Body(w, actions).1.None? ==> Body(w, actions).0 == Run(w, actions)
    ensures Body(w, actions).1.Some? ==>
              exists k :: 0 <= k < |actions| && Body(w, actions).0 == Run(w, actions[..k + 1]) &&
                Step(Run(w, actions[..k]), actions[k]).1 == Body(w, actions).1
    decreases |actions|
  {
    if actions != [] {
      var a, rest := actions[0], actions[1..];
      var (w1, error) := Step(w, a);
      hide Step;
      if error.Some? {
        assert actions[..1] == [a] && [a][1..] == [] && actions[..0] == [];
        assert Run(w, [a]) == Run(w1, []) == w1;
        assert 0 <= 0 < |actions| && Body(w, actions).0 == Run(w, actions[..0 + 1]);
      } else {
        BodyIsRun(w1, rest);
        if Body(w1, rest).1.Some? {
          var k :| 0 <= k < |rest| && Body(w1, rest).0 == Run(w1, rest[..k + 1]) &&
                   Step(Run(w1, rest[..k]), rest[k]).1 == Body(w1, rest).1;
          PrefixRun(w, actions, k);
          PrefixRun(w, actions, k + 1);
          assert 0 <= k + 1 < |actions| && Body(w, actions).0 == Run(w, actions[..k + 1 + 1]);
        }
      }
    }
  }

  lemma PrefixRun<S, D>(w: World<S, D>, actions: seq<Action<S, D>>, k: nat)
    requires 0 < |actions| && k < |actions|
    ensures Run(w, actions[..k + 1]) == Run(Step(w, actions[0]).0, actions[1..][..k])
  {
    hide Step;
    assert actions[..k + 1][0] == actions[0] && actions[..k + 1][1..] == actions[1..][..k];
  }

  /** A transaction that a body ends with is what the chain is left in. */
  lemma LastTransactionStands<S, D>(w: World<S, D>, actions: seq<Action<S, D>>, after: S)
    requires Body(w, actions + [Transact(after)]).1.None?
    ensures Body(w, actions + [Transact(after)]).0.node.state == after
  {
    BodyIsRun(w, actions + [Transact(after)]);
    RunEnds(w, actions, Transact(after));
  }

  lemma {:induction false} RunEnds<S, D>(w: World<S, D>, actions: seq<Action<S, D>>, a: Action<S, D>)
    ensures Run(w, actions + [a]) == Step(Run(w, actions), a).0
    decreases |actions|
  {
    hide Step;
    if actions == [] {
      assert [] + [a] == [a] && [a][1..] == [];
    } else {
      assert (actions + [a])[1..] == actions[1..] + [a] && (actions + [a])[0] == actions[0];
      RunEnds(Step(w, actions[0]).0, actions[1..], a);
    }
  }

  /** Loading a named fixture that is not recorded runs its body.  If the body throws, so
      does the load, and nothing more is recorded; otherwise the data of the body is
      returned, the chain stays where the body left it, and one element is recorded. */
  lemma FirstLoadRunsTheBody<S, D>(w: World<S, D>, f: Fixture, body: seq<Action<S, D>>, data: D)
    requires f.name != "" && !Recorded(w.recorded, f)
    ensures var (w1, error) := Body(w, body);
            var (v, outcome) := LoadFixture(w, f, body, data);
            if error.Some? then v == w1 && outcome == Failed(error.value)
            else
              && outcome == Loaded(data) && v.node.state == w1.node.state
              && |v.recorded| == |w1.recorded| + 1 && v.recorded[..|w1.recorded|] == w1.recorded
              && v.recorded[|w1.recorded|].fixture == f && v.recorded[|w1.recorded|].data == data
              && (NodeOk(w1.node) ==>
                    && Live(v.node, v.recorded[|w1.recorded|].currentId)
                    && Saved(v.node, v.recorded[|w1.recorded|].currentId) == w1.node.state)
  {
    if NodeOk(Body(w, body).0.node) {
      TakeIsExact(Body(w, body).0.node);
    }
    hide Body, Live, Saved;
  }

  ghost predicate LoadsNothing<S, D>(actions: seq<Action<S, D>>) {
    forall a <- actions :: !a.Load?
  }

  lemma {:induction false} BodyRecordsNothing<S, D>(w: World<S, D>, actions: seq<Action<S, D>>)
    requires LoadsNothing(actions)
    ensures Body(w, actions).0.recorded == w.recorded && Body(w, actions).1.None?
    decreases |actions|
  {
    if actions != [] {
      var (w1, error) := Step(w, actions[0]);
      assert actions[0] in actions && w1.recorded == w.recorded && error.None?;
      BodyRecordsNothing(w1, actions[1..]);
    }
  }

  /** A fixture whose body threw is run again by the next load: the body may start with
      anything but a load, then load a fixture `g` that fails. */
  lemma FailedFixtureRunsAgain<S, D>(
      w: World<S, D>, f: Fixture, g: Fixture, body: seq<Action<S, D>>, data: D, body2: seq<Action<S, D>>, data2: D)
    requires f.name != "" && g.name == "" && !Recorded(w.recorded, f) && LoadsNothing(body) && LoadsNothing(body2)
    ensures var (v, outcome) := LoadFixture(w, f, body + [Load(g, [], data)], data);
            && outcome == Failed(FixtureAnonymousFunctionError)
            && LoadFixture(v, f, body2, data2).1 == Loaded(data2)
  {
    var failing := body + [Load(g, [], data)];
    FirstLoadRunsTheBody(w, f, failing, data);
    BodyFails(w, body, g, data);
    var v := LoadFixture(w, f, failing, data).0;
    assert v.recorded == w.recorded && !Recorded(v.recorded, f);
    BodyRecordsNothing(v, body2);
    FirstLoadRunsTheBody(v, f, body2, data2);
  }

  lemma {:induction false} BodyFails<S, D>(w: World<S, D>, body: seq<Action<S, D>>, g: Fixture, data: D)
    requires g.name == "" && LoadsNothing(body)
    ensures var (v, error) := Body(w, body + [Load(g, [], data)]);
            error == Some(FixtureAnonymousFunctionError) && v.recorded == w.recorded
    decreases |body|
  {
    var all := body + [Load(g, [], data)];
    if body == [] {
      assert all == [Load(g, [], data)];
      AnonymousIsRefused(w, g, [], data);
    } else {
      var (w1, error) := Step(w, body[0]);
      assert body[0] in body && w1.recorded == w.recorded && error.None?;
      assert all[0] == body[0] && all[1..] == body[1..] + [Load(g, [], data)];
      BodyFails(w1, body[1..], g, data);
    }
  }
}
