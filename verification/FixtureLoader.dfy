/** `takeSnapshot` and `loadFixture` in the form the source has them: a closure
    that moves its captured id, and a module-level list that is pushed to and
    filtered.  Every method does to the world what `FixtureSpec` says. */
module FixtureLoading {
  import opened Prelude
  import opened Snapshots
  import Spec = FixtureSpec
  import opened FixtureSpec

  class SnapshotRestorer<S> {
    const node: HardhatNode<S>
    const snapshotId: nat
    var captured: nat
    ghost const origin: S

    constructor (node: HardhatNode<S>, id: nat, ghost origin: S)
      ensures this.node == node && snapshotId == id && captured == id && this.origin == origin
    {
      this.node := node;
      snapshotId := id;
      captured := id;
      this.origin := origin;
    }

    method Restore() returns (reverted: bool)
      requires node.Valid()
      modifies this, node
      ensures node.Valid() && reverted == old(Live(node.View(), captured))
      ensures !reverted ==> captured == old(captured) && node.View() == old(node.View())
      ensures reverted ==> captured == old(node.nextSnapshotId)
      ensures reverted ==> node.View() == Take(Revert(old(node.View()), old(captured)))
    {
      reverted := node.RevertToSnapshot(captured);
      if reverted {
        captured := node.TakeSnapshot();
      }
    }
  }

  method TakeSnapshot<S>(node: HardhatNode<S>) returns (r: SnapshotRestorer<S>)
    requires node.Valid()
    modifies node
    ensures node.Valid() && node.View() == Take(old(node.View()))
    ensures fresh(r) && r.node == node && r.origin == old(node.state)
    ensures r.snapshotId == r.captured == old(node.nextSnapshotId)
  {
    ghost var state := node.state;
    var id := node.TakeSnapshot();
    r := new SnapshotRestorer(node, id, state);
  }

  datatype Snapshot<S, D> = Snapshot(restorer: SnapshotRestorer<S>, fixture: Fixture, data: D)

  ghost function EntryOf<S, D>(s: Snapshot<S, D>): Entry<S, D>
    reads s.restorer
  {
    Entry(s.fixture, s.data, s.restorer.snapshotId, s.restorer.captured, s.restorer.origin)
  }

  ghost function Footprint<S(!new), D(!new)>(ss: seq<Snapshot<S, D>>): set<SnapshotRestorer<S>> {
    set i | 0 <= i < |ss| :: ss[i].restorer
  }

  ghost function Entries<S(!new), D(!new)>(ss: seq<Snapshot<S, D>>): (es: seq<Entry<S, D>>)
    reads Footprint(ss)
    ensures |es| == |ss| && forall i :: 0 <= i < |ss| ==> es[i] == EntryOf(ss[i])
  {
    if ss == [] then []
    else
      assert forall i :: 0 <= i < |ss[1..]| ==> ss[1..][i] == ss[i + 1];
      assert ss[0].restorer in Footprint(ss) && Footprint(ss[1..]) <= Footprint(ss);
      [EntryOf(ss[0])] + Entries(ss[1..])
  }

  /** `snapshots.filter`, comparing the ids the restorers show. */
  function Filter<S, D>(ss: seq<Snapshot<S, D>>, limit: nat): seq<Snapshot<S, D>> {
    if ss == [] then []
    else (if ss[0].restorer.snapshotId <= limit then [ss[0]] else []) + Filter(ss[1..], limit)
  }

  /** The restorers belong to `node` and are pairwise different objects. */
  ghost predicate Separate<S(!new), D(!new)>(ss: seq<Snapshot<S, D>>, node: HardhatNode<S>) {
    && (forall i :: 0 <= i < |ss| ==> ss[i].restorer.node == node)
    && (forall i, j :: 0 <= i < j < |ss| ==> ss[i].restorer != ss[j].restorer)
  }

  lemma {:induction false} FilterKeepsSeparate<S(!new), D(!new)>(ss: seq<Snapshot<S, D>>, limit: nat, node: HardhatNode<S>)
    requires Separate(ss, node)
    ensures Separate(Filter(ss, limit), node) && Footprint(Filter(ss, limit)) <= Footprint(ss)
  {
    if ss != [] {
      var tail := ss[1..];
      assert Separate(tail, node);
      FilterKeepsSeparate(tail, limit, node);
      assert forall r <- Footprint(tail) :: r in Footprint(ss) && r != ss[0].restorer;
      var kept := Filter(ss, limit);
      assert forall i :: 0 <= i < |Filter(tail, limit)| ==> Filter(tail, limit)[i].restorer in Footprint(Filter(tail, limit));
    }
  }

  lemma {:induction false} FilterIsPrune<S(!new), D(!new)>(ss: seq<Snapshot<S, D>>, limit: nat)
    ensures Entries(Filter(ss, limit)) == Prune(Entries(ss), limit)
  {
    if ss != [] {
      FilterIsPrune(ss[1..], limit);
      assert Entries(ss)[1..] == Entries(ss[1..]);
      var tail := Filter(ss[1..], limit);
      assert Entries([ss[0]] + tail) == [EntryOf(ss[0])] + Entries(tail);
      assert [] + tail == tail;
    }
  }

  ghost function Moved<S, D>(es: seq<Entry<S, D>>, i: nat, id: nat): seq<Entry<S, D>>
    requires i < |es|
  {
    es[i := es[i].(currentId := id)]
  }

  lemma ReloadParts<S, D>(w: World<S, D>, i: nat)
    requires i < |w.recorded| && Live(w.node, w.recorded[i].currentId)
    ensures var e, moved := w.recorded[i], Moved(w.recorded, i, w.node.nextId);
            Reload(w, i) == World(Take(Revert(w.node, e.currentId)), Prune(moved, e.createdId), w.retired + Dropped(moved, e.createdId))
  {
  }

  class FixtureLoader<S(!new), D(!new)> {
    const node: HardhatNode<S>
    var snapshots: seq<Snapshot<S, D>>
    ghost var retired: set<nat>

    ghost predicate Valid()
      reads this, node
    {
      && node.Valid()
      && Separate(snapshots, node)
    }

    ghost function View(): World<S, D>
      reads this, node, Footprint(snapshots)
    {
      World(node.View(), Entries(snapshots), retired)
    }

    constructor (node: HardhatNode<S>)
      requires node.Valid()
      ensures Valid() && this.node == node && View() == World(node.View(), [], {})
    {
      this.node := node;
      snapshots := [];
      retired := {};
    }

    /** `snapshots.find`. */
    method FindSnapshot(f: Fixture) returns (index: Option<nat>)
      requires Valid()
      ensures index.Some? <==> Recorded(View().recorded, f)
      ensures index.Some? ==> index.value == Find(View().recorded, f)
    {
      var i := 0;
      while i < |snapshots|
        invariant 0 <= i <= |snapshots|
        invariant forall k :: 0 <= k < i ==> View().recorded[k].fixture != f
      {
        if snapshots[i].fixture == f {
          assert View().recorded[i].fixture == f;
          return Some(i);
        }
        i := i + 1;
      }
      index := None;
    }

    /** `loadFixture`; `body` and `data` are what the fixture does and returns if it runs. */
    method LoadFixture(f: Fixture, body: seq<Action<S, D>>, data: D) returns (outcome: Outcome<D>)
      requires Valid()
      modifies this, node, Footprint(snapshots)
      ensures Valid() && fresh(Footprint(snapshots) - old(Footprint(snapshots)))
      ensures (View(), outcome) == Spec.LoadFixture(old(View()), f, body, data)
      decreases body, 2
    {
      if f.name == "" {
        return Failed(FixtureAnonymousFunctionError);
      }
      var found := FindSnapshot(f);
      if found.Some? {
        outcome := ReloadAt(found.value);
      } else {
        var error := RunBody(body);
        if error.Some? {
          return Failed(error.value);
        }
        PushRestorer(f, data);
        outcome := Loaded(data);
      }
    }

    method ReloadAt(i: nat) returns (outcome: Outcome<D>)
      requires Valid() && i < |snapshots|
      modifies this, node, Footprint(snapshots)
      ensures Valid() && Footprint(snapshots) <= old(Footprint(snapshots))
      ensures var w := old(View());
              if Live(w.node, w.recorded[i].currentId)
              then View() == Reload(w, i) && outcome == Loaded(w.recorded[i].data)
              else View() == w && outcome == Failed(FixtureSnapshotError)
    {
      ghost var w := View();
      var snapshot := snapshots[i];
      var limit := snapshot.restorer.snapshotId;
      var reverted := RestoreAt(i);
      if !reverted {
        return Failed(FixtureSnapshotError);
      }
      FilterSnapshots(limit);
      ReloadParts(w, i);
      outcome := Loaded(snapshot.data);
    }

    /** `snapshots = snapshots.filter(...)`. */
    method FilterSnapshots(limit: nat)
      requires Valid()
      modifies this
      ensures Valid() && Footprint(snapshots) <= old(Footprint(snapshots))
      ensures View() == World(node.View(), Prune(old(Entries(snapshots)), limit), old(retired) + Dropped(old(Entries(snapshots)), limit))
    {
      FilterIsPrune(snapshots, limit);
      FilterKeepsSeparate(snapshots, limit, node);
      retired := retired + Dropped(Entries(snapshots), limit);
      snapshots := Filter(snapshots, limit);
    }

    /** `snapshot.restorer.restore()`: the list keeps its elements, one of which moves on. */
    method RestoreAt(i: nat) returns (reverted: bool)
      requires Valid() && i < |snapshots|
      modifies node, Footprint(snapshots)
      ensures Valid() && reverted == old(Live(node.View(), snapshots[i].restorer.captured))
      ensures !reverted ==> View() == old(View())
      ensures reverted ==> node.View() == Take(Revert(old(node.View()), old(snapshots[i].restorer.captured)))
      ensures reverted ==> Entries(snapshots) == Moved(old(Entries(snapshots)), i, old(node.nextSnapshotId))
    {
      var restorer := snapshots[i].restorer;
      assert restorer in Footprint(snapshots);
      reverted := restorer.Restore();
      assert !reverted ==> Entries(snapshots) == old(Entries(snapshots));
    }

    method PushRestorer(f: Fixture, data: D)
      requires Valid()
      modifies this`snapshots, node
      ensures Valid() && fresh(Footprint(snapshots) - old(Footprint(snapshots)))
      ensures View() == Record(old(View()), f, data)
    {
      ghost var es := Entries(snapshots);
      var restorer := TakeSnapshot(node);
      assert Entries(snapshots) == es;
      snapshots := snapshots + [Snapshot(restorer, f, data)];
    }

    /** The body of a fixture: the first error ends it. */
    method RunBody(actions: seq<Action<S, D>>) returns (error: Option<Error>)
      requires Valid()
      modifies this, node, Footprint(snapshots)
      ensures Valid() && fresh(Footprint(snapshots) - old(Footprint(snapshots)))
      ensures (View(), error) == Body(old(View()), actions)
      decreases actions, 1
    {
      if actions == [] {
        return None;
      }
      error := Perform(actions[0]);
      if error == None {
        error := RunBody(actions[1..]);
      }
    }

    method Perform(a: Action<S, D>) returns (error: Option<Error>)
      requires Valid()
      modifies this, node, Footprint(snapshots)
      ensures Valid() && fresh(Footprint(snapshots) - old(Footprint(snapshots)))
      ensures (View(), error) == Step(old(View()), a)
      decreases a, 3
    {
      error := None;
      match a
      case Load(f, body, data) =>
        var outcome := LoadFixture(f, body, data);
        if outcome.Failed? {
          error := Some(outcome.error);
        }
      case _ => PerformOnNode(a);
    }

    method PerformOnNode(a: Action<S, D>)
      requires Valid() && !a.Load?
      modifies node, this`retired
      ensures Valid() && (View(), Option<Error>.None) == Step(old(View()), a)
    {
      ghost var es := Entries(snapshots);
      match a {
      case Transact(after) => node.state := after;
      case MineWithSnapshot(included, after) => node.MineTransactionAndPending(included, after);
      case TakeOwn => var _ := node.TakeSnapshot();
      case RevertOwn(id) => var _ := node.RevertToSnapshot(id);
      case Reset(genesis) =>
        node.Reset(genesis);
        retired := {};
      case Load(_, _, _) => assert false;
      }
      assert Entries(snapshots) == es;
    }
  }
}
