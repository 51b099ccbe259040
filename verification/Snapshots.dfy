/** The snapshot table of the Hardhat Network node (node.ts), as a value and as
    the object whose methods update it. */
module Snapshots {
  import opened Prelude

  datatype Snap<S> = Snap(id: nat, state: S)

  /** `_snapshots`, `_nextSnapshotId` and everything a snapshot saves and restores. */
  datatype NodeState<S> = NodeState(snaps: seq<Snap<S>>, nextId: nat, state: S)

  ghost predicate NodeOk<S>(n: NodeState<S>) {
    && (forall i, j :: 0 <= i < j < |n.snaps| ==> n.snaps[i].id < n.snaps[j].id)
    && (forall i :: 0 <= i < |n.snaps| ==> n.snaps[i].id < n.nextId)
  }

  ghost predicate At<S>(n: NodeState<S>, i: int, id: nat) {
    0 <= i < |n.snaps| && n.snaps[i].id == id
  }

  /** The node still holds the snapshot `id`. */
  ghost predicate Live<S>(n: NodeState<S>, id: nat) {
    exists i :: At(n, i, id)
  }

  /** Where the snapshot `id` is stored. */
  ghost function Index<S>(n: NodeState<S>, id: nat): (i: nat)
    requires Live(n, id)
    ensures At(n, i, id)
  {
    var i :| At(n, i, id); i
  }

  ghost function Saved<S>(n: NodeState<S>, id: nat): S
    requires Live(n, id)
  {
    n.snaps[Index(n, id)].state
  }

  ghost function Take<S>(n: NodeState<S>): NodeState<S> {
    NodeState(n.snaps + [Snap(n.nextId, n.state)], n.nextId + 1, n.state)
  }

  /** Reverting restores the saved state and forgets this snapshot and all later ones. */
  ghost function Revert<S>(n: NodeState<S>, id: nat): NodeState<S>
    requires Live(n, id)
  {
    NodeState(n.snaps[..Index(n, id)], n.nextId, Saved(n, id))
  }

  lemma TakeIsExact<S>(n: NodeState<S>)
    requires NodeOk(n)
    ensures NodeOk(Take(n)) && Live(Take(n), n.nextId) && Saved(Take(n), n.nextId) == n.state
    ensures forall id: nat :: Live(Take(n), id) <==> Live(n, id) || id == n.nextId
    ensures forall id: nat :: Live(n, id) ==> id < n.nextId && Saved(Take(n), id) == Saved(n, id)
  {
    var m := Take(n);
    assert At(m, |n.snaps|, n.nextId);
    forall id: nat | Live(n, id)
      ensures Live(m, id) && id < n.nextId && Saved(m, id) == Saved(n, id)
    {
      assert At(m, Index(n, id), id);
    }
    forall id: nat | Live(m, id)
      ensures Live(n, id) || id == n.nextId
    {
      assert Index(m, id) < |n.snaps| ==> At(n, Index(m, id), id);
    }
  }

  lemma RevertIsExact<S>(n: NodeState<S>, id: nat)
    requires NodeOk(n) && Live(n, id)
    ensures NodeOk(Revert(n, id))
    ensures forall k: nat :: Live(Revert(n, id), k) <==> Live(n, k) && k < id
    ensures forall k: nat :: Live(Revert(n, id), k) ==> Saved(Revert(n, id), k) == Saved(n, k)
  {
    var m := Revert(n, id);
    forall k: nat | Live(m, k)
      ensures Live(n, k) && k < id && Saved(m, k) == Saved(n, k)
    {
      assert At(n, Index(m, k), k);
    }
    forall k: nat | Live(n, k) && k < id
      ensures Live(m, k)
    {
      assert At(m, Index(n, k), k);
    }
  }

  class HardhatNode<S> {
    var snapshots: seq<Snap<S>>
    var nextSnapshotId: nat
    var state: S

    ghost function View(): NodeState<S>
      reads this
    {
      NodeState(snapshots, nextSnapshotId, state)
    }

    ghost predicate Valid()
      reads this
    {
      NodeOk(View())
    }

    constructor (genesis: S)
      ensures Valid() && View() == NodeState([], 1, genesis)
    {
      snapshots, nextSnapshotId, state := [], 1, genesis;
    }

    /** `hardhat_reset`: the provider makes a new node, which is this one to its
        clients.  Its table is empty and its ids start again. */
    method Reset(genesis: S)
      modifies this
      ensures Valid() && View() == NodeState([], 1, genesis)
    {
      snapshots, nextSnapshotId, state := [], 1, genesis;
    }

    method TakeSnapshot() returns (id: nat)
      requires Valid()
      modifies this
      ensures Valid() && View() == Take(old(View())) && id == old(nextSnapshotId)
    {
      TakeIsExact(View());
      id := nextSnapshotId;
      snapshots := snapshots + [Snap(id, state)];
      nextSnapshotId := nextSnapshotId + 1;
    }

    /** `_getSnapshotIndex` gives up at the first larger id. */
    method GetSnapshotIndex(id: nat) returns (index: Option<nat>)
      requires Valid()
      ensures index.Some? <==> Live(View(), id)
      ensures index.Some? ==> index.value == Index(View(), id)
    {
      var i := 0;
      while i < |snapshots|
        invariant 0 <= i <= |snapshots|
        invariant forall k :: 0 <= k < i ==> snapshots[k].id != id
      {
        if snapshots[i].id == id {
          assert At(View(), i, id);
          return Some(i);
        }
        if snapshots[i].id > id {
          return None;
        }
        i := i + 1;
      }
      index := None;
    }

    method RevertToSnapshot(id: nat) returns (reverted: bool)
      requires Valid()
      modifies this
      ensures Valid() && reverted == old(Live(View(), id))
      ensures View() == if reverted then Revert(old(View()), id) else old(View())
    {
      var index := GetSnapshotIndex(id);
      if index == None {
        return false;
      }
      RevertIsExact(View(), id);
      state := snapshots[index.value].state;
      snapshots := snapshots[..index.value];
      reverted := true;
    }

    method RemoveSnapshot(id: nat)
      requires Valid()
      modifies this`snapshots
      ensures Valid()
      ensures old(Live(View(), id)) ==> snapshots == old(snapshots[..Index(View(), id)])
      ensures !old(Live(View(), id)) ==> snapshots == old(snapshots)
    {
      var index := GetSnapshotIndex(id);
      if index.Some? {
        snapshots := snapshots[..index.value];
      }
    }

    /** `_mineTransactionAndPending`: a private snapshot guards the mining; it is
        reverted to on failure and dropped on success.  Either way only its id is used up. */
    method MineTransactionAndPending(included: bool, after: S)
      requires Valid()
      modifies this
      ensures Valid()
      ensures View() == NodeState(old(snapshots), old(nextSnapshotId) + 1, if included then after else old(state))
    {
      ghost var before := View();
      var id := TakeSnapshot();
      state := after;
      assert NodeOk(View()) && View().snaps == Take(before).snaps;
      JustTaken(View(), before);
      if included {
        RemoveSnapshot(id);
        assert snapshots == before.snaps;
      } else {
        var reverted := RevertToSnapshot(id);
        assert reverted && snapshots == before.snaps;
      }
    }
  }

  /** A snapshot just taken is the last one, whatever the state has become. */
  lemma JustTaken<S>(m: NodeState<S>, n: NodeState<S>)
    requires NodeOk(n) && NodeOk(m) && m.snaps == Take(n).snaps
    ensures Live(m, n.nextId) && Index(m, n.nextId) == |n.snaps|
    ensures m.snaps[..|n.snaps|] == n.snaps && m.snaps[|n.snaps|].state == n.state
  {
    assert At(m, |n.snaps|, n.nextId);
  }
}
