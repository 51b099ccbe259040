/** `HardhatEthersProvider` with its fields.  Each method is one stretch of code
    between two awaits; each does to the provider what a step of `PollingSpec`, or
    for the polls a run of such steps, does to its state. */
module EthersProvider {
  import opened Prelude
  import opened PollingSpec
  import opened BlockDelivery

  function ClearEach(s: State, ls: seq<nat>): State
    decreases |ls|
  {
    if ls == [] then s else ClearEach(ClearBlockListeners(s, Some(ls[0])), ls[1..])
  }

  function AnnounceTo(s: State, from: int, upTo: int): State
    decreases upTo - from
  {
    if from > upTo then s else AnnounceTo(ClearEach(s, OnceListeners(s.blocks)), from + 1, upTo)
  }

  function PollBlocksSpec(s: State, height: int): State {
    if height == Height(s) then s
    else
      var seen := s.(latest := Some(height));
      if height < Height(s) then seen else AnnounceTo(seen, Height(s) + 1, height)
  }

  // ----- a poll is a run of steps, and delivers what BlockDelivery says -----

  function Removals(ls: seq<nat>): seq<Action> {
    if ls == [] then [] else [ClearBlocks(Some(ls[0]))] + Removals(ls[1..])
  }

  function AnnounceActions(s: State, from: int, upTo: int): seq<Action>
    decreases upTo - from
  {
    if from > upTo then []
    else
      var ls := OnceListeners(s.blocks);
      Removals(ls) + AnnounceActions(ClearEach(s, ls), from + 1, upTo)
  }

  function PollActions(s: State, height: int): seq<Action> {
    if height == Height(s) then []
    else
      [PollSees(height)] +
      if height < Height(s) then [] else AnnounceActions(s.(latest := Some(height)), Height(s) + 1, height)
  }

  lemma {:induction false} RunAppend(s: State, a: seq<Action>, b: seq<Action>)
    ensures Run(s, a + b) == Run(Run(s, a), b)
    decreases |a|
  {
    if a == [] {
      assert a + b == b;
    } else {
      assert (a + b)[0] == a[0] && (a + b)[1..] == a[1..] + b;
      RunAppend(Step(s, a[0]), a[1..], b);
    }
  }

  ghost predicate OnlyRemoves(actions: seq<Action>) {
    forall a <- actions :: a.ClearBlocks? || a.PollSees?
  }

  lemma {:induction false} ClearEachIsRun(s: State, ls: seq<nat>)
    ensures Run(s, Removals(ls)) == ClearEach(s, ls) && OnlyRemoves(Removals(ls))
    decreases |ls|
  {
    if ls != [] {
      ClearEachIsRun(ClearBlockListeners(s, Some(ls[0])), ls[1..]);
      assert Removals(ls)[1..] == Removals(ls[1..]);
    }
  }

  lemma {:induction false} AnnounceIsRun(s: State, from: int, upTo: int)
    ensures Run(s, AnnounceActions(s, from, upTo)) == AnnounceTo(s, from, upTo)
    ensures OnlyRemoves(AnnounceActions(s, from, upTo))
    decreases upTo - from
  {
    if from <= upTo {
      var ls := OnceListeners(s.blocks);
      ClearEachIsRun(s, ls);
      AnnounceIsRun(ClearEach(s, ls), from + 1, upTo);
      RunAppend(s, Removals(ls), AnnounceActions(ClearEach(s, ls), from + 1, upTo));
    }
  }

  /** So polls inherit the safety of the step machine. */
  lemma PollIsRun(s: State, height: int)
    ensures Run(s, PollActions(s, height)) == PollBlocksSpec(s, height)
    ensures OnlyRemoves(PollActions(s, height))
  {
    var seen := s.(latest := Some(height));
    if height != Height(s) {
      assert PollActions(s, height)[1..] ==
             if height < Height(s) then [] else AnnounceActions(seen, Height(s) + 1, height);
      AnnounceIsRun(seen, Height(s) + 1, height);
    }
  }

  lemma {:induction false} ClearEachBlocks(s: State, ls: seq<nat>)
    ensures ClearEach(s, ls).blocks == RemoveEach(s.blocks, ls) && ClearEach(s, ls).latest == s.latest
    decreases |ls|
  {
    if ls != [] {
      ClearEachBlocks(ClearBlockListeners(s, Some(ls[0])), ls[1..]);
    }
  }

  lemma {:induction false} AnnounceMatchesDelivery(s: State, log: seq<Delivery>, from: int, upTo: int)
    ensures var v := DeliverRange(View(Height(s), s.blocks, log), from, upTo);
            AnnounceTo(s, from, upTo).blocks == v.items && AnnounceTo(s, from, upTo).latest == s.latest
    decreases upTo - from
  {
    if from <= upTo {
      var ls := OnceListeners(s.blocks);
      ClearEachBlocks(s, ls);
      AnnounceMatchesDelivery(ClearEach(s, ls), log + Announce(s.blocks, from), from + 1, upTo);
    }
  }

  /** The table and the last height after a poll are those `BlockDelivery` computes. */
  lemma PollMatchesDelivery(s: State, log: seq<Delivery>, height: int)
    ensures var v := Poll(View(Height(s), s.blocks, log), height);
            PollBlocksSpec(s, height).blocks == v.items && Height(PollBlocksSpec(s, height)) == v.latest
  {
    var seen := s.(latest := Some(height));
    AnnounceMatchesDelivery(seen, log, Height(s) + 1, height);
    DeliverRangeLatest(View(height, s.blocks, log), Height(s) + 1, height);
  }

  lemma {:induction false} DeliverRangeLatest(v: View, from: int, upTo: int)
    ensures DeliverRange(v, from, upTo).latest == v.latest
    decreases upTo - from
  {
    if from <= upTo {
      DeliverRangeLatest(View(v.latest, AfterBlock(v.items), v.log + Announce(v.items, from)), from + 1, upTo);
    }
  }

  // ----- transaction hashes -----

  function Listeners(items: seq<ListenerItem>): seq<nat> {
    seq(|items|, i requires 0 <= i < |items| => items[i].listener)
  }

  function TxRemovals(pairs: seq<(string, nat)>): seq<Action> {
    if pairs == [] then [] else [ClearTxs(Some(pairs[0].0), Some(pairs[0].1))] + TxRemovals(pairs[1..])
  }

  function PairsFor(hash: string, ls: seq<nat>): seq<(string, nat)> {
    seq(|ls|, i requires 0 <= i < |ls| => (hash, ls[i]))
  }

  function TableWith(txs: map<string, seq<ListenerItem>>, hash: string, items: seq<ListenerItem>): map<string, seq<ListenerItem>> {
    if items == [] then txs - {hash} else txs[hash := items]
  }

  function ItemsOf(txs: map<string, seq<ListenerItem>>, hash: string): seq<ListenerItem> {
    if hash in txs then txs[hash] else []
  }

  /** A receipt uses up what a block does: the list of its hash loses the `once`
      listeners one by one, and the hash goes with the last of them. */
  lemma {:induction false} TxRemovalsLeave(s: State, hash: string, ls: seq<nat>)
    requires hash in s.txs ==> s.txs[hash] != []
    ensures Run(s, TxRemovals(PairsFor(hash, ls))).txs == TableWith(s.txs, hash, RemoveEach(ItemsOf(s.txs, hash), ls))
    decreases |ls|
  {
    var items := ItemsOf(s.txs, hash);
    if ls == [] {
      assert s.txs == TableWith(s.txs, hash, items);
    } else {
      var t := Step(s, ClearTxs(Some(hash), Some(ls[0])));
      var rest := RemoveFirst(items, ls[0]);
      OneTxRemoval(s, hash, ls[0]);
      hide Run, Step, TableWith, ItemsOf, TxRemovals, PairsFor;
      FirstRemovalFor(s, hash, ls);
      TxRemovalsLeave(t, hash, ls[1..]);
      TableTwice(s.txs, hash, rest, RemoveEach(rest, ls[1..]));
    }
  }

  lemma OneTxRemoval(s: State, hash: string, l: nat)
    requires hash in s.txs ==> s.txs[hash] != []
    ensures var t, rest := Step(s, ClearTxs(Some(hash), Some(l))), RemoveFirst(ItemsOf(s.txs, hash), l);
            && t.txs == TableWith(s.txs, hash, rest) && ItemsOf(t.txs, hash) == rest
            && (hash in t.txs ==> t.txs[hash] != [])
  {
    RemovedFromTable(s.txs, hash, l);
    TableHolds(s.txs, hash, RemoveFirst(ItemsOf(s.txs, hash), l));
    hide TxsWithout, TableWith, RemoveFirst, ItemsOf;
  }

  lemma RemovedFromTable(txs: map<string, seq<ListenerItem>>, hash: string, l: nat)
    requires hash in txs ==> txs[hash] != []
    ensures TxsWithout(txs, Some(hash), Some(l)) == TableWith(txs, hash, RemoveFirst(ItemsOf(txs, hash), l))
  {
    hide RemoveFirst;
    if hash !in txs {
      assert RemoveFirst([], l) == [] by { RemoveFromNone(l); }
      assert txs - {hash} == txs;
    }
  }

  lemma RemoveFromNone(l: nat)
    ensures RemoveFirst([], l) == []
  {
  }

  lemma TableHolds(txs: map<string, seq<ListenerItem>>, hash: string, items: seq<ListenerItem>)
    ensures ItemsOf(TableWith(txs, hash, items), hash) == items
    ensures hash in TableWith(txs, hash, items) ==> TableWith(txs, hash, items)[hash] != []
  {
  }

  lemma FirstRemovalFor(s: State, hash: string, ls: seq<nat>)
    requires ls != []
    ensures Run(s, TxRemovals(PairsFor(hash, ls))) ==
            Run(Step(s, ClearTxs(Some(hash), Some(ls[0]))), TxRemovals(PairsFor(hash, ls[1..])))
  {
    var pairs := PairsFor(hash, ls);
    assert pairs[0..] == pairs && pairs[1..] == PairsFor(hash, ls[1..]);
    FirstRemoval(s, pairs, 0);
  }

  lemma TableTwice(txs: map<string, seq<ListenerItem>>, hash: string, first: seq<ListenerItem>, second: seq<ListenerItem>)
    ensures TableWith(TableWith(txs, hash, first), hash, second) == TableWith(txs, hash, second)
  {
  }

  lemma FirstRemoval(s: State, pairs: seq<(string, nat)>, i: nat)
    requires i < |pairs|
    ensures Run(s, TxRemovals(pairs[i..])) ==
            Run(Step(s, ClearTxs(Some(pairs[i].0), Some(pairs[i].1))), TxRemovals(pairs[i + 1..]))
  {
    hide Step;
    assert pairs[i..][0] == pairs[i] && pairs[i..][1..] == pairs[i + 1..];
    assert TxRemovals(pairs[i..])[1..] == TxRemovals(pairs[i + 1..]);
  }

  lemma NoRemoval(s: State, pairs: seq<(string, nat)>)
    requires pairs == []
    ensures Run(s, TxRemovals(pairs)) == s
  {
  }

  lemma {:induction false} RemoveFirstAt(items: seq<ListenerItem>, l: nat, i: nat)
    requires i <= |items| && forall k :: 0 <= k < i ==> items[k].listener != l
    requires i < |items| ==> items[i].listener == l
    ensures RemoveFirst(items, l) == if i < |items| then items[..i] + items[i + 1..] else items
  {
    if i > 0 {
      RemoveFirstAt(items[1..], l, i - 1);
      assert i < |items| ==> items[..i] == [items[0]] + items[1..][..i - 1];
    }
  }

  lemma {:induction false} CalledSnoc(items: seq<ListenerItem>, i: nat, block: int)
    requires i < |items|
    ensures Announce(items[..i + 1], block) == Announce(items[..i], block) + [Delivery(items[i].listener, block)]
    ensures OnceListeners(items[..i + 1]) ==
            OnceListeners(items[..i]) + if items[i].once then [items[i].listener] else []
  {
    if i == 0 {
      assert items[..1] == [items[0]] && items[..0] == [];
    } else {
      CalledSnoc(items[1..], i - 1, block);
      assert items[..i + 1][1..] == items[1..][..i] && items[..i][1..] == items[1..][..i - 1];
    }
  }

  class HardhatEthersProvider {
    var latestBlockNumberPolled: Option<int>
    var blockListeners: seq<ListenerItem>
    var transactionHashListeners: map<string, seq<ListenerItem>>
    var blockPollingInterval: Option<nat>
    var transactionHashPollingInterval: Option<nat>
    var isHardhatNetworkCached: Option<bool>
    // the event loop the provider runs in
    var timers: map<nat, Timer>
    var nextTimer: nat
    var starts: map<nat, Start>
    var nextCall: nat
    ghost var failed: set<nat>
    // calls of block listeners so far
    ghost var log: seq<Delivery>

    ghost function State(): State
      reads this
    {
      PollingSpec.State(latestBlockNumberPolled, blockListeners, transactionHashListeners, blockPollingInterval,
                        transactionHashPollingInterval, isHardhatNetworkCached, timers, nextTimer, starts, nextCall, failed)
    }

    constructor ()
      ensures State() == INITIAL && log == []
    {
      latestBlockNumberPolled, blockListeners, transactionHashListeners := None, [], map[];
      blockPollingInterval, transactionHashPollingInterval, isHardhatNetworkCached := None, None, None;
      timers, nextTimer, starts, nextCall, failed := map[], 0, map[], 0, {};
      log := [];
    }

    method StopBlockPolling()
      modifies this`blockPollingInterval, this`timers
      ensures State() == StopBlocks(old(State()))
    {
      if blockPollingInterval.Some? {
        timers := timers - {blockPollingInterval.value};
        blockPollingInterval := None;
      }
    }

    method StopTransactionHashPolling()
      modifies this`transactionHashPollingInterval, this`timers
      ensures State() == StopTxs(old(State()))
    {
      if transactionHashPollingInterval.Some? {
        timers := timers - {transactionHashPollingInterval.value};
        transactionHashPollingInterval := None;
      }
    }

    /** `findIndex` and `splice`. */
    method Splice(items: seq<ListenerItem>, l: nat) returns (rest: seq<ListenerItem>)
      ensures rest == RemoveFirst(items, l)
    {
      var i := 0;
      while i < |items| && items[i].listener != l
        invariant 0 <= i <= |items|
        invariant forall k :: 0 <= k < i ==> items[k].listener != l
      {
        i := i + 1;
      }
      RemoveFirstAt(items, l, i);
      rest := if i < |items| then items[..i] + items[i + 1..] else items;
    }

    method ClearBlocks(which: Option<nat>)
      modifies this`blockListeners, this`blockPollingInterval, this`timers
      ensures State() == Step(old(State()), Action.ClearBlocks(which))
    {
      if which.None? {
        blockListeners := [];
        StopBlockPolling();
      } else {
        blockListeners := Splice(blockListeners, which.value);
        if blockListeners == [] {
          StopBlockPolling();
        }
      }
    }

    method ClearTransactionHashes(hash: Option<string>, which: Option<nat>)
      modifies this`transactionHashListeners, this`transactionHashPollingInterval, this`timers
      ensures State() == Step(old(State()), ClearTxs(hash, which))
    {
      if hash.None? {
        transactionHashListeners := map[];
      } else if which.None? {
        transactionHashListeners := transactionHashListeners - {hash.value};
      } else if hash.value in transactionHashListeners {
        var items := Splice(transactionHashListeners[hash.value], which.value);
        if items == [] {
          transactionHashListeners := transactionHashListeners - {hash.value};
        } else {
          transactionHashListeners := transactionHashListeners[hash.value := items];
        }
      } else {
        assert transactionHashListeners - {hash.value} == transactionHashListeners;
      }
      if |transactionHashListeners| == 0 {
        StopTransactionHashPolling();
      }
    }

    /** The synchronous prefix of both start methods: `_isHardhatNetwork` up to its await. */
    method StartPolling(kind: Kind)
      modifies this`starts, this`nextCall, this`isHardhatNetworkCached
      ensures State() == BeginStart(old(State()), kind)
    {
      if isHardhatNetworkCached.None? {
        isHardhatNetworkCached := Some(false);
        starts := starts[nextCall := Start(kind, Asking)];
      } else {
        starts := starts[nextCall := Start(kind, Knows(isHardhatNetworkCached.value))];
      }
      nextCall := nextCall + 1;
    }

    method OnBlock(l: nat, once: bool)
      modifies this
      ensures State() == Step(old(State()), Action.OnBlock(l, once)) && log == old(log)
    {
      blockListeners := blockListeners + [ListenerItem(l, once, nextCall)];
      StartPolling(BlockKind);
    }

    method OnTransactionHash(hash: string, l: nat, once: bool)
      modifies this
      ensures State() == Step(old(State()), Action.OnTransactionHash(hash, l, once)) && log == old(log)
    {
      var items := if hash in transactionHashListeners then transactionHashListeners[hash] else [];
      transactionHashListeners := transactionHashListeners[hash := items + [ListenerItem(l, once, nextCall)]];
      StartPolling(TxKind);
    }

    /** The tail of both start methods: `setInterval` unless there is nothing to poll for. */
    method FinishStart(call: nat, hardhat: bool)
      requires call in starts
      modifies this
      ensures State() == Finish(old(State()), call, hardhat) && log == old(log)
    {
      var kind := starts[call].kind;
      var interval := if hardhat then 50 else 500;
      starts := starts - {call};
      if kind == BlockKind {
        if |blockListeners| == 0 {
          return;
        }
        if blockPollingInterval.None? {
          blockPollingInterval := Some(nextTimer);
          timers := timers[nextTimer := Timer(kind, interval)];
          nextTimer := nextTimer + 1;
        }
      } else {
        if |transactionHashListeners| == 0 {
          return;
        }
        if transactionHashPollingInterval.None? {
          transactionHashPollingInterval := Some(nextTimer);
          timers := timers[nextTimer := Timer(kind, interval)];
          nextTimer := nextTimer + 1;
        }
      }
    }

    /** Resuming after `await this._isHardhatNetwork()`; `answer` is whether
        `hardhat_metadata` succeeded, for the call that asked. */
    method ResumeAfterNetwork(call: nat, answer: bool)
      requires call in starts && (starts[call].stage == Asking || starts[call].stage.Knows?)
      modifies this
      ensures State() == Step(old(State()), NetworkAnswers(call, answer)) && log == old(log)
    {
      var hardhat: bool;
      match starts[call].stage {
        case Asking =>
          if answer {
            isHardhatNetworkCached := Some(true);
          }
          hardhat := isHardhatNetworkCached == Some(true);
        case Knows(h) => hardhat := h;
      }
      if starts[call].kind == BlockKind {
        starts := starts[call := Start(BlockKind, AwaitHeight(hardhat))];
      } else if hardhat {
        starts := starts[call := Start(TxKind, AwaitFirstPoll)];
      } else {
        FinishStart(call, false);
      }
    }

    /** `_startBlockPolling` after `await this.getBlockNumber()`. */
    method ResumeAfterHeight(call: nat, height: int)
      requires call in starts && starts[call].stage.AwaitHeight?
      modifies this
      ensures State() == Step(old(State()), HeightArrives(call, height)) && log == old(log)
    {
      latestBlockNumberPolled := Some(height);
      if starts[call].stage.hardhat {
        starts := starts[call := starts[call].(stage := AwaitFirstPoll)];
      } else {
        FinishStart(call, false);
      }
    }

    /** The same await when the request is rejected: the start call ends there. */
    method AbandonHeight(call: nat)
      requires call in starts && starts[call].stage.AwaitHeight?
      modifies this`starts, this`failed
      ensures State() == Step(old(State()), HeightFails(call))
    {
      starts := starts - {call};
      failed := failed + {call};
    }

    /** Both start methods after the first poll, which only the Hardhat network gets. */
    method ResumeAfterFirstPoll(call: nat)
      requires call in starts && starts[call].stage == AwaitFirstPoll
      modifies this
      ensures State() == Step(old(State()), FirstPollEnds(call)) && log == old(log)
    {
      FinishStart(call, true);
    }

    /** `_pollBlocks` after `await this.getBlockNumber()`, with listeners that do
        not call the provider back. */
    method PollBlocks(currentBlockNumber: int)
      modifies this
      ensures State() == PollBlocksSpec(old(State()), currentBlockNumber)
      ensures log == Poll(View(Height(old(State())), old(blockListeners), old(log)), currentBlockNumber).log
    {
      var previousBlockNumber := if latestBlockNumberPolled.Some? then latestBlockNumberPolled.value else 0;
      if currentBlockNumber == previousBlockNumber {
        return;
      } else if currentBlockNumber < previousBlockNumber {
        latestBlockNumberPolled := Some(currentBlockNumber);
        return;
      }
      latestBlockNumberPolled := Some(currentBlockNumber);
      ghost var seen := State();
      var blockNumber := previousBlockNumber + 1;
      while blockNumber <= currentBlockNumber
        invariant blockNumber <= currentBlockNumber + 1
        invariant AnnounceTo(State(), blockNumber, currentBlockNumber)
               == AnnounceTo(seen, previousBlockNumber + 1, currentBlockNumber)
        invariant DeliverRange(View(currentBlockNumber, blockListeners, log), blockNumber, currentBlockNumber).log
               == DeliverRange(View(currentBlockNumber, seen.blocks, old(log)), previousBlockNumber + 1, currentBlockNumber).log
      {
        AnnounceBlock(blockNumber);
        blockNumber := blockNumber + 1;
      }
    }

    /** The body of the loop over block numbers, also `_emitBlock`. */
    method AnnounceBlock(blockNumber: int)
      modifies this
      ensures State() == ClearEach(old(State()), OnceListeners(old(blockListeners)))
      ensures blockListeners == AfterBlock(old(blockListeners))
      ensures log == old(log) + Announce(old(blockListeners), blockNumber)
    {
      var listenersToRemove := CallListeners(blockNumber);
      RemoveListeners(listenersToRemove);
    }

    method CallListeners(blockNumber: int) returns (listenersToRemove: seq<nat>)
      modifies this`log
      ensures listenersToRemove == OnceListeners(blockListeners)
      ensures log == old(log) + Announce(blockListeners, blockNumber)
    {
      listenersToRemove := [];
      var i := 0;
      assert blockListeners[..0] == [];
      while i < |blockListeners|
        invariant 0 <= i <= |blockListeners|
        invariant listenersToRemove == OnceListeners(blockListeners[..i])
        invariant log == old(log) + Announce(blockListeners[..i], blockNumber)
      {
        CalledSnoc(blockListeners, i, blockNumber);
        log := log + [Delivery(blockListeners[i].listener, blockNumber)];
        if blockListeners[i].once {
          listenersToRemove := listenersToRemove + [blockListeners[i].listener];
        }
        i := i + 1;
      }
      assert blockListeners[..i] == blockListeners;
    }

    method RemoveListeners(listenersToRemove: seq<nat>)
      modifies this`blockListeners, this`blockPollingInterval, this`timers
      ensures State() == ClearEach(old(State()), listenersToRemove)
      ensures blockListeners == RemoveEach(old(blockListeners), listenersToRemove)
    {
      ClearEachBlocks(State(), listenersToRemove);
      var i := 0;
      assert listenersToRemove[0..] == listenersToRemove;
      while i < |listenersToRemove|
        invariant 0 <= i <= |listenersToRemove|
        invariant ClearEach(State(), listenersToRemove[i..]) == ClearEach(old(State()), listenersToRemove)
      {
        assert listenersToRemove[i..][1..] == listenersToRemove[i + 1..];
        ClearBlocks(Some(listenersToRemove[i]));
        i := i + 1;
      }
    }

    /** The removals that end a poll for receipts, and `_emitTransactionHash`. */
    method RemoveTransactionHashListeners(listenersToRemove: seq<(string, nat)>)
      modifies this`transactionHashListeners, this`transactionHashPollingInterval, this`timers
      ensures State() == Run(old(State()), TxRemovals(listenersToRemove))
    {
      var i := 0;
      assert listenersToRemove[0..] == listenersToRemove;
      while i < |listenersToRemove|
        invariant 0 <= i <= |listenersToRemove|
        invariant Run(State(), TxRemovals(listenersToRemove[i..])) == Run(old(State()), TxRemovals(listenersToRemove))
      {
        var (hash, l) := listenersToRemove[i];
        FirstRemoval(State(), listenersToRemove, i);
        hide Run, Step, TxRemovals;
        ClearTransactionHashes(Some(hash), Some(l));
        i := i + 1;
      }
      NoRemoval(State(), listenersToRemove[i..]);
    }

    /** `_emitTransactionHash`: every listener of the hash is called, in order; a
        `once` listener is removed by its function. */
    method EmitTransactionHash(hash: string) returns (emitted: bool, called: seq<nat>)
      requires TablesMatchTimers(State())
      modifies this`transactionHashListeners, this`transactionHashPollingInterval, this`timers
      ensures emitted <==> hash in old(transactionHashListeners)
      ensures called == Listeners(ItemsOf(old(transactionHashListeners), hash))
      ensures State() == Run(old(State()), TxRemovals(PairsFor(hash, OnceListeners(ItemsOf(old(transactionHashListeners), hash)))))
      ensures transactionHashListeners ==
              TableWith(old(transactionHashListeners), hash, AfterBlock(ItemsOf(old(transactionHashListeners), hash)))
    {
      called := [];
      emitted := hash in transactionHashListeners;
      ghost var items := ItemsOf(transactionHashListeners, hash);
      TxRemovalsLeave(State(), hash, OnceListeners(items));
      hide Run, Step, TableWith, TablesMatchTimers;
      if !emitted {
        NoRemoval(State(), PairsFor(hash, OnceListeners(items)));
        return;
      }
      var listeners := transactionHashListeners[hash];
      var listenersToRemove: seq<nat> := [];
      var i := 0;
      assert listeners[..0] == [];
      while i < |listeners|
        invariant 0 <= i <= |listeners|
        invariant State() == old(State())
        invariant called == Listeners(listeners[..i])
        invariant listenersToRemove == OnceListeners(listeners[..i])
      {
        CalledSnoc(listeners, i, 0);
        assert Listeners(listeners[..i + 1]) == Listeners(listeners[..i]) + [listeners[i].listener];
        hide Listeners, OnceListeners;
        called := called + [listeners[i].listener];
        if listeners[i].once {
          listenersToRemove := listenersToRemove + [listeners[i].listener];
        }
        i := i + 1;
      }
      assert listeners[..i] == listeners;
      RemoveTransactionHashListeners(PairsFor(hash, listenersToRemove));
    }

    method RemoveAllListeners()
      modifies this
      ensures State() == RemoveAll(old(State())) && log == old(log)
    {
      ClearBlocks(None);
      ClearTransactionHashes(None, None);
    }
  }
}
