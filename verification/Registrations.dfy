/** What becomes of a registration over whole runs of the provider: it stays, in its
    place, until it is cleared, and what it hears begins with the height its own start
    call was told. */
module RegistrationRuns {
  import opened Prelude
  import opened PollingSpec
  import opened BlockDelivery
  import opened EthersProvider

  // ----- the block table -----

  /** The registrations that the actions make, `call` being the number of the first
      call of `on` or `once` among them. */
  function Made(actions: seq<Action>, call: nat): seq<ListenerItem> {
    if actions == [] then []
    else
      match actions[0]
      case OnBlock(l, once) => [ListenerItem(l, once, call)] + Made(actions[1..], call + 1)
      case OnTransactionHash(_, _, _) => Made(actions[1..], call + 1)
      case _ => Made(actions[1..], call)
  }

  predicate ClearsBlocksOf(a: Action, l: nat) {
    a.ClearBlocks? && (a.which.None? || a.which.value == l)
  }

  /** Any number of steps, none of which clears block listeners, keep every block
      registration and their order, and add those they make at the end. */
  lemma {:induction false} BlocksGrow(s: State, actions: seq<Action>)
    requires forall a <- actions :: !a.ClearBlocks?
    ensures Run(s, actions).blocks == s.blocks + Made(actions, s.nextCall)
    decreases |actions|
  {
    if actions == [] {
      assert s.blocks + [] == s.blocks;
    } else {
      var t := Step(s, actions[0]);
      OneStep(s, actions[0]);
      BlocksGrow(t, actions[1..]);
      hide Step, Run;
      Associate(s.blocks, Made([actions[0]], s.nextCall), Made(actions[1..], t.nextCall));
      MadeFirst(actions, s.nextCall);
    }
  }

  lemma MadeFirst(actions: seq<Action>, call: nat)
    requires actions != []
    ensures Made(actions, call) ==
            Made([actions[0]], call) + Made(actions[1..], call + if Registers(actions[0]) then 1 else 0)
  {
    assert [actions[0]][1..] == [];
    assert [] + Made(actions[1..], call) == Made(actions[1..], call);
    assert [] + Made(actions[1..], call + 1) == Made(actions[1..], call + 1);
  }

  lemma OneStep(s: State, a: Action)
    ensures Step(s, a).nextCall == s.nextCall + if Registers(a) then 1 else 0
    ensures !a.ClearBlocks? ==> Step(s, a).blocks == s.blocks + Made([a], s.nextCall)
  {
    assert [a][1..] == [] && s.blocks + [] == s.blocks;
    if Registers(a) {
      RegistrationAdds(s, a);
    } else {
      NoNewCall(s, a);
      if !a.ClearBlocks? {
        hide Step;
        StepKeepsBlocks(s, a);
      }
    }
  }

  lemma RegistrationAdds(s: State, a: Action)
    requires Registers(a)
    ensures var t := Step(s, a);
            && t.nextCall == s.nextCall + 1
            && t.blocks == s.blocks + if a.OnBlock? then [ListenerItem(a.listener, a.once, s.nextCall)] else []
  {
  }

  lemma NoNewCall(s: State, a: Action)
    requires !Registers(a)
    ensures Step(s, a).nextCall == s.nextCall
  {
    hide Finish, AfterNetwork, TxsWithout, RemoveFirst;
  }

  /** Clearing other listeners does not matter either: the registrations of `l` are
      those it had and those made, in order, until they are cleared. */
  lemma {:induction false} OwnBlocksGrow(s: State, actions: seq<Action>, l: nat)
    requires forall a <- actions :: !ClearsBlocksOf(a, l)
    ensures For(Run(s, actions).blocks, l) == For(s.blocks, l) + For(Made(actions, s.nextCall), l)
    decreases |actions|
  {
    if actions == [] {
      assert For(s.blocks, l) + [] == For(s.blocks, l);
    } else {
      var a, t := actions[0], Step(s, actions[0]);
      OneStep(s, a);
      OwnBlocksGrow(t, actions[1..], l);
      OwnBlocksStep(s, a, l);
      MadeFirst(actions, s.nextCall);
      hide Step, Run, Made, For;
      ForAppend(Made([a], s.nextCall), Made(actions[1..], t.nextCall), l);
      Associate(For(s.blocks, l), For(Made([a], s.nextCall), l), For(Made(actions[1..], t.nextCall), l));
    }
  }

  lemma {:induction false} ForAppend(x: seq<ListenerItem>, y: seq<ListenerItem>, l: nat)
    ensures For(x + y, l) == For(x, l) + For(y, l)
  {
    if x == [] {
      assert x + y == y;
    } else {
      assert (x + y)[1..] == x[1..] + y;
      ForAppend(x[1..], y, l);
    }
  }

  lemma OwnBlocksStep(s: State, a: Action, l: nat)
    requires !ClearsBlocksOf(a, l)
    ensures For(Step(s, a).blocks, l) == For(s.blocks, l) + For(Made([a], s.nextCall), l)
  {
    OneStep(s, a);
    ForAppend(s.blocks, Made([a], s.nextCall), l);
    if a.ClearBlocks? {
      ClearedBlocks(s, a.which.value);
      ForRemoved(s.blocks, a.which.value, l);
      ForComesFrom(s.blocks, l);
      RemoveAbsent(For(s.blocks, l), a.which.value);
      assert Made([a], s.nextCall) == [] && For(s.blocks, l) + [] == For(s.blocks, l);
    }
  }

  lemma ClearedBlocks(s: State, l: nat)
    ensures Step(s, ClearBlocks(Some(l))).blocks == RemoveFirst(s.blocks, l)
  {
  }

  // ----- the tables of transaction hashes -----

  /** The registrations the actions make for one hash. */
  function MadeFor(hash: string, actions: seq<Action>, call: nat): seq<ListenerItem> {
    if actions == [] then []
    else
      match actions[0]
      case OnTransactionHash(h, l, once) =>
        (if h == hash then [ListenerItem(l, once, call)] else []) + MadeFor(hash, actions[1..], call + 1)
      case OnBlock(_, _) => MadeFor(hash, actions[1..], call + 1)
      case _ => MadeFor(hash, actions[1..], call)
  }

  predicate ClearsHash(a: Action, hash: string) {
    a.ClearTxs? && (a.hashes.None? || a.hashes.value == hash)
  }

  /** Whatever happens to other hashes and to blocks, the list of a hash is what it was
      and what was registered for it, in order, until it is cleared. */
  lemma {:induction false} HashGrows(s: State, actions: seq<Action>, hash: string)
    requires forall a <- actions :: !ClearsHash(a, hash)
    ensures ItemsOf(Run(s, actions).txs, hash) == ItemsOf(s.txs, hash) + MadeFor(hash, actions, s.nextCall)
    decreases |actions|
  {
    if actions == [] {
      NothingGrows(s, hash);
    } else {
      hide *;
      var a, t := actions[0], Step(s, actions[0]);
      OneStep(s, a);
      RunFirst(s, actions);
      assert forall b <- actions[1..] :: b in actions;
      HashGrows(t, actions[1..], hash);
      HashStep(s, a, hash);
      MadeForFirst(hash, actions, s.nextCall);
      Associate(ItemsOf(s.txs, hash), MadeFor(hash, [a], s.nextCall), MadeFor(hash, actions[1..], t.nextCall));
    }
  }

  lemma NothingGrows(s: State, hash: string)
    ensures ItemsOf(Run(s, []).txs, hash) == ItemsOf(s.txs, hash) + MadeFor(hash, [], s.nextCall)
  {
    assert ItemsOf(s.txs, hash) + [] == ItemsOf(s.txs, hash);
  }

  lemma RunFirst(s: State, actions: seq<Action>)
    requires actions != []
    ensures Run(s, actions) == Run(Step(s, actions[0]), actions[1..])
  {
  }

  lemma MadeForFirst(hash: string, actions: seq<Action>, call: nat)
    requires actions != []
    ensures MadeFor(hash, actions, call) ==
            MadeFor(hash, [actions[0]], call) + MadeFor(hash, actions[1..], call + if Registers(actions[0]) then 1 else 0)
  {
    assert [actions[0]][1..] == [];
    var first := if actions[0].OnTransactionHash? && actions[0].hash == hash
                 then [ListenerItem(actions[0].listener, actions[0].once, call)] else [];
    assert MadeFor(hash, [actions[0]], call) == first;
    assert [] + MadeFor(hash, actions[1..], call) == MadeFor(hash, actions[1..], call);
    assert [] + MadeFor(hash, actions[1..], call + 1) == MadeFor(hash, actions[1..], call + 1);
  }

  lemma HashStep(s: State, a: Action, hash: string)
    requires !ClearsHash(a, hash)
    ensures ItemsOf(Step(s, a).txs, hash) == ItemsOf(s.txs, hash) + MadeFor(hash, [a], s.nextCall)
  {
    assert [a][1..] == [];
    assert ItemsOf(s.txs, hash) + [] == ItemsOf(s.txs, hash);
    if a.OnTransactionHash? {
      HashAdds(s, a.hash, a.listener, a.once, hash);
    } else if a.ClearTxs? {
      OtherHashCleared(s, a.hashes.value, a.which, hash);
    } else {
      OtherStepsKeepHashes(s, a);
    }
  }

  lemma HashAdds(s: State, h: string, l: nat, once: bool, hash: string)
    ensures ItemsOf(Step(s, OnTransactionHash(h, l, once)).txs, hash) ==
            ItemsOf(s.txs, hash) + if h == hash then [ListenerItem(l, once, s.nextCall)] else []
  {
    assert ItemsOf(s.txs, hash) + [] == ItemsOf(s.txs, hash);
  }

  lemma OtherHashCleared(s: State, h: string, which: Option<nat>, hash: string)
    requires h != hash
    ensures ItemsOf(Step(s, ClearTxs(Some(h), which)).txs, hash) == ItemsOf(s.txs, hash)
  {
    OneHashCleared(s.txs, h, which, hash);
    hide TxsWithout, ItemsOf;
  }

  lemma OtherStepsKeepHashes(s: State, a: Action)
    requires !a.OnTransactionHash? && !a.ClearTxs?
    ensures Step(s, a).txs == s.txs
  {
    if !a.OnBlock? && !a.ClearBlocks? {
      OthersKeepTables(s, a);
    }
  }

  /** Clearing takes from the list of its hash the first registration of the function,
      or all of them, and from no other hash; `off()` for all takes everything. */
  lemma ClearedHash(s: State, h: string, which: Option<nat>, hash: string)
    ensures ItemsOf(Step(s, ClearTxs(Some(h), which)).txs, hash) ==
            if h != hash then ItemsOf(s.txs, hash)
            else if which.None? then [] else RemoveFirst(ItemsOf(s.txs, hash), which.value)
    ensures ItemsOf(Step(s, ClearTxs(None, which)).txs, hash) == []
  {
    OneHashCleared(s.txs, h, which, hash);
    hide TxsWithout, ItemsOf;
    assert forall o :: Step(s, ClearTxs(o, which)).txs == TxsWithout(s.txs, o, which);
    assert TxsWithout(s.txs, None, which) == map[] by { AllHashesCleared(s.txs, which); }
    assert ItemsOf(map[], hash) == [] by { NoItems(hash); }
  }

  lemma AllHashesCleared(txs: map<string, seq<ListenerItem>>, which: Option<nat>)
    ensures TxsWithout(txs, None, which) == map[]
  {
  }

  lemma NoItems(hash: string)
    ensures ItemsOf(map[], hash) == []
  {
  }

  lemma OneHashCleared(txs: map<string, seq<ListenerItem>>, h: string, which: Option<nat>, hash: string)
    ensures ItemsOf(TxsWithout(txs, Some(h), which), hash) ==
            if h != hash then ItemsOf(txs, hash)
            else if which.None? then [] else RemoveFirst(ItemsOf(txs, hash), which.value)
  {
    if which.Some? {
      RemoveFromNone(which.value);
    }
    hide RemoveFirst;
  }

  /** And the same for the block table. */
  lemma ClearedBlockTable(s: State, which: Option<nat>)
    ensures Step(s, ClearBlocks(which)).blocks == if which.None? then [] else RemoveFirst(s.blocks, which.value)
    ensures Step(s, ClearBlocks(which)).txs == s.txs
  {
    hide RemoveFirst;
  }

  // ----- what a fresh registration hears -----

  lemma {:induction false} ForIsOnly(items: seq<ListenerItem>, l: nat)
    requires |For(items, l)| == 1
    ensures exists k :: Only(items, k, l) && For(items, l) == [items[k]]
  {
    if items[0].listener == l {
      assert For(items[1..], l) == [];
      NoneFor(items[1..], l);
      assert forall i :: 0 < i < |items| ==> items[i] == items[1..][i - 1];
      assert Only(items, 0, l);
    } else {
      ForIsOnly(items[1..], l);
      var k :| Only(items[1..], k, l) && For(items[1..], l) == [items[1..][k]];
      assert forall i :: 0 < i < |items| ==> items[i] == items[1..][i - 1];
      assert Only(items, k + 1, l);
    }
  }

  lemma {:induction false} NoneFor(items: seq<ListenerItem>, l: nat)
    requires For(items, l) == []
    ensures forall i :: 0 <= i < |items| ==> items[i].listener != l
  {
    if items != [] {
      NoneFor(items[1..], l);
      assert forall i :: 0 < i < |items| ==> items[i] == items[1..][i - 1];
    }
  }

  predicate RegistersFor(a: Action, l: nat) {
    a.OnBlock? && a.listener == l
  }

  lemma {:induction false} NoneMade(actions: seq<Action>, call: nat, l: nat)
    requires forall a <- actions :: !RegistersFor(a, l)
    ensures For(Made(actions, call), l) == []
    decreases |actions|
  {
    if actions != [] {
      assert actions[0] in actions;
      var next := call + if Registers(actions[0]) then 1 else 0;
      NoneMade(actions[1..], next, l);
      MadeFirst(actions, call);
      assert [actions[0]][1..] == [];
      ForAppend(Made([actions[0]], call), Made(actions[1..], next), l);
    }
  }

  /** A function registered with `on` or `once`, and neither registered again nor cleared
      by what follows, is in the table once, with its flag. */
  lemma StaysRegistered(s: State, l: nat, once: bool, after: seq<Action>)
    requires For(s.blocks, l) == [] && forall a <- after :: !ClearsBlocksOf(a, l) && !RegistersFor(a, l)
    ensures var t := Run(Step(s, OnBlock(l, once)), after);
            exists k :: 0 <= k < |t.blocks| && Only(t.blocks, k, l) && t.blocks[k] == ListenerItem(l, once, s.nextCall)
  {
    var item := ListenerItem(l, once, s.nextCall);
    var begun := Step(s, OnBlock(l, once));
    assert begun.blocks == s.blocks + [item];
    ForAppend(s.blocks, [item], l);
    assert [item][1..] == [] && [] + [item] == [item] && [item] + [] == [item];
    OwnBlocksGrow(begun, after, l);
    NoneMade(after, begun.nextCall, l);
    assert For([item], l) == [item];
    hide Step, Run, For, Made;
    ForIsOnly(Run(begun, after).blocks, l);
  }

  /** The height that a start call was told is the last height seen, from which polls
      count, until a poll or another start call learns of another. */
  lemma HeightIsSeen(s: State, call: nat, height: int)
    requires call in s.starts && s.starts[call].stage.AwaitHeight?
    ensures Height(Step(s, HeightArrives(call, height))) == height
    ensures Step(s, HeightArrives(call, height)).blocks == s.blocks
  {
    hide Finish;
    var hardhat := s.starts[call].stage.hardhat;
    var seen := s.(latest := Some(height));
    if !hardhat {
      FinishKeepsHeight(seen, call, false);
    }
  }

  lemma FinishKeepsHeight(s: State, call: nat, hardhat: bool)
    requires call in s.starts
    ensures Finish(s, call, hardhat).latest == s.latest
  {
  }

  predicate LearnsHeight(a: Action) {
    a.HeightArrives? || a.PollSees?
  }

  lemma OthersKeepHeight(s: State, a: Action)
    requires !LearnsHeight(a)
    ensures Step(s, a).latest == s.latest
  {
    match a {
      case NetworkAnswers(call, isHardhat) => NetworkKeepsHeight(s, call, isHardhat);
      case FirstPollEnds(call) => if call in s.starts { FinishKeepsHeight(s, call, true); }
      case ClearTxs(hashes, which) => hide TxsWithout;
      case ClearBlocks(which) => hide RemoveFirst;
      case HeightFails(_) =>
      case OnBlock(_, _) =>
      case OnTransactionHash(_, _, _) =>
    }
  }

  lemma NetworkKeepsHeight(s: State, call: nat, isHardhat: bool)
    ensures Step(s, NetworkAnswers(call, isHardhat)).latest == s.latest
  {
    if call in s.starts {
      FinishKeepsHeight(s, call, false);
      FinishKeepsHeight(if isHardhat then s.(hardhat := Some(true)) else s, call, false);
    }
    hide Finish;
  }

  lemma {:induction false} HeightStays(s: State, actions: seq<Action>)
    requires forall a <- actions :: !LearnsHeight(a)
    ensures Run(s, actions).latest == s.latest
    decreases |actions|
  {
    if actions != [] {
      OthersKeepHeight(s, actions[0]);
      HeightStays(Step(s, actions[0]), actions[1..]);
    }
  }

  ghost predicate LeavesAlone(a: Action, l: nat) {
    !ClearsBlocksOf(a, l) && !RegistersFor(a, l)
  }

  /** After any history: a function that is not registered yet is given to `on` or
      `once`; its own start call `c` learns of the height `h`.  From the polls at rising
      heights that follow it receives h + 1 and on, unless it is cleared or registered
      again in between; with `once`, only h + 1. */
  lemma FreshListenerHears(
    before: seq<Action>, l: nat, once: bool, waiting: seq<Action>, h: int, after: seq<Action>, log: seq<Delivery>, heights: seq<int>)
    requires For(Run(INITIAL, before).blocks, l) == []
    requires forall a <- waiting + after :: LeavesAlone(a, l)
    requires forall a <- after :: !LearnsHeight(a)
    requires heights != [] && Rising(h, heights)
    requires var c := Run(INITIAL, before).nextCall;
             var s := Run(Step(Run(INITIAL, before), OnBlock(l, once)), waiting);
             c in s.starts && s.starts[c].stage.AwaitHeight?
    ensures var c := Run(INITIAL, before).nextCall;
            var s := Run(Step(Run(INITIAL, before), OnBlock(l, once)), waiting);
            var t := Run(Step(s, HeightArrives(c, h)), after);
            var last := heights[|heights| - 1];
            Received(Polls(View(Height(t), t.blocks, log), heights).log, l) ==
            Received(log, l) + if once && h < last then [h + 1] else Range(h + 1, last)
  {
    var s0 := Run(INITIAL, before);
    var c, begun := s0.nextCall, Step(s0, OnBlock(l, once));
    var s := Run(begun, waiting);
    var arrival := HeightArrives(c, h);
    var told := Step(s, arrival);
    var t := Run(told, after);
    hide *;
    HeightIsSeen(s, c, h);
    HeightStays(told, after);
    SameHeight(told, t);
    RunThrough(begun, waiting, arrival, after);
    AllLeaveAlone(waiting, arrival, after, l);
    StaysRegistered(s0, l, once, waiting + ([arrival] + after));
    var k :| 0 <= k < |t.blocks| && Only(t.blocks, k, l) && t.blocks[k] == ListenerItem(l, once, c);
    PollsReach(Height(t), t.blocks, log, heights, k, l);
  }

  lemma SameHeight(s: State, t: State)
    requires s.latest == t.latest
    ensures Height(s) == Height(t)
  {
  }

  lemma RunThrough(s: State, first: seq<Action>, a: Action, rest: seq<Action>)
    ensures Run(s, first + ([a] + rest)) == Run(Step(Run(s, first), a), rest)
  {
    RunAppend(s, first, [a] + rest);
    assert ([a] + rest)[1..] == rest;
  }

  lemma AllLeaveAlone(waiting: seq<Action>, arrival: Action, after: seq<Action>, l: nat)
    requires (forall a <- waiting + after :: LeavesAlone(a, l)) && arrival.HeightArrives?
    ensures forall a <- waiting + ([arrival] + after) :: !ClearsBlocksOf(a, l) && !RegistersFor(a, l)
  {
    forall a | a in waiting + ([arrival] + after)
      ensures LeavesAlone(a, l)
    {
      assert a in waiting + after || a == arrival;
    }
  }

  // ----- how often a started poll comes -----

  /** What the call of `on` knows about the network once it is answered: only the first
      call asks; a later one takes what is cached, `false` until the answer arrives. */
  function Told(s: State, isHardhat: bool): bool {
    if s.hardhat.None? then isHardhat else s.hardhat.value
  }

  lemma Unrolled(s: State, a: Action, rest: seq<Action>)
    ensures Run(s, [a] + rest) == Run(Step(s, a), rest)
    ensures Run(s, []) == s
  {
    assert ([a] + rest)[1..] == rest;
  }

  lemma Unrolled3(s: State, a: Action, b: Action, c: Action, rest: seq<Action>)
    ensures Run(s, [a, b, c] + rest) == Run(Step(Step(Step(s, a), b), c), rest)
  {
    hide *;
    assert [a, b, c] + rest == [a] + ([b] + ([c] + rest));
    Unrolled(s, a, [b] + ([c] + rest));
    Unrolled(Step(s, a), b, [c] + rest);
    Unrolled(Step(Step(s, a), b), c, rest);
  }

  lemma BlockBegins(s: State, l: nat, once: bool)
    ensures var t := Step(s, OnBlock(l, once));
            && t.starts == s.starts[s.nextCall := Start(BlockKind, if s.hardhat.None? then Asking else Knows(s.hardhat.value))]
            && t.hardhat == Some(Told(s, false)) && t.blockTimer == s.blockTimer
            && t.blocks == s.blocks + [ListenerItem(l, once, s.nextCall)] && t.txs == s.txs
  {
  }

  lemma BlockIsAnswered(s: State, c: nat, isHardhat: bool, hardhat: bool)
    requires c in s.starts && s.starts[c].kind == BlockKind && s.hardhat.Some?
    requires s.starts[c].stage == Knows(hardhat) || (s.starts[c].stage == Asking && hardhat == (isHardhat || s.hardhat.value))
    ensures var t := Step(s, NetworkAnswers(c, isHardhat));
            && t.starts == s.starts[c := Start(BlockKind, AwaitHeight(hardhat))]
            && t.hardhat == (if s.starts[c].stage == Asking && isHardhat then Some(true) else s.hardhat)
            && t.blockTimer == s.blockTimer && t.blocks == s.blocks && t.txs == s.txs
            && t.timers == s.timers && t.nextTimer == s.nextTimer
  {
    hide Finish;
  }

  lemma BlockFinishes(s: State, c: nat, hardhat: bool)
    requires c in s.starts && s.starts[c].kind == BlockKind && s.blocks != [] && s.blockTimer.None?
    ensures var t := Finish(s, c, hardhat);
            && t.blockTimer == Some(s.nextTimer)
            && t.timers == s.timers[s.nextTimer := Timer(BlockKind, if hardhat then 50 else 500)]
            && t.latest == s.latest && t.hardhat == s.hardhat
  {
  }

  /** From the answer on: the height, and on a Hardhat network the first poll. */
  lemma BlockIsPolled(s: State, c: nat, hardhat: bool, height: int)
    requires c in s.starts && s.starts[c] == Start(BlockKind, AwaitHeight(hardhat)) && s.blocks != [] && s.blockTimer.None?
    ensures var t := if hardhat then Step(Step(s, HeightArrives(c, height)), FirstPollEnds(c)) else Step(s, HeightArrives(c, height));
            && t.blocks == s.blocks && t.txs == s.txs && t.latest == Some(height) && t.hardhat == s.hardhat && c !in t.starts
            && t.starts == s.starts - {c}
            && t.blockTimer == Some(s.nextTimer)
            && t.timers == s.timers[s.nextTimer := Timer(BlockKind, if hardhat then 50 else 500)]
  {
    var seen := s.(latest := Some(height));
    if hardhat {
      var moved := Move(seen, c, AwaitFirstPoll);
      assert Step(s, HeightArrives(c, height)) == moved;
      assert Step(moved, FirstPollEnds(c)) == Finish(moved, c, true);
      BlockFinishes(moved, c, true);
      assert moved.starts - {c} == s.starts - {c};
    } else {
      assert Step(s, HeightArrives(c, height)) == Finish(seen, c, false);
      BlockFinishes(seen, c, false);
    }
    hide Finish, Step;
  }

  /** A block registration whose start call runs through, with no timer yet: the height
      seen is the one it was told, and a timer polls every 50 milliseconds on a Hardhat
      network, every 500 on any other. */
  lemma BlockStartRuns(s: State, l: nat, once: bool, isHardhat: bool, height: int)
    requires s.blockTimer.None?
    ensures var c, hardhat := s.nextCall, Told(s, isHardhat);
            var t := Run(s, [OnBlock(l, once), NetworkAnswers(c, isHardhat), HeightArrives(c, height)] +
                            if hardhat then [FirstPollEnds(c)] else []);
            && t.blocks == s.blocks + [ListenerItem(l, once, c)] && t.txs == s.txs && t.latest == Some(height)
            && t.hardhat == Some(hardhat) && c !in t.starts
            && t.blockTimer.Some? && t.blockTimer.value in t.timers
            && t.timers[t.blockTimer.value] == Timer(BlockKind, if hardhat then 50 else 500)
  {
    var c, hardhat := s.nextCall, Told(s, isHardhat);
    var s1 := Step(s, OnBlock(l, once));
    var s2 := Step(s1, NetworkAnswers(c, isHardhat));
    var s3 := Step(s2, HeightArrives(c, height));
    BlockBegins(s, l, once);
    BlockIsAnswered(s1, c, isHardhat, hardhat);
    hide Step, Run;
    BlockIsPolled(s2, c, hardhat, height);
    Unrolled3(s, OnBlock(l, once), NetworkAnswers(c, isHardhat), HeightArrives(c, height),
              if hardhat then [FirstPollEnds(c)] else []);
    Unrolled(s3, FirstPollEnds(c), []);
    Unrolled(Step(s3, FirstPollEnds(c)), FirstPollEnds(c), []);
    assert [FirstPollEnds(c)] + [] == [FirstPollEnds(c)];
  }

  /** The same for a transaction hash, which needs no height. */
  lemma HashStartRuns(s: State, hash: string, l: nat, once: bool, isHardhat: bool)
    requires s.txTimer.None?
    ensures var c, hardhat := s.nextCall, Told(s, isHardhat);
            var begun := Step(Step(s, OnTransactionHash(hash, l, once)), NetworkAnswers(c, isHardhat));
            var t := if hardhat then Step(begun, FirstPollEnds(c)) else begun;
            && ItemsOf(t.txs, hash) == ItemsOf(s.txs, hash) + [ListenerItem(l, once, c)]
            && t.blocks == s.blocks && t.latest == s.latest && t.hardhat == Some(hardhat) && c !in t.starts
            && t.txTimer.Some? && t.txTimer.value in t.timers
            && t.timers[t.txTimer.value] == Timer(TxKind, if hardhat then 50 else 500)
  {
    var s1 := Step(s, OnTransactionHash(hash, l, once));
    assert hash in s1.txs && |s1.txs| != 0;
  }

  /** A second registration before the first answer takes the network for another one:
      on a Hardhat network its start call sets a timer of 500 milliseconds, which stays. */
  lemma ImpatientStartIsSlow(height: int)
    ensures var t := Run(INITIAL, [OnBlock(7, false), OnBlock(8, false), NetworkAnswers(1, true), HeightArrives(1, height)] +
                                  [NetworkAnswers(0, true)]);
            t.hardhat == Some(true) && t.blockTimer == Some(0) && t.timers == map[0 := Timer(BlockKind, 500)]
  {
    var s1 := Step(INITIAL, OnBlock(7, false));
    BlockBegins(INITIAL, 7, false);
    assert s1.nextCall == 1 && s1.timers == map[] && s1.nextTimer == 0;
    var s2 := Step(s1, OnBlock(8, false));
    BlockBegins(s1, 8, false);
    assert s2.timers == map[] && s2.nextTimer == 0;
    var s3 := Step(s2, NetworkAnswers(1, true));
    BlockIsAnswered(s2, 1, true, false);
    hide Step, Run;
    var s4 := Step(s3, HeightArrives(1, height));
    BlockIsPolled(s3, 1, false, height);
    BlockIsAnswered(s4, 0, true, true);
    FourAndOne(INITIAL, OnBlock(7, false), OnBlock(8, false), NetworkAnswers(1, true), HeightArrives(1, height), NetworkAnswers(0, true));
  }

  lemma FourAndOne(s: State, a: Action, b: Action, c: Action, d: Action, e: Action)
    ensures Run(s, [a, b, c, d] + [e]) == Step(Step(Step(Step(Step(s, a), b), c), d), e)
  {
    hide *;
    var t := Step(Step(Step(s, a), b), c);
    assert [a, b, c, d] + [e] == [a, b, c] + [d, e] && [d, e] == [d] + ([e] + []);
    Unrolled3(s, a, b, c, [d, e]);
    Unrolled(t, d, [e] + []);
    Unrolled(Step(t, d), e, []);
    Unrolled(Step(Step(t, d), e), e, []);
  }
}
