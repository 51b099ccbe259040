/** The event-polling protocol of `HardhatEthersProvider` as a step machine.  The
    steps are the stretches of code between two `await`s, and within the polls
    the single removals, so any interleaving, also by a listener that calls the
    provider back, is a sequence of steps. */
module PollingSpec {
  import opened Prelude

  /** A listener function is known by a number; `call` is history: which call of
      `on` or `once` made the registration. */
  datatype ListenerItem = ListenerItem(listener: nat, once: bool, call: nat)

  datatype Kind = BlockKind | TxKind

  /** How far a call of `_startBlockPolling` or `_startTransactionHashPolling` is:
      it asks which network this is, knows the answer it was given, waits for the
      block number, or waits for its first poll. */
  datatype Stage = Asking | Knows(hardhat: bool) | AwaitHeight(hardhat: bool) | AwaitFirstPoll

  datatype Start = Start(kind: Kind, stage: Stage)

  datatype Timer = Timer(kind: Kind, interval: nat)

  datatype State = State(
    latest: Option<int>,
    blocks: seq<ListenerItem>,
    txs: map<string, seq<ListenerItem>>,
    blockTimer: Option<nat>,
    txTimer: Option<nat>,
    hardhat: Option<bool>,
    // the event loop: live timers and start calls still in flight
    timers: map<nat, Timer>,
    nextTimer: nat,
    starts: map<nat, Start>,
    nextCall: nat,
    // history: calls whose block-number request was rejected
    failed: set<nat>)

  const INITIAL := State(None, [], map[], None, None, None, map[], 0, map[], 0, {})

  datatype Action =
    | OnBlock(listener: nat, once: bool)
    | OnTransactionHash(hash: string, listener: nat, once: bool)
    | ClearBlocks(which: Option<nat>)
    | ClearTxs(hashes: Option<string>, which: Option<nat>)
    | NetworkAnswers(call: nat, isHardhat: bool)
    | HeightArrives(call: nat, height: int)
    | HeightFails(call: nat)
    | FirstPollEnds(call: nat)
    | PollSees(height: int)

  function RemoveFirst(items: seq<ListenerItem>, l: nat): seq<ListenerItem> {
    if items == [] then []
    else if items[0].listener == l then items[1..]
    else [items[0]] + RemoveFirst(items[1..], l)
  }

  function StopBlocks(s: State): State {
    if s.blockTimer.Some? then s.(timers := s.timers - {s.blockTimer.value}, blockTimer := None) else s
  }

  function StopTxs(s: State): State {
    if s.txTimer.Some? then s.(timers := s.timers - {s.txTimer.value}, txTimer := None) else s
  }

  function ClearBlockListeners(s: State, which: Option<nat>): State {
    match which
    case None => StopBlocks(s.(blocks := []))
    case Some(l) =>
      var rest := RemoveFirst(s.blocks, l);
      if rest == [] then StopBlocks(s.(blocks := rest)) else s.(blocks := rest)
  }

  function TxsWithout(txs: map<string, seq<ListenerItem>>, hash: Option<string>, which: Option<nat>)
    : map<string, seq<ListenerItem>>
  {
    if hash.None? then map[]
    else if which.None? || hash.value !in txs then txs - {hash.value}
    else
      var rest := RemoveFirst(txs[hash.value], which.value);
      if rest == [] then txs - {hash.value} else txs[hash.value := rest]
  }

  function ClearTransactionHashListeners(s: State, hash: Option<string>, which: Option<nat>): State {
    var rest := TxsWithout(s.txs, hash, which);
    if |rest| == 0 then StopTxs(s.(txs := rest)) else s.(txs := rest)
  }

  /** The synchronous prefix of a start call: only the first one ever asks, and it
      first writes `false` into the cache. */
  function BeginStart(s: State, kind: Kind): State {
    var stage := if s.hardhat.None? then Asking else Knows(s.hardhat.value);
    s.(starts := s.starts[s.nextCall := Start(kind, stage)],
       nextCall := s.nextCall + 1,
       hardhat := if s.hardhat.None? then Some(false) else s.hardhat)
  }

  function Move(s: State, call: nat, stage: Stage): State
    requires call in s.starts
  {
    s.(starts := s.starts[call := s.starts[call].(stage := stage)])
  }

  /** The end of a start call: a timer only if there are listeners and no timer yet. */
  function Finish(s: State, call: nat, hardhat: bool): (r: State)
    requires call in s.starts
    ensures r.failed == s.failed && r.blocks == s.blocks && r.txs == s.txs && r.nextCall == s.nextCall
    ensures r.starts == s.starts - {call}
  {
    var kind := s.starts[call].kind;
    var gone := s.(starts := s.starts - {call});
    var timer := Timer(kind, if hardhat then 50 else 500);
    if kind == BlockKind then
      if s.blocks != [] && s.blockTimer.None?
      then gone.(blockTimer := Some(s.nextTimer), timers := s.timers[s.nextTimer := timer], nextTimer := s.nextTimer + 1)
      else gone
    else
      if |s.txs| != 0 && s.txTimer.None?
      then gone.(txTimer := Some(s.nextTimer), timers := s.timers[s.nextTimer := timer], nextTimer := s.nextTimer + 1)
      else gone
  }

  /** Resuming after `await this._isHardhatNetwork()`. */
  function AfterNetwork(s: State, call: nat, hardhat: bool): (r: State)
    requires call in s.starts
    ensures r.failed == s.failed && r.blocks == s.blocks && r.txs == s.txs && r.nextCall == s.nextCall
  {
    if s.starts[call].kind == BlockKind then Move(s, call, AwaitHeight(hardhat))
    else if hardhat then Move(s, call, AwaitFirstPoll)
    else Finish(s, call, false)
  }

  function Step(s: State, a: Action): State {
    match a
    case OnBlock(l, once) =>
      BeginStart(s.(blocks := s.blocks + [ListenerItem(l, once, s.nextCall)]), BlockKind)
    case OnTransactionHash(hash, l, once) =>
      var items := if hash in s.txs then s.txs[hash] else [];
      BeginStart(s.(txs := s.txs[hash := items + [ListenerItem(l, once, s.nextCall)]]), TxKind)
    case ClearBlocks(which) => ClearBlockListeners(s, which)
    case ClearTxs(hashes, which) => ClearTransactionHashListeners(s, hashes, which)
    case NetworkAnswers(call, isHardhat) =>
      if call !in s.starts then s
      else if s.starts[call].stage == Asking then
        var known := if isHardhat then s.(hardhat := Some(true)) else s;
        AfterNetwork(known, call, known.hardhat == Some(true))
      else if s.starts[call].stage.Knows? then AfterNetwork(s, call, s.starts[call].stage.hardhat)
      else s
    case HeightArrives(call, height) =>
      if call !in s.starts || !s.starts[call].stage.AwaitHeight? then s
      else
        var hardhat := s.starts[call].stage.hardhat;
        var seen := s.(latest := Some(height));
        if hardhat then Move(seen, call, AwaitFirstPoll) else Finish(seen, call, false)
    case HeightFails(call) =>
      if call !in s.starts || !s.starts[call].stage.AwaitHeight? then s
      else s.(starts := s.starts - {call}, failed := s.failed + {call})
    case FirstPollEnds(call) =>
      if call !in s.starts || s.starts[call].stage != AwaitFirstPoll then s
      else Finish(s, call, true)
    case PollSees(height) => s.(latest := Some(height))
  }

  function Run(s: State, actions: seq<Action>): State
    decreases |actions|
  {
    if actions == [] then s else Run(Step(s, actions[0]), actions[1..])
  }

  // ----- safety in every interleaving -----

  /** The live timers are exactly those the two fields hold: at most one a kind. */
  ghost predicate TimersTracked(s: State) {
    && (forall t <- s.timers :: t < s.nextTimer)
    && (forall t <- s.timers :: s.timers[t].kind == BlockKind ==> s.blockTimer == Some(t))
    && (forall t <- s.timers :: s.timers[t].kind == TxKind ==> s.txTimer == Some(t))
    && (s.blockTimer.Some? ==> s.blockTimer.value in s.timers && s.timers[s.blockTimer.value].kind == BlockKind)
    && (s.txTimer.Some? ==> s.txTimer.value in s.timers && s.timers[s.txTimer.value].kind == TxKind)
  }

  /** A timer runs only while there is a listener, and no hash keeps an empty list. */
  ghost predicate TablesMatchTimers(s: State) {
    && (s.blockTimer.Some? ==> s.blocks != [])
    && (s.txTimer.Some? ==> |s.txs| != 0)
    && (forall h <- s.txs :: s.txs[h] != [])
  }

  ghost predicate Pending(s: State, call: nat, kind: Kind) {
    call in s.starts && s.starts[call].kind == kind
  }

  /** Every registration is being polled for, or its own start call is still on its
      way; a block registration may also have lost that call to a rejected request. */
  ghost predicate NoneStranded(s: State) {
    && (forall item <- s.blocks ::
          s.blockTimer.Some? || Pending(s, item.call, BlockKind) || item.call in s.failed)
    && (forall h <- s.txs :: forall item <- s.txs[h] ::
          s.txTimer.Some? || Pending(s, item.call, TxKind))
  }

  ghost predicate CallsNumbered(s: State) {
    && (forall c <- s.starts :: c < s.nextCall)
    && (forall c <- s.starts :: s.starts[c].stage.AwaitHeight? ==> s.starts[c].kind == BlockKind)
    && (forall c <- s.failed :: c < s.nextCall && c !in s.starts)
  }

  ghost predicate Inv(s: State) {
    TimersTracked(s) && TablesMatchTimers(s) && NoneStranded(s) && CallsNumbered(s)
  }

  lemma RemoveFirstKeeps(items: seq<ListenerItem>, l: nat)
    ensures forall item <- RemoveFirst(items, l) :: item in items
  {
  }

  lemma ShrunkBlocksKeep(s: State, rest: seq<ListenerItem>)
    requires Inv(s) && forall item <- rest :: item in s.blocks
    ensures Inv(if rest == [] then StopBlocks(s.(blocks := rest)) else s.(blocks := rest))
  {
    var t := if rest == [] then StopBlocks(s.(blocks := rest)) else s.(blocks := rest);
    assert TimersTracked(t) && TablesMatchTimers(t) && CallsNumbered(t);
    assert forall c: nat, kind :: Pending(s, c, kind) <==> Pending(t, c, kind);
    hide TimersTracked, TablesMatchTimers, CallsNumbered;
    assert NoneStranded(t);
  }

  lemma ClearBlocksKeeps(s: State, which: Option<nat>)
    requires Inv(s)
    ensures Inv(ClearBlockListeners(s, which))
  {
    if which.Some? {
      RemoveFirstKeeps(s.blocks, which.value);
      ShrunkBlocksKeep(s, RemoveFirst(s.blocks, which.value));
    } else {
      ShrunkBlocksKeep(s, []);
    }
  }

  lemma ShrunkTxsKeep(s: State, rest: map<string, seq<ListenerItem>>)
    requires Inv(s) && forall h <- rest :: rest[h] != [] && h in s.txs && forall item <- rest[h] :: item in s.txs[h]
    ensures Inv(if |rest| == 0 then StopTxs(s.(txs := rest)) else s.(txs := rest))
  {
    var t := if |rest| == 0 then StopTxs(s.(txs := rest)) else s.(txs := rest);
    assert TimersTracked(t) && TablesMatchTimers(t) && CallsNumbered(t);
    assert forall c: nat, kind :: Pending(s, c, kind) <==> Pending(t, c, kind);
    hide TimersTracked, TablesMatchTimers, CallsNumbered;
    assert |rest| == 0 ==> forall h :: h !in rest;
    assert NoneStranded(t);
  }

  lemma ClearTxsKeeps(s: State, hash: Option<string>, which: Option<nat>)
    requires Inv(s)
    ensures Inv(ClearTransactionHashListeners(s, hash, which))
  {
    if hash.Some? && which.Some? && hash.value in s.txs {
      RemoveFirstKeeps(s.txs[hash.value], which.value);
    }
    ShrunkTxsKeep(s, TxsWithout(s.txs, hash, which));
  }

  lemma FinishBlockKeeps(s: State, call: nat, hardhat: bool)
    requires Inv(s) && call in s.starts && s.starts[call].kind == BlockKind
    ensures Inv(Finish(s, call, hardhat))
  {
    var v := Finish(s, call, hardhat);
    assert forall c: nat :: Pending(s, c, TxKind) ==> Pending(v, c, TxKind);
    assert v.blocks != [] ==> v.blockTimer.Some?;
  }

  lemma FinishTxKeeps(s: State, call: nat, hardhat: bool)
    requires Inv(s) && call in s.starts && s.starts[call].kind == TxKind
    ensures Inv(Finish(s, call, hardhat))
  {
    var v := Finish(s, call, hardhat);
    assert forall c: nat :: Pending(s, c, BlockKind) ==> Pending(v, c, BlockKind);
    assert |v.txs| != 0 ==> v.txTimer.Some?;
    assert forall h <- v.txs :: |v.txs| != 0;
  }

  lemma FinishKeeps(s: State, call: nat, hardhat: bool)
    requires Inv(s) && call in s.starts
    ensures Inv(Finish(s, call, hardhat))
  {
    if s.starts[call].kind == BlockKind {
      FinishBlockKeeps(s, call, hardhat);
    } else {
      FinishTxKeeps(s, call, hardhat);
    }
  }

  lemma MoveKeeps(s: State, call: nat, stage: Stage)
    requires Inv(s) && call in s.starts
    requires stage.AwaitHeight? ==> s.starts[call].kind == BlockKind
    ensures Inv(Move(s, call, stage))
  {
  }

  lemma OnBlockKeeps(s: State, l: nat, once: bool)
    requires Inv(s)
    ensures Inv(Step(s, OnBlock(l, once)))
  {
  }

  lemma OnTxKeeps(s: State, hash: string, l: nat, once: bool)
    requires Inv(s)
    ensures Inv(Step(s, OnTransactionHash(hash, l, once)))
  {
    var v := Step(s, OnTransactionHash(hash, l, once));
    assert hash in v.txs;
    assert forall h <- v.txs :: h != hash ==> h in s.txs && v.txs[h] == s.txs[h];
    assert forall c: nat :: Pending(s, c, TxKind) ==> Pending(v, c, TxKind);
    assert forall c: nat :: Pending(s, c, BlockKind) ==> Pending(v, c, BlockKind);
    assert Pending(v, s.nextCall, TxKind);
  }

  lemma AfterNetworkKeeps(s: State, call: nat, hardhat: bool)
    requires Inv(s) && call in s.starts
    ensures Inv(AfterNetwork(s, call, hardhat))
  {
    if s.starts[call].kind == BlockKind {
      MoveKeeps(s, call, AwaitHeight(hardhat));
    } else if hardhat {
      MoveKeeps(s, call, AwaitFirstPoll);
    } else {
      FinishKeeps(s, call, false);
    }
  }

  lemma NetworkKeeps(s: State, call: nat, isHardhat: bool)
    requires Inv(s)
    ensures Inv(Step(s, NetworkAnswers(call, isHardhat)))
  {
    if call in s.starts {
      if s.starts[call].stage == Asking {
        var known := if isHardhat then s.(hardhat := Some(true)) else s;
        assert Inv(known);
        AfterNetworkKeeps(known, call, known.hardhat == Some(true));
      } else if s.starts[call].stage.Knows? {
        AfterNetworkKeeps(s, call, s.starts[call].stage.hardhat);
      }
    }
  }

  lemma HeightKeeps(s: State, call: nat, height: int)
    requires Inv(s)
    ensures Inv(Step(s, HeightArrives(call, height)))
  {
    var seen := s.(latest := Some(height));
    assert Inv(seen);
    if call in s.starts && s.starts[call].stage.AwaitHeight? {
      if s.starts[call].stage.hardhat {
        MoveKeeps(seen, call, AwaitFirstPoll);
      } else {
        FinishKeeps(seen, call, false);
      }
    }
  }

  lemma FailureKeeps(s: State, call: nat)
    requires Inv(s)
    ensures Inv(Step(s, HeightFails(call)))
  {
  }

  /** Every step, in every interleaving, keeps the invariant. */
  lemma StepKeeps(s: State, a: Action)
    requires Inv(s)
    ensures Inv(Step(s, a))
  {
    match a {
      case OnBlock(l, once) => OnBlockKeeps(s, l, once);
      case OnTransactionHash(h, l, once) => OnTxKeeps(s, h, l, once);
      case ClearBlocks(which) => ClearBlocksKeeps(s, which);
      case ClearTxs(h, which) => ClearTxsKeeps(s, h, which);
      case NetworkAnswers(call, isHardhat) => NetworkKeeps(s, call, isHardhat);
      case HeightArrives(call, height) => HeightKeeps(s, call, height);
      case HeightFails(call) => FailureKeeps(s, call);
      case FirstPollEnds(call) => if call in s.starts { FinishKeeps(s, call, true); }
      case PollSees(height) =>
    }
  }

  lemma {:induction false} RunKeeps(s: State, actions: seq<Action>)
    requires Inv(s)
    ensures Inv(Run(s, actions))
    decreases |actions|
  {
    if actions != [] {
      StepKeeps(s, actions[0]);
      RunKeeps(Step(s, actions[0]), actions[1..]);
    }
  }

  // ----- what holds in every reachable state -----

  /** At most one live timer of each kind, which is the one its field names, and a
      field names only a live one; a timer only with listeners; no transaction hash
      with an empty list. */
  lemma EveryReachableStateIsSafe(actions: seq<Action>)
    ensures var s := Run(INITIAL, actions);
            && (forall t <- s.timers, u <- s.timers :: s.timers[t].kind == s.timers[u].kind ==> t == u)
            && (forall t <- s.timers :: (if s.timers[t].kind == BlockKind then s.blockTimer else s.txTimer) == Some(t))
            && (s.blockTimer.Some? ==> s.blockTimer.value in s.timers && s.blocks != [])
            && (s.txTimer.Some? ==> s.txTimer.value in s.timers && |s.txs| != 0)
            && (forall h <- s.txs :: s.txs[h] != [])
  {
    RunKeeps(INITIAL, actions);
    hide Run;
    SafeFromInv(Run(INITIAL, actions));
  }

  lemma SafeFromInv(s: State)
    requires Inv(s)
    ensures forall t <- s.timers, u <- s.timers :: s.timers[t].kind == s.timers[u].kind ==> t == u
    ensures forall t <- s.timers :: (if s.timers[t].kind == BlockKind then s.blockTimer else s.txTimer) == Some(t)
    ensures s.blockTimer.Some? ==> s.blockTimer.value in s.timers && s.blocks != []
    ensures s.txTimer.Some? ==> s.txTimer.value in s.timers && |s.txs| != 0
    ensures forall h <- s.txs :: s.txs[h] != []
  {
    assert TimersTracked(s) && TablesMatchTimers(s);
    hide NoneStranded, CallsNumbered;
  }

  // ----- every registration is a call of its own -----

  ghost predicate DistinctCalls(items: seq<ListenerItem>) {
    forall i, j :: 0 <= i < j < |items| ==> items[i].call != items[j].call
  }

  ghost predicate Registrations(s: State) {
    DistinctCalls(s.blocks) && forall item <- s.blocks :: item.call < s.nextCall
  }

  lemma {:induction false} RemoveFirstKeepsCalls(items: seq<ListenerItem>, l: nat)
    requires DistinctCalls(items)
    ensures DistinctCalls(RemoveFirst(items, l))
  {
    if items != [] && items[0].listener != l {
      var rest := RemoveFirst(items[1..], l);
      RemoveFirstKeepsCalls(items[1..], l);
      RemoveFirstKeeps(items[1..], l);
      hide RemoveFirst;
      assert forall k :: 0 <= k < |rest| ==> rest[k] in rest && rest[k].call != items[0].call;
    }
  }

  lemma StepKeepsBlocks(s: State, a: Action)
    requires !a.OnBlock? && !a.ClearBlocks?
    ensures Step(s, a).blocks == s.blocks && Step(s, a).nextCall >= s.nextCall
  {
    hide Finish, AfterNetwork, BeginStart, TxsWithout;
    match a {
      case NetworkAnswers(call, isHardhat) => NetworkKeepsBlocks(s, call, isHardhat);
      case OnTransactionHash(hash, l, once) => RegistrationKeepsBlocks(s, hash, l, once);
      case ClearTxs(_, _) =>
      case HeightArrives(_, _) =>
      case FirstPollEnds(_) =>
      case HeightFails(_) =>
      case PollSees(_) =>
    }
  }

  lemma RegistrationKeepsBlocks(s: State, hash: string, l: nat, once: bool)
    ensures var t := Step(s, OnTransactionHash(hash, l, once)); t.blocks == s.blocks && t.nextCall == s.nextCall + 1
  {
  }

  lemma NetworkKeepsBlocks(s: State, call: nat, isHardhat: bool)
    ensures var t := Step(s, NetworkAnswers(call, isHardhat)); t.blocks == s.blocks && t.nextCall == s.nextCall
  {
    hide Finish, AfterNetwork;
  }

  lemma StepKeepsRegistrations(s: State, a: Action)
    requires Registrations(s)
    ensures Registrations(Step(s, a))
  {
    if a.OnBlock? {
      var item := ListenerItem(a.listener, a.once, s.nextCall);
      assert Step(s, a).blocks == s.blocks + [item] && Step(s, a).nextCall == s.nextCall + 1;
    } else if a.ClearBlocks? {
      if a.which.Some? {
        RemoveFirstKeepsCalls(s.blocks, a.which.value);
        RemoveFirstKeeps(s.blocks, a.which.value);
      }
    } else {
      hide Step;
      StepKeepsBlocks(s, a);
    }
  }

  lemma {:induction false} RunKeepsRegistrations(s: State, actions: seq<Action>)
    requires Registrations(s)
    ensures Registrations(Run(s, actions))
    decreases |actions|
  {
    hide Step, Registrations;
    if actions != [] {
      StepKeepsRegistrations(s, actions[0]);
      RunKeepsRegistrations(Step(s, actions[0]), actions[1..]);
    }
  }

  ghost predicate StrandedBlock(s: State, item: ListenerItem) {
    item in s.blocks && s.blockTimer.None? && !Pending(s, item.call, BlockKind)
  }

  /** A transaction-hash registration is never stranded. */
  lemma NoTransactionStranded(actions: seq<Action>, hash: string, item: ListenerItem)
    requires var s := Run(INITIAL, actions); hash in s.txs && item in s.txs[hash]
    ensures var s := Run(INITIAL, actions); s.txTimer.Some? || Pending(s, item.call, TxKind)
  {
    RunKeeps(INITIAL, actions);
  }

  /** A block registration is stranded if and only if its own block-number request
      was rejected and no other start call has set the timer. */
  lemma BlockStrandedExactlyWhenRejected(actions: seq<Action>, item: ListenerItem)
    requires item in Run(INITIAL, actions).blocks
    ensures var s := Run(INITIAL, actions);
            StrandedBlock(s, item) <==> s.blockTimer.None? && item.call in s.failed
  {
    RunKeeps(INITIAL, actions);
  }

  lemma OnlyRejectionsFail(s: State, a: Action)
    requires !a.HeightFails?
    ensures Step(s, a).failed == s.failed
  {
    hide Finish, AfterNetwork, TxsWithout, RemoveFirst;
    match a {
      case NetworkAnswers(call, isHardhat) => NetworkRejectsNone(s, call, isHardhat);
      case HeightArrives(_, _) =>
      case FirstPollEnds(_) =>
      case ClearTxs(_, _) =>
      case _ =>
    }
  }

  lemma NetworkRejectsNone(s: State, call: nat, isHardhat: bool)
    ensures Step(s, NetworkAnswers(call, isHardhat)).failed == s.failed
  {
    hide Finish, AfterNetwork;
  }

  lemma {:induction false} NoRejectionNoFailure(s: State, actions: seq<Action>)
    requires s.failed == {} && forall a <- actions :: !a.HeightFails?
    ensures Run(s, actions).failed == {}
    decreases |actions|
  {
    if actions != [] {
      OnlyRejectionsFail(s, actions[0]);
      NoRejectionNoFailure(Step(s, actions[0]), actions[1..]);
    }
  }

  /** So without a rejected request no block registration is ever stranded. */
  lemma NoBlockStranded(actions: seq<Action>, item: ListenerItem)
    requires forall a <- actions :: !a.HeightFails?
    ensures !StrandedBlock(Run(INITIAL, actions), item)
  {
    NoRejectionNoFailure(INITIAL, actions);
    if item in Run(INITIAL, actions).blocks {
      BlockStrandedExactlyWhenRejected(actions, item);
    }
  }

  /** With one rejected request a registration does stay behind, unpolled. */
  lemma RejectedRequestStrands()
    ensures StrandedBlock(
              Run(INITIAL, [OnBlock(7, false), NetworkAnswers(0, true), HeightFails(0)]), ListenerItem(7, false, 0))
  {
    var s1 := Step(INITIAL, OnBlock(7, false));
    assert s1.starts == map[0 := Start(BlockKind, Asking)];
    var s2 := Step(s1, NetworkAnswers(0, true));
    var s3 := Step(s2, HeightFails(0));
    var run := [OnBlock(7, false), NetworkAnswers(0, true), HeightFails(0)];
    assert run[1..] == [NetworkAnswers(0, true), HeightFails(0)] && run[1..][1..] == [HeightFails(0)];
    assert Run(INITIAL, run) == Run(s1, run[1..]) == Run(s2, run[1..][1..]) == Run(s3, []);
  }

  // ----- silence after removeAllListeners -----

  /** `removeAllListeners()`: the block part, then the transaction part.  The event
      part takes wrappers out of the block table, which is empty by then. */
  function RemoveAll(s: State): State {
    ClearTransactionHashListeners(ClearBlockListeners(s, None), None, None)
  }

  ghost predicate Quiet(s: State) {
    s.blocks == [] && s.txs == map[] && s.timers == map[]
  }

  predicate Registers(a: Action) {
    a.OnBlock? || a.OnTransactionHash?
  }

  lemma NoTimersLeft(s: State)
    requires Inv(s) && s.blocks == [] && s.txs == map[]
    ensures Quiet(s) && s.blockTimer.None? && s.txTimer.None?
  {
    assert TimersTracked(s) && TablesMatchTimers(s);
    hide NoneStranded, CallsNumbered;
    assert |s.txs| == 0;
    assert s.timers.Keys == {};
  }

  lemma RemoveAllEmpties(s: State)
    ensures RemoveAll(s).blocks == [] && RemoveAll(s).txs == map[]
  {
  }

  lemma RemoveAllQuiets(s: State)
    requires Inv(s)
    ensures Quiet(RemoveAll(s)) && Inv(RemoveAll(s))
  {
    RemoveAllEmpties(s);
    assert RemoveAll(s) == ClearTransactionHashListeners(ClearBlockListeners(s, None), None, None);
    hide Inv, Quiet, RemoveAll, ClearTransactionHashListeners, ClearBlockListeners;
    ClearBlocksKeeps(s, None);
    ClearTxsKeeps(ClearBlockListeners(s, None), None, None);
    NoTimersLeft(RemoveAll(s));
  }

  lemma ClearsLeaveNone(s: State, a: Action)
    requires s.blocks == [] && s.txs == map[] && (a.ClearBlocks? || a.ClearTxs?)
    ensures Step(s, a).blocks == [] && Step(s, a).txs == map[]
  {
    if a.ClearTxs? && a.hashes.Some? {
      assert s.txs - {a.hashes.value} == map[];
    }
  }

  lemma OthersKeepTables(s: State, a: Action)
    requires !Registers(a) && !a.ClearBlocks? && !a.ClearTxs?
    ensures Step(s, a).blocks == s.blocks && Step(s, a).txs == s.txs
  {
    hide Finish, AfterNetwork;
  }

  lemma QuietStep(s: State, a: Action)
    requires Inv(s) && Quiet(s) && !Registers(a)
    ensures Quiet(Step(s, a))
  {
    assert s.blocks == [] && s.txs == map[];
    hide Inv, Step, Quiet;
    if a.ClearBlocks? || a.ClearTxs? {
      ClearsLeaveNone(s, a);
    } else {
      OthersKeepTables(s, a);
    }
    StepKeeps(s, a);
    NoTimersLeft(Step(s, a));
  }

  /** Start calls still in flight when everything is removed never create a timer,
      however the remaining steps interleave, until somebody registers again. */
  lemma {:induction false} SilentAfterRemoveAll(s: State, actions: seq<Action>)
    requires Inv(s) && Quiet(s) && forall a <- actions :: !Registers(a)
    ensures Quiet(Run(s, actions))
    decreases |actions|
  {
    if actions != [] {
      QuietStep(s, actions[0]);
      StepKeeps(s, actions[0]);
      SilentAfterRemoveAll(Step(s, actions[0]), actions[1..]);
    }
  }

  lemma RemoveAllSilences(before: seq<Action>, after: seq<Action>)
    requires forall a <- after :: !Registers(a)
    ensures Quiet(Run(RemoveAll(Run(INITIAL, before)), after))
  {
    RunKeeps(INITIAL, before);
    RemoveAllQuiets(Run(INITIAL, before));
    SilentAfterRemoveAll(RemoveAll(Run(INITIAL, before)), after);
  }
}
