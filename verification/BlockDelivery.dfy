/** What the block listeners receive from non-overlapping polls. */
module BlockDelivery {
  import opened PollingSpec

  /** One call of a listener. */
  datatype Delivery = Delivery(listener: nat, block: int)

  function Announce(items: seq<ListenerItem>, block: int): seq<Delivery> {
    if items == [] then []
    else [Delivery(items[0].listener, block)] + Announce(items[1..], block)
  }

  /** Each registration is called once with the block, in the order of the table. */
  lemma {:induction false} AnnounceAt(items: seq<ListenerItem>, block: int)
    ensures |Announce(items, block)| == |items|
    ensures forall i :: 0 <= i < |items| ==> Announce(items, block)[i] == Delivery(items[i].listener, block)
  {
    if items != [] {
      AnnounceAt(items[1..], block);
    }
  }

  /** `listenersToRemove` after the loop over the table. */
  function OnceListeners(items: seq<ListenerItem>): seq<nat> {
    if items == [] then []
    else if items[0].once then [items[0].listener] + OnceListeners(items[1..])
    else OnceListeners(items[1..])
  }

  function RemoveEach(items: seq<ListenerItem>, ls: seq<nat>): seq<ListenerItem>
    decreases |ls|
  {
    if ls == [] then items else RemoveEach(RemoveFirst(items, ls[0]), ls[1..])
  }

  /** The table after one block has been announced. */
  function AfterBlock(items: seq<ListenerItem>): seq<ListenerItem> {
    RemoveEach(items, OnceListeners(items))
  }

  function Persistent(items: seq<ListenerItem>): seq<ListenerItem> {
    if items == [] then []
    else if items[0].once then Persistent(items[1..])
    else [items[0]] + Persistent(items[1..])
  }

  // ----- which registrations survive a block -----

  /** The code removes by listener function, so a `once` registration made after a
      lasting one for the same function takes the lasting one away instead. */
  ghost predicate NoShadow(items: seq<ListenerItem>) {
    forall i, j :: 0 <= i < j < |items| && !items[i].once && items[j].once ==> items[i].listener != items[j].listener
  }

  /** Removing a bag of listeners in one sweep over the table. */
  function Sweep(items: seq<ListenerItem>, bag: multiset<nat>): seq<ListenerItem> {
    if items == [] then []
    else if items[0].listener in bag then Sweep(items[1..], bag - multiset{items[0].listener})
    else [items[0]] + Sweep(items[1..], bag)
  }

  lemma {:induction false} SweepNothing(items: seq<ListenerItem>)
    ensures Sweep(items, multiset{}) == items
  {
    if items != [] {
      SweepNothing(items[1..]);
    }
  }

  lemma {:induction false} SweepAfterRemoval(items: seq<ListenerItem>, l: nat, bag: multiset<nat>)
    ensures Sweep(RemoveFirst(items, l), bag) == Sweep(items, bag + multiset{l})
  {
    if items != [] {
      var m := items[0].listener;
      if m == l {
        assert bag + multiset{l} - multiset{l} == bag;
      } else {
        var rest := RemoveFirst(items[1..], l);
        assert RemoveFirst(items, l)[1..] == rest;
        if m in bag {
          assert bag + multiset{l} - multiset{m} == bag - multiset{m} + multiset{l};
          SweepAfterRemoval(items[1..], l, bag - multiset{m});
        } else {
          SweepAfterRemoval(items[1..], l, bag);
        }
      }
    }
  }

  lemma {:induction false} RemoveEachIsSweep(items: seq<ListenerItem>, ls: seq<nat>)
    ensures RemoveEach(items, ls) == Sweep(items, multiset(ls))
    decreases |ls|
  {
    if ls == [] {
      SweepNothing(items);
    } else {
      RemoveEachIsSweep(RemoveFirst(items, ls[0]), ls[1..]);
      SweepAfterRemoval(items, ls[0], multiset(ls[1..]));
      assert ls == [ls[0]] + ls[1..];
      assert multiset(ls) == multiset(ls[1..]) + multiset{ls[0]};
    }
  }

  lemma {:induction false} SweepComesFrom(items: seq<ListenerItem>, bag: multiset<nat>)
    ensures forall item <- Sweep(items, bag) :: item in items
  {
    if items != [] {
      SweepComesFrom(items[1..], bag);
      SweepComesFrom(items[1..], bag - multiset{items[0].listener});
    }
  }

  lemma {:induction false} OnceListenersOf(items: seq<ListenerItem>, l: nat)
    ensures l in OnceListeners(items) <==> exists j :: 0 <= j < |items| && items[j].once && items[j].listener == l
  {
    if items != [] {
      OnceListenersOf(items[1..], l);
      if exists j :: 0 <= j < |items| && items[j].once && items[j].listener == l {
        var j :| 0 <= j < |items| && items[j].once && items[j].listener == l;
        assert j > 0 ==> items[1..][j - 1] == items[j];
      }
    }
  }

  lemma NoShadowTail(x: ListenerItem, rest: seq<ListenerItem>)
    ensures NoShadow([x] + rest) <==> NoShadow(rest) && (x.once || x.listener !in OnceListeners(rest))
  {
    OnceListenersOf(rest, x.listener);
    var items := [x] + rest;
    assert forall j :: 0 <= j < |rest| ==> rest[j] == items[j + 1];
    if NoShadow(items) {
      forall i, j | 0 <= i < j < |rest| && !rest[i].once && rest[j].once
        ensures rest[i].listener != rest[j].listener
      {
        assert items[i + 1] == rest[i] && items[j + 1] == rest[j];
      }
      if x.listener in OnceListeners(rest) {
        var j :| 0 <= j < |rest| && rest[j].once && rest[j].listener == x.listener;
        assert items[0] == x && items[j + 1] == rest[j];
      }
    }
    if NoShadow(rest) && (x.once || x.listener !in OnceListeners(rest)) {
      forall i, j | 0 <= i < j < |items| && !items[i].once && items[j].once
        ensures items[i].listener != items[j].listener
      {
        assert items[j] == rest[j - 1];
        assert i > 0 ==> items[i] == rest[i - 1];
      }
    }
  }

  lemma {:induction false} SweepKeepsPersistent(items: seq<ListenerItem>)
    requires DistinctCalls(items)
    ensures Sweep(items, multiset(OnceListeners(items))) == Persistent(items) <==> NoShadow(items)
  {
    if items != [] {
      SweepKeepsPersistent(items[1..]);
      SweepKeepsFirst(items[0], items[1..]);
      assert items == [items[0]] + items[1..];
    }
  }

  lemma SweepKeepsFirst(x: ListenerItem, rest: seq<ListenerItem>)
    requires DistinctCalls([x] + rest)
    requires Sweep(rest, multiset(OnceListeners(rest))) == Persistent(rest) <==> NoShadow(rest)
    ensures Sweep([x] + rest, multiset(OnceListeners([x] + rest))) == Persistent([x] + rest) <==> NoShadow([x] + rest)
  {
    NoShadowTail(x, rest);
    var items, bag := [x] + rest, multiset(OnceListeners(rest));
    assert items[1..] == rest;
    if x.once {
      assert multiset(OnceListeners(items)) - multiset{x.listener} == bag;
    } else {
      assert OnceListeners(items) == OnceListeners(rest);
      if x.listener in bag {
        SweepComesFrom(rest, bag - multiset{x.listener});
        NotInTail(x, rest);
        assert x in Persistent(items) && x !in Sweep(rest, bag - multiset{x.listener});
        assert Sweep(items, bag) == Sweep(rest, bag - multiset{x.listener});
      } else {
        assert Sweep(items, bag) == [x] + Sweep(rest, bag) && Sweep(items, bag)[1..] == Sweep(rest, bag);
        assert Persistent(items)[1..] == Persistent(rest);
      }
    }
  }

  lemma NotInTail(x: ListenerItem, rest: seq<ListenerItem>)
    requires DistinctCalls([x] + rest)
    ensures x !in rest
  {
    var items := [x] + rest;
    assert items[0] == x;
    forall j | 0 <= j < |rest|
      ensures rest[j] != x
    {
      assert rest[j] == items[j + 1];
    }
  }

  /** After a block exactly the lasting registrations are left if and only if no
      `once` registration follows a lasting one for the same function. */
  lemma OnceRemovesItself(items: seq<ListenerItem>)
    requires DistinctCalls(items)
    ensures AfterBlock(items) == Persistent(items) <==> NoShadow(items)
  {
    RemoveEachIsSweep(items, OnceListeners(items));
    SweepKeepsPersistent(items);
  }

  /** `on` and then `once` with the same function: the block takes the lasting
      registration away and leaves the one that should have been used up. */
  lemma OnceRemovesTheLastingOne()
    ensures AfterBlock([ListenerItem(7, false, 0), ListenerItem(7, true, 1)]) == [ListenerItem(7, true, 1)]
  {
    var items := [ListenerItem(7, false, 0), ListenerItem(7, true, 1)];
    assert OnceListeners(items[1..]) == [7];
    assert OnceListeners(items) == [7];
    assert RemoveFirst(items, 7) == [ListenerItem(7, true, 1)];
    assert RemoveEach(items, [7]) == RemoveEach(RemoveFirst(items, 7), []);
  }

  // ----- a series of polls -----

  datatype View = View(latest: int, items: seq<ListenerItem>, log: seq<Delivery>)

  /** The loop over block numbers from `from` to `upTo`. */
  function DeliverRange(v: View, from: int, upTo: int): View
    decreases upTo - from
  {
    if from > upTo then v
    else DeliverRange(View(v.latest, AfterBlock(v.items), v.log + Announce(v.items, from)), from + 1, upTo)
  }

  function Poll(v: View, height: int): View {
    if height == v.latest then v
    else if height < v.latest then v.(latest := height)
    else DeliverRange(v.(latest := height), v.latest + 1, height)
  }

  function Polls(v: View, heights: seq<int>): View
    decreases |heights|
  {
    if heights == [] then v else Polls(Poll(v, heights[0]), heights[1..])
  }

  function Range(from: int, upTo: int): seq<int>
    decreases upTo - from
  {
    if from > upTo then [] else [from] + Range(from + 1, upTo)
  }

  /** The block numbers a series of polls announces: nothing when the height stays
      or falls, every number in between when it rises. */
  function Announced(latest: int, heights: seq<int>): seq<int>
    decreases |heights|
  {
    if heights == [] then []
    else Range(latest + 1, heights[0]) + Announced(heights[0], heights[1..])
  }

  /** Every registration hears of the first block, the lasting ones of all. */
  function Expected(items: seq<ListenerItem>, blocks: seq<int>): seq<Delivery>
    decreases |blocks|
  {
    if blocks == [] then []
    else Announce(items, blocks[0]) + Expected(Persistent(items), blocks[1..])
  }

  function Left(items: seq<ListenerItem>, blocks: seq<int>): seq<ListenerItem> {
    if blocks == [] then items else Persistent(items)
  }

  lemma {:induction false} PersistentIsStable(items: seq<ListenerItem>)
    ensures Persistent(Persistent(items)) == Persistent(items)
    ensures forall item <- Persistent(items) :: !item.once && item in items
  {
    if items != [] {
      PersistentIsStable(items[1..]);
      if !items[0].once {
        assert Persistent(items)[1..] == Persistent(items[1..]);
      }
    }
  }

  lemma {:induction false} PersistentKeepsCalls(items: seq<ListenerItem>)
    requires DistinctCalls(items)
    ensures DistinctCalls(Persistent(items))
  {
    if items != [] {
      PersistentKeepsCalls(items[1..]);
      PersistentIsStable(items[1..]);
      if !items[0].once {
        OneMoreCall(items[0], Persistent(items[1..]), items[1..]);
      }
    }
  }

  lemma OneMoreCall(item: ListenerItem, p: seq<ListenerItem>, rest: seq<ListenerItem>)
    requires DistinctCalls([item] + rest) && DistinctCalls(p)
    requires forall other <- p :: other in rest
    ensures DistinctCalls([item] + p)
  {
    forall k | 0 <= k < |p|
      ensures p[k].call != item.call
    {
      assert p[k] in p;
      var j :| 0 <= j < |rest| && rest[j] == p[k];
      assert ([item] + rest)[j + 1] == p[k] && ([item] + rest)[0] == item;
    }
  }

  lemma AfterBlockIsPersistent(items: seq<ListenerItem>)
    requires DistinctCalls(items) && NoShadow(items)
    ensures AfterBlock(items) == Persistent(items)
    ensures DistinctCalls(Persistent(items)) && NoShadow(Persistent(items))
  {
    OnceRemovesItself(items);
    PersistentKeepsCalls(items);
    PersistentIsStable(items);
    assert forall k :: 0 <= k < |Persistent(items)| ==> Persistent(items)[k] in Persistent(items);
  }

  lemma ExpectedStep(items: seq<ListenerItem>, b: int, rest: seq<int>)
    ensures Expected(items, [b] + rest) == Announce(items, b) + Expected(Persistent(items), rest)
    ensures Left(items, [b] + rest) == Left(Persistent(items), rest)
  {
    assert ([b] + rest)[1..] == rest;
    PersistentIsStable(items);
  }

  lemma {:induction false} RangeDelivers(v: View, from: int, upTo: int)
    requires DistinctCalls(v.items) && NoShadow(v.items)
    ensures DeliverRange(v, from, upTo).items == Left(v.items, Range(from, upTo))
    ensures DeliverRange(v, from, upTo).log == v.log + Expected(v.items, Range(from, upTo))
    ensures DeliverRange(v, from, upTo).latest == v.latest
    decreases upTo - from
  {
    if from <= upTo {
      AfterBlockIsPersistent(v.items);
      var w := View(v.latest, AfterBlock(v.items), v.log + Announce(v.items, from));
      RangeDelivers(w, from + 1, upTo);
      ExpectedStep(v.items, from, Range(from + 1, upTo));
      Associate(v.log, Announce(v.items, from), Expected(w.items, Range(from + 1, upTo)));
    }
  }

  lemma Associate<T>(a: seq<T>, b: seq<T>, c: seq<T>)
    ensures a + b + c == a + (b + c)
  {
  }

  lemma {:induction false} ExpectedAppend(items: seq<ListenerItem>, b: seq<int>, c: seq<int>)
    ensures Expected(items, b + c) == Expected(items, b) + Expected(Left(items, b), c)
    ensures Left(items, b + c) == Left(Left(items, b), c)
    decreases |b|
  {
    if b == [] {
      assert b + c == c;
    } else {
      var p := Persistent(items);
      PersistentIsStable(items);
      ExpectedAppend(p, b[1..], c);
      assert b == [b[0]] + b[1..] && b + c == [b[0]] + (b[1..] + c);
      ExpectedStep(items, b[0], b[1..]);
      ExpectedStep(items, b[0], b[1..] + c);
      Associate(Announce(items, b[0]), Expected(p, b[1..]), Expected(p, c));
    }
  }

  /** Any series of non-overlapping polls delivers exactly what is expected. */
  lemma {:induction false} PollsDeliver(v: View, heights: seq<int>)
    requires DistinctCalls(v.items) && NoShadow(v.items)
    ensures var blocks := Announced(v.latest, heights);
            && Polls(v, heights).items == Left(v.items, blocks)
            && Polls(v, heights).log == v.log + Expected(v.items, blocks)
    decreases |heights|
  {
    if heights == [] {
      assert v.log + [] == v.log;
    } else {
      var h := heights[0];
      var first := Range(v.latest + 1, h);
      var w := Poll(v, h);
      PollDelivers(v, h);
      AfterBlockIsPersistent(v.items);
      PollsDeliver(w, heights[1..]);
      ExpectedAppend(v.items, first, Announced(h, heights[1..]));
      Associate(v.log, Expected(v.items, first), Expected(w.items, Announced(h, heights[1..])));
    }
  }

  lemma PollDelivers(v: View, h: int)
    requires DistinctCalls(v.items) && NoShadow(v.items)
    ensures var first := Range(v.latest + 1, h);
            Poll(v, h) == View(h, Left(v.items, first), v.log + Expected(v.items, first))
  {
    RangeDelivers(v.(latest := h), v.latest + 1, h);
    assert v.log + [] == v.log;
  }

  // ----- what one listener receives -----

  function Received(log: seq<Delivery>, l: nat): seq<int> {
    if log == [] then []
    else if log[0].listener == l then [log[0].block] + Received(log[1..], l)
    else Received(log[1..], l)
  }

  lemma {:induction false} ReceivedAppend(a: seq<Delivery>, b: seq<Delivery>, l: nat)
    ensures Received(a + b, l) == Received(a, l) + Received(b, l)
  {
    if a == [] {
      assert a + b == b;
    } else {
      assert (a + b)[1..] == a[1..] + b;
      ReceivedAppend(a[1..], b, l);
    }
  }

  /** `l` has exactly one registration in the table, namely number `k`. */
  ghost predicate Only(items: seq<ListenerItem>, k: int, l: nat) {
    0 <= k < |items| && forall i :: 0 <= i < |items| ==> (items[i].listener == l <==> i == k)
  }

  lemma {:induction false} AnnounceNone(items: seq<ListenerItem>, block: int, l: nat)
    requires forall i :: 0 <= i < |items| ==> items[i].listener != l
    ensures Received(Announce(items, block), l) == []
  {
    if items != [] {
      AnnounceNone(items[1..], block, l);
    }
  }

  lemma {:induction false} AnnounceOnce(items: seq<ListenerItem>, k: int, block: int, l: nat)
    requires Only(items, k, l)
    ensures Received(Announce(items, block), l) == [block]
  {
    if k == 0 {
      AnnounceNone(items[1..], block, l);
    } else {
      assert items[0].listener != l;
      AnnounceOnce(items[1..], k - 1, block, l);
    }
  }

  lemma {:induction false} PersistentOnly(items: seq<ListenerItem>, k: int, l: nat) returns (m: int)
    requires Only(items, k, l)
    ensures !items[k].once ==> Only(Persistent(items), m, l)
    ensures items[k].once ==> forall i :: 0 <= i < |Persistent(items)| ==> Persistent(items)[i].listener != l
  {
    var rest := Persistent(items[1..]);
    if k == 0 {
      m := 0;
      PersistentIsStable(items[1..]);
      assert forall i :: 0 <= i < |rest| ==> rest[i] in items[1..] && rest[i].listener != l;
    } else {
      assert items[0].listener != l;
      var j := PersistentOnly(items[1..], k - 1, l);
      m := if items[0].once then j else j + 1;
    }
  }

  lemma {:induction false} ExpectNone(items: seq<ListenerItem>, blocks: seq<int>, l: nat)
    requires forall i :: 0 <= i < |items| ==> items[i].listener != l
    ensures Received(Expected(items, blocks), l) == []
    decreases |blocks|
  {
    if blocks != [] {
      AnnounceNone(items, blocks[0], l);
      PersistentIsStable(items);
      var p := Persistent(items);
      assert forall i :: 0 <= i < |p| ==> p[i] in items;
      ExpectNone(p, blocks[1..], l);
      ReceivedAppend(Announce(items, blocks[0]), Expected(p, blocks[1..]), l);
    }
  }

  lemma {:induction false} ExpectOne(items: seq<ListenerItem>, k: int, blocks: seq<int>, l: nat)
    requires Only(items, k, l)
    ensures Received(Expected(items, blocks), l) == if items[k].once && blocks != [] then blocks[..1] else blocks
    decreases |blocks|
  {
    if blocks != [] {
      var p := Persistent(items);
      AnnounceOnce(items, k, blocks[0], l);
      var m := PersistentOnly(items, k, l);
      ReceivedAppend(Announce(items, blocks[0]), Expected(p, blocks[1..]), l);
      if items[k].once {
        ExpectNone(p, blocks[1..], l);
      } else {
        PersistentIsStable(items);
        assert p[m] in p;
        ExpectOne(p, m, blocks[1..], l);
      }
      assert blocks == [blocks[0]] + blocks[1..];
    }
  }

  ghost predicate Rising(latest: int, heights: seq<int>)
    decreases |heights|
  {
    heights == [] || (latest <= heights[0] && Rising(heights[0], heights[1..]))
  }

  lemma {:induction false} RangeAppend(from: int, mid: int, upTo: int)
    requires from <= mid + 1 && mid <= upTo
    ensures Range(from, mid) + Range(mid + 1, upTo) == Range(from, upTo)
    decreases mid - from
  {
    if from <= mid {
      RangeAppend(from + 1, mid, upTo);
      assert [from] + Range(from + 1, mid) + Range(mid + 1, upTo) == [from] + (Range(from + 1, mid) + Range(mid + 1, upTo));
    } else {
      assert [] + Range(mid + 1, upTo) == Range(mid + 1, upTo);
    }
  }

  /** When the chain never gets shorter, every number up to the last height is
      announced once, in order. */
  lemma {:induction false} RisingAnnouncesAll(latest: int, heights: seq<int>)
    requires Rising(latest, heights)
    ensures heights != [] ==> latest <= heights[|heights| - 1]
    ensures Announced(latest, heights) == if heights == [] then [] else Range(latest + 1, heights[|heights| - 1])
    decreases |heights|
  {
    if heights != [] {
      var h, rest := heights[0], heights[1..];
      assert latest <= h && Announced(latest, heights) == Range(latest + 1, h) + Announced(h, rest);
      hide Range;
      RisingAnnouncesAll(h, rest);
      if rest == [] {
        assert Range(latest + 1, h) + [] == Range(latest + 1, h);
      } else {
        assert rest[|rest| - 1] == heights[|heights| - 1];
        RangeAppend(latest + 1, h, rest[|rest| - 1]);
      }
    }
  }

  lemma RangeHead(from: int, upTo: int)
    ensures if from > upTo then Range(from, upTo) == [] else Range(from, upTo) != [] && Range(from, upTo)[..1] == [from]
  {
  }

  // ----- the other registrations do not matter -----

  /** The registrations of `l`. */
  function For(items: seq<ListenerItem>, l: nat): seq<ListenerItem> {
    if items == [] then []
    else if items[0].listener == l then [items[0]] + For(items[1..], l)
    else For(items[1..], l)
  }

  lemma ForCons(x: ListenerItem, rest: seq<ListenerItem>, l: nat)
    ensures For([x] + rest, l) == if x.listener == l then [x] + For(rest, l) else For(rest, l)
  {
    assert ([x] + rest)[1..] == rest;
  }

  lemma {:induction false} ForComesFrom(items: seq<ListenerItem>, l: nat)
    ensures forall item <- For(items, l) :: item in items && item.listener == l
  {
    if items != [] {
      ForComesFrom(items[1..], l);
    }
  }

  lemma {:induction false} ForRemoved(items: seq<ListenerItem>, m: nat, l: nat)
    ensures For(RemoveFirst(items, m), l) == RemoveFirst(For(items, l), m)
  {
    if items != [] {
      var x, rest := items[0], items[1..];
      assert items == [x] + rest;
      ForCons(x, rest, l);
      if x.listener == m {
        if m != l {
          ForComesFrom(rest, l);
          RemoveAbsent(For(rest, l), m);
        }
      } else {
        ForRemoved(rest, m, l);
        ForCons(x, RemoveFirst(rest, m), l);
      }
    }
  }

  lemma {:induction false} RemoveAbsent(items: seq<ListenerItem>, m: nat)
    requires forall item <- items :: item.listener != m
    ensures RemoveFirst(items, m) == items
  {
    if items != [] {
      assert items[0] in items;
      RemoveAbsent(items[1..], m);
    }
  }

  lemma {:induction false} ForRemovedEach(items: seq<ListenerItem>, ls: seq<nat>, l: nat)
    ensures For(RemoveEach(items, ls), l) == RemoveEach(For(items, l), ls)
    decreases |ls|
  {
    if ls != [] {
      ForRemoved(items, ls[0], l);
      ForRemovedEach(RemoveFirst(items, ls[0]), ls[1..], l);
    }
  }

  function Those(ls: seq<nat>, l: nat): seq<nat> {
    if ls == [] then [] else if ls[0] == l then [l] + Those(ls[1..], l) else Those(ls[1..], l)
  }

  lemma {:induction false} RemoveOnlyThose(items: seq<ListenerItem>, ls: seq<nat>, l: nat)
    requires forall item <- items :: item.listener == l
    ensures RemoveEach(items, ls) == RemoveEach(items, Those(ls, l))
    decreases |ls|
  {
    if ls != [] {
      if ls[0] == l {
        assert Those(ls, l)[1..] == Those(ls[1..], l);
        RemovedComeFrom(items, l);
        RemoveOnlyThose(RemoveFirst(items, l), ls[1..], l);
      } else {
        RemoveAbsent(items, ls[0]);
        RemoveOnlyThose(items, ls[1..], l);
      }
    }
  }

  lemma {:induction false} RemovedComeFrom(items: seq<ListenerItem>, m: nat)
    ensures forall item <- RemoveFirst(items, m) :: item in items
  {
    if items != [] {
      RemovedComeFrom(items[1..], m);
    }
  }

  lemma {:induction false} OnceOfOwn(items: seq<ListenerItem>, l: nat)
    ensures Those(OnceListeners(items), l) == OnceListeners(For(items, l))
  {
    if items != [] {
      var x, rest := items[0], items[1..];
      OnceOfOwn(rest, l);
      if x.once {
        assert OnceListeners(items)[1..] == OnceListeners(rest);
      }
      if x.listener == l {
        assert For(items, l)[1..] == For(rest, l);
      }
    }
  }

  /** The block takes from the registrations of `l` what it would if they were alone. */
  lemma OwnAfterBlock(items: seq<ListenerItem>, l: nat)
    ensures For(AfterBlock(items), l) == AfterBlock(For(items, l))
  {
    ForRemovedEach(items, OnceListeners(items), l);
    ForComesFrom(items, l);
    RemoveOnlyThose(For(items, l), OnceListeners(items), l);
    OnceOfOwn(items, l);
  }

  lemma {:induction false} OwnAnnounced(items: seq<ListenerItem>, block: int, l: nat)
    ensures Received(Announce(items, block), l) == Received(Announce(For(items, l), block), l)
  {
    if items != [] {
      var x, rest := items[0], items[1..];
      OwnAnnounced(rest, block, l);
      assert Announce(items, block)[1..] == Announce(rest, block);
      if x.listener == l {
        assert For(items, l)[1..] == For(rest, l);
        assert Announce(For(items, l), block)[1..] == Announce(For(rest, l), block);
      }
    }
  }

  /** `w` is `v` with the registrations of `l` alone. */
  ghost predicate Alone(v: View, w: View, l: nat) {
    w.latest == v.latest && w.items == For(v.items, l) && Received(w.log, l) == Received(v.log, l)
  }

  lemma {:induction false} RangeAlone(v: View, w: View, from: int, upTo: int, l: nat)
    requires Alone(v, w, l)
    ensures Alone(DeliverRange(v, from, upTo), DeliverRange(w, from, upTo), l)
    decreases upTo - from
  {
    if from <= upTo {
      OwnAfterBlock(v.items, l);
      OwnAnnounced(v.items, from, l);
      ReceivedAppend(v.log, Announce(v.items, from), l);
      ReceivedAppend(w.log, Announce(w.items, from), l);
      hide For, AfterBlock, Received, Announce;
      RangeAlone(View(v.latest, AfterBlock(v.items), v.log + Announce(v.items, from)),
                 View(w.latest, AfterBlock(w.items), w.log + Announce(w.items, from)), from + 1, upTo, l);
    }
  }

  /** What a listener receives from polls, and what is left of its registrations,
      depends on its own registrations alone. */
  lemma {:induction false} OwnRegistrationsDecide(v: View, w: View, heights: seq<int>, l: nat)
    requires Alone(v, w, l)
    ensures Alone(Polls(v, heights), Polls(w, heights), l)
    decreases |heights|
  {
    if heights != [] {
      RangeAlone(v.(latest := heights[0]), w.(latest := heights[0]), v.latest + 1, heights[0], l);
      OwnRegistrationsDecide(Poll(v, heights[0]), Poll(w, heights[0]), heights[1..], l);
    }
  }

  lemma {:induction false} ForOnly(items: seq<ListenerItem>, k: int, l: nat)
    requires Only(items, k, l)
    ensures For(items, l) == [items[k]]
  {
    if k == 0 {
      ForNone(items[1..], l);
    } else {
      assert items[0].listener != l;
      ForOnly(items[1..], k - 1, l);
    }
  }

  lemma {:induction false} ForNone(items: seq<ListenerItem>, l: nat)
    requires forall i :: 0 <= i < |items| ==> items[i].listener != l
    ensures For(items, l) == []
  {
    if items != [] {
      ForNone(items[1..], l);
    }
  }

  lemma {:induction false} ForKeepsCalls(items: seq<ListenerItem>, l: nat)
    requires DistinctCalls(items)
    ensures DistinctCalls(For(items, l))
  {
    if items != [] {
      ForKeepsCalls(items[1..], l);
      ForComesFrom(items[1..], l);
      var own := For(items[1..], l);
      ForCons(items[0], items[1..], l);
      assert items == [items[0]] + items[1..];
      hide For;
      assert forall k :: 0 <= k < |own| ==> own[k] in own && own[k] in items[1..] && own[k].call != items[0].call;
    }
  }

  // ----- what reaches a listener -----

  /** A function with any registrations of which no `once` one follows a lasting one:
      each hears of the first block announced, the lasting ones of all. */
  lemma PollsReachEach(latest: int, items: seq<ListenerItem>, log: seq<Delivery>, heights: seq<int>, l: nat)
    requires DistinctCalls(For(items, l)) && NoShadow(For(items, l))
    ensures Received(Polls(View(latest, items, log), heights).log, l) ==
            Received(log, l) + Received(Expected(For(items, l), Announced(latest, heights)), l)
  {
    var own := For(items, l);
    var v, w := View(latest, items, log), View(latest, own, log);
    hide For, Polls, Received, Expected, Announced, NoShadow;
    OwnRegistrationsDecide(v, w, heights, l);
    PollsDeliver(w, heights);
    ReceivedAppend(log, Expected(own, Announced(latest, heights)), l);
  }

  /** A listener registered once receives, from polls at rising heights, exactly
      latest + 1 up to the last height; with `once`, only the first. */
  lemma PollsReach(latest: int, items: seq<ListenerItem>, log: seq<Delivery>, heights: seq<int>, k: int, l: nat)
    requires Only(items, k, l) && heights != [] && Rising(latest, heights)
    ensures 0 <= k < |items|
    ensures var last := heights[|heights| - 1];
            Received(Polls(View(latest, items, log), heights).log, l) ==
            Received(log, l) + if items[k].once && latest < last then [latest + 1] else Range(latest + 1, last)
  {
    var own, blocks := [items[k]], Announced(latest, heights);
    assert Only(own, 0, l) && NoShadow(own) && DistinctCalls(own) && own[0] == items[k];
    hide *;
    OnlyIsInside(items, k, l);
    ForOnly(items, k, l);
    PollsReachEach(latest, items, log, heights, l);
    RisingAnnouncesAll(latest, heights);
    RangeHead(latest + 1, heights[|heights| - 1]);
    ExpectOne(own, 0, blocks, l);
  }

  lemma OnlyIsInside(items: seq<ListenerItem>, k: int, l: nat)
    requires Only(items, k, l)
    ensures 0 <= k < |items|
  {
  }

  function Height(s: State): int {
    if s.latest.Some? then s.latest.value else 0
  }

  /** After any history of the provider: that is what a listener registered once
      receives from the polls that follow, whatever else is registered. */
  lemma ListenerReceives(actions: seq<Action>, log: seq<Delivery>, heights: seq<int>, k: int, l: nat)
    requires var s := Run(INITIAL, actions);
             Only(s.blocks, k, l) && heights != [] && Rising(Height(s), heights)
    ensures 0 <= k < |Run(INITIAL, actions).blocks|
    ensures var s := Run(INITIAL, actions);
            var h, last := Height(s), heights[|heights| - 1];
            Received(Polls(View(h, s.blocks, log), heights).log, l) ==
            Received(log, l) + if s.blocks[k].once && h < last then [h + 1] else Range(h + 1, last)
  {
    var s := Run(INITIAL, actions);
    hide *;
    PollsReach(Height(s), s.blocks, log, heights, k, l);
  }

  lemma RegistrationsDiffer(s: State)
    requires Registrations(s)
    ensures DistinctCalls(s.blocks)
  {
  }

  lemma NoRegistrationsYet()
    ensures Registrations(INITIAL)
  {
  }

  /** And with several registrations, no `once` one after a lasting one: each hears of
      the first block announced, the lasting ones of all. */
  lemma ListenerReceivesEach(actions: seq<Action>, log: seq<Delivery>, heights: seq<int>, l: nat)
    requires NoShadow(For(Run(INITIAL, actions).blocks, l))
    ensures var s := Run(INITIAL, actions);
            Received(Polls(View(Height(s), s.blocks, log), heights).log, l) ==
            Received(log, l) + Received(Expected(For(s.blocks, l), Announced(Height(s), heights)), l)
  {
    var s := Run(INITIAL, actions);
    NoRegistrationsYet();
    hide *;
    RunKeepsRegistrations(INITIAL, actions);
    RegistrationsDiffer(s);
    ForKeepsCalls(s.blocks, l);
    PollsReachEach(Height(s), s.blocks, log, heights, l);
  }
}
