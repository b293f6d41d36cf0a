/**
 The ordering buffer (gossip/dagordering/event_buffer.go): events wait until their parents are connected.
 A pushed event instance is an Item; its err and released fields live in `errs` and `released`.
 */
module EventsBuffers {
  import opened Basics
  import opened Dags
  import Lru

  datatype Item = Item(num: nat, event: Event, peer: string, size: nat)
  datatype Error = DuplicateEvent | AlreadyConnectedEvent | SpilledEvent | CheckFailed | ProcessFailed
  datatype Release = Release(item: Item, err: Option<Error>)
  datatype Metric = Metric(num: nat, size: nat)

  /** A call of the application's Check or Process, with its answer. */
  datatype Call = Checked(id: EventId, ok: bool) | Processed(id: EventId, ok: bool)

  type Waiting = map<EventId, Lru.Entry<Item>>

  // ---------------------------------------------------------------- what the buffer keeps

  predicate Complete(connected: set<EventId>, e: Event) {
    forall p :: p in e.parents ==> p in connected
  }

  /** Buffered although nothing is missing. */
  ghost function Overdue(connected: set<EventId>, w: Waiting): set<EventId> {
    set id | id in w && Complete(connected, w[id].value.event)
  }

  ghost predicate Buffered(w: Waiting, it: Item) {
    it.event.id in w && w[it.event.id].value == it
  }

  /** The callback had each released item once, and one released without error is connected. */
  ghost predicate Logged(connected: set<EventId>, released: set<Item>, log: seq<Release>) {
    && (forall it :: it in released <==> exists i :: 0 <= i < |log| && log[i].item == it)
    && (forall i, j :: 0 <= i < j < |log| ==> log[i].item != log[j].item)
    && (forall i :: 0 <= i < |log| && log[i].err.None? ==> log[i].item.event.id in connected)
  }

  ghost predicate Filed(w: Waiting, pushed: set<Item>) {
    forall id :: id in w ==> w[id].value.event.id == id && w[id].value in pushed && w[id].weight == w[id].value.size
  }

  /** Items not in hand and not released are buffered; released ones are not, unless their cascade is running. */
  ghost predicate Conserved(w: Waiting, released: set<Item>, pushed: set<Item>, active: set<EventId>, hand: set<Item>) {
    && (forall it :: it in pushed && it !in hand && it !in released ==> Buffered(w, it))
    && (forall it :: it in pushed && it in released && Buffered(w, it) ==> it.event.id in active)
    && (forall it :: it in hand ==> it.event.id !in w)
  }

  /** Only released items carry errors, and a failure in the log is a failed call. */
  ghost predicate Explained(errs: map<Item, Error>, released: set<Item>, log: seq<Release>, calls: seq<Call>) {
    && errs.Keys <= released
    && (forall i :: 0 <= i < |log| && log[i].err == Some(CheckFailed) ==> Checked(log[i].item.event.id, false) in calls)
    && (forall i :: 0 <= i < |log| && log[i].err == Some(ProcessFailed) ==>
          Processed(log[i].item.event.id, false) in calls)
  }

  /** What was released in between was processed or failed. */
  ghost predicate OnlyTried(before: seq<Release>, log: seq<Release>) {
    before <= log && forall i :: |before| <= i < |log| ==> log[i].err in {None, Some(CheckFailed), Some(ProcessFailed)}
  }

  /** What was released in between was spilled. */
  ghost predicate OnlySpilled(before: seq<Release>, log: seq<Release>) {
    before <= log && forall i :: |before| <= i < |log| ==> log[i].err == Some(SpilledEvent)
  }

  /** The event was offered to the application first: to Check if there is one, then to Process. */
  ghost predicate Tried(before: seq<Call>, calls: seq<Call>, id: EventId, hasCheck: bool, ok: bool) {
    && before <= calls && |calls| > |before|
    && if hasCheck && calls[|before|] == Checked(id, false) then !ok
       else if hasCheck then |calls| > |before| + 1 && calls[|before|] == Checked(id, true)
           && calls[|before| + 1] == Processed(id, ok)
       else calls[|before|] == Processed(id, ok)
  }

  lemma ExplainedRelease(
    errs: map<Item, Error>, errs': map<Item, Error>, released: set<Item>, log: seq<Release>, calls: seq<Call>, it: Item,
    err: Option<Error>)
    requires Explained(errs, released, log, calls) && it !in released && errs'.Keys <= errs.Keys + {it}
    requires err == Some(CheckFailed) ==> Checked(it.event.id, false) in calls
    requires err == Some(ProcessFailed) ==> Processed(it.event.id, false) in calls
    ensures Explained(errs', released + {it}, log + [Release(it, err)], calls)
  {
  }

  lemma ExplainedAgain(
    errs: map<Item, Error>, errs': map<Item, Error>, released: set<Item>, log: seq<Release>, calls: seq<Call>, it: Item)
    requires Explained(errs, released, log, calls) && it in released && errs'.Keys <= errs.Keys + {it}
    ensures Explained(errs', released + {it}, log, calls)
  {
  }

  lemma ExplainedMore(errs: map<Item, Error>, released: set<Item>, log: seq<Release>, calls: seq<Call>, more: seq<Call>)
    requires Explained(errs, released, log, calls) && calls <= more
    ensures Explained(errs, released, log, more)
  {
  }

  lemma NotYetFailed(errs: map<Item, Error>, released: set<Item>, log: seq<Release>, calls: seq<Call>, it: Item)
    requires Explained(errs, released, log, calls) && it !in released
    ensures it !in errs
  {
  }

  lemma OnlyTriedMore(a: seq<Release>, b: seq<Release>, c: seq<Release>)
    requires OnlyTried(a, b) && OnlyTried(b, c)
    ensures OnlyTried(a, c)
  {
  }

  lemma OnlyTriedOne(log: seq<Release>, r: Release)
    ensures OnlyTried(log, log)
    ensures r.err in {None, Some(CheckFailed), Some(ProcessFailed)} ==> OnlyTried(log, log + [r])
  {
  }

  lemma OnlySpilledOne(before: seq<Release>, log: seq<Release>, it: Item)
    requires OnlySpilled(before, log)
    ensures OnlySpilled(before, log + [Release(it, Some(SpilledEvent))])
  {
  }

  lemma TriedMore(before: seq<Call>, calls: seq<Call>, more: seq<Call>, id: EventId, hasCheck: bool, ok: bool)
    requires Tried(before, calls, id, hasCheck, ok) && calls <= more
    ensures Tried(before, more, id, hasCheck, ok)
  {
  }

  lemma ReleaseLogged(connected: set<EventId>, released: set<Item>, log: seq<Release>, it: Item, err: Option<Error>)
    requires Logged(connected, released, log) && it !in released && (err.None? ==> it.event.id in connected)
    ensures Logged(connected, released + {it}, log + [Release(it, err)])
  {
    var next := log + [Release(it, err)];
    assert next[|log|].item == it;
    forall x | x in released + {it} ensures exists i :: 0 <= i < |next| && next[i].item == x {
      if x in released {
        var i :| 0 <= i < |log| && log[i].item == x;
        assert next[i].item == x;
      }
    }
  }

  lemma LoggedMore(connected: set<EventId>, more: set<EventId>, released: set<Item>, log: seq<Release>)
    requires Logged(connected, released, log) && connected <= more
    ensures Logged(more, released, log)
  {
  }

  lemma ReleaseConserved(
    w: Waiting, released: set<Item>, pushed: set<Item>, active: set<EventId>, hand: set<Item>, it: Item)
    requires Conserved(w, released, pushed, active, hand) && Filed(w, pushed) && hand <= {it}
    ensures Conserved(w, released + {it}, pushed, active + {it.event.id}, {})
  {
  }

  // ---------------------------------------------------------------- the cascade

  lemma OverdueConnected(connected: set<EventId>, w: Waiting, id: EventId, list: seq<Item>, n: nat)
    requires n == 0 && forall x :: x in w ==> w[x].value in list
    ensures forall x :: x in Overdue(connected + {id}, w) ==> x in Overdue(connected, w) || ChildFrom(w, list, n, id, x)
  {
    forall x | x in Overdue(connected + {id}, w) && x !in Overdue(connected, w) ensures ChildFrom(w, list, n, id, x) {
      assert id in w[x].value.event.parents;
      var i :| 0 <= i < |list| && list[i] == w[x].value;
    }
  }

  /** x is buffered, a child of id, and listed at n or later. */
  ghost predicate ChildFrom(w: Waiting, list: seq<Item>, n: nat, id: EventId, x: EventId) {
    x in w && exists i :: n <= i < |list| && w[x].value == list[i] && id in list[i].event.parents
  }

  /** Everything the buffer and its application hold. */
  datatype Snap = Snap(
    connected: set<EventId>, w: Waiting, released: set<Item>, log: seq<Release>, pushed: set<Item>,
        processed: seq<EventId>)

  /** Holds at every step; `active` events have a cascade running, `hand` is an item not filed yet. */
  ghost predicate Mid(s: Snap, active: set<EventId>, hand: set<Item>) {
    && Filed(s.w, s.pushed) && Conserved(s.w, s.released, s.pushed, active, hand)
    && Logged(s.connected, s.released, s.log) && s.released <= s.pushed
    && NoDup(s.processed) && (forall x :: x in s.processed ==> x in s.connected)
  }

  ghost predicate Shrunk(w: Waiting, was: Waiting) {
    forall x :: x in w ==> x in was && w[x] == was[x]
  }

  ghost predicate Listed(w: Waiting, list: seq<Item>) {
    forall x :: x in w ==> w[x].value in list
  }

  /** What is overdue was overdue before, or is a child of `id` that the cascade has yet to visit. */
  ghost predicate Cascading(s: Snap, overdue: set<EventId>, list: seq<Item>, n: nat, id: EventId) {
    forall x :: x in Overdue(s.connected, s.w) ==> x in overdue || ChildFrom(s.w, list, n, id, x)
  }

  lemma CascadeStart(s: Snap, next: Snap, list: seq<Item>, id: EventId)
    requires Listed(s.w, list) && next.w == s.w && next.connected == s.connected + {id}
    ensures Cascading(next, Overdue(s.connected, s.w), list, 0, id)
  {
    hide Overdue, ChildFrom;
    OverdueConnected(s.connected, s.w, id, list, 0);
  }

  lemma CascadeVisited(s: Snap, next: Snap, overdue: set<EventId>, list: seq<Item>, n: nat, id: EventId)
    requires Cascading(s, overdue, list, n, id) && n < |list| && Shrunk(next.w, s.w)
    requires Overdue(next.connected, next.w) <= Overdue(s.connected, s.w) - {list[n].event.id}
    requires Filed(s.w, s.pushed)
    ensures Cascading(next, overdue, list, n + 1, id)
  {
    hide Overdue, Complete;
    forall x | x in Overdue(next.connected, next.w) && x !in overdue ensures ChildFrom(next.w, list, n + 1, id, x) {
      OverdueIn(next.connected, next.w, x);
    }
  }

  lemma OverdueIn(connected: set<EventId>, w: Waiting, x: EventId)
    requires x in Overdue(connected, w)
    ensures x in w
  {
  }

  lemma CascadeSkipped(s: Snap, overdue: set<EventId>, list: seq<Item>, n: nat, id: EventId)
    requires Cascading(s, overdue, list, n, id) && n < |list| && id !in list[n].event.parents
    ensures Cascading(s, overdue, list, n + 1, id)
  {
    hide Overdue;
    forall x | x in Overdue(s.connected, s.w) && x !in overdue ensures ChildFrom(s.w, list, n + 1, id, x) {
      assert ChildFrom(s.w, list, n, id, x);
    }
  }

  lemma CascadeDone(s: Snap, overdue: set<EventId>, list: seq<Item>, id: EventId)
    requires Cascading(s, overdue, list, |list|, id)
    ensures Overdue(s.connected, s.w - {id}) <= overdue - {id}
  {
    hide Complete;
  }

  /** Releasing an item, for the first time or again. */
  lemma MidRelease(s: Snap, active: set<EventId>, hand: set<Item>, it: Item, err: Option<Error>)
    requires Mid(s, active, hand) && hand <= {it} && it in s.pushed
    requires (it !in s.released && err.None? ==> it.event.id in s.connected)
    ensures Mid(s.(released := s.released + {it}, log := if it in s.released then s.log
            else s.log + [Release(it, err)]),
                active + {it.event.id}, {})
  {
    hide Logged, Conserved, Filed, NoDup;
    ReleaseConserved(s.w, s.released, s.pushed, active, hand, it);
    if it in s.released {
      assert s.released + {it} == s.released;
    } else {
      ReleaseLogged(s.connected, s.released, s.log, it, err);
    }
  }

  lemma MidRemove(s: Snap, active: set<EventId>, id: EventId)
    requires Mid(s, active + {id}, {}) && (id in s.w ==> s.w[id].value in s.released)
    ensures Mid(s.(w := s.w - {id}), active, {})
  {
    hide Logged, NoDup;
  }

  lemma MidConnect(s: Snap, active: set<EventId>, hand: set<Item>, id: EventId)
    requires Mid(s, active, hand) && id !in s.connected
    ensures Mid(s.(connected := s.connected + {id}, processed := s.processed + [id]), active, hand)
  {
    hide Logged, Conserved, Filed;
    LoggedMore(s.connected, s.connected + {id}, s.released, s.log);
  }

  /** An incomplete new item is filed. */
  lemma MidFile(s: Snap, active: set<EventId>, it: Item, w: Waiting)
    requires Mid(s, active, {it}) && it in s.pushed && it !in s.released
    requires w == s.w[it.event.id := Lru.Entry(it, it.size)]
    ensures Mid(s.(w := w), active, {})
  {
    hide Logged, NoDup;
  }

  lemma OverdueFile(s: Snap, it: Item, w: Waiting)
    requires w == s.w[it.event.id := Lru.Entry(it, it.size)] && !Complete(s.connected, it.event) && it.event.id !in s.w
    ensures Overdue(s.connected, w) == Overdue(s.connected, s.w) - {it.event.id}
  {
  }

  lemma OverdueShrunk(connected: set<EventId>, w: Waiting, was: Waiting)
    requires Shrunk(w, was)
    ensures Overdue(connected, w) <= Overdue(connected, was)
  {
  }

  lemma OverdueRemove(connected: set<EventId>, w: Waiting, id: EventId)
    ensures Overdue(connected, w - {id}) == Overdue(connected, w) - {id}
    ensures !(id in w && Complete(connected, w[id].value.event)) ==>
              Overdue(connected, w) - {id} == Overdue(connected, w)
  {
  }

  /** The buffered items, the least recent first. */
  ghost predicate OldestToNewest(order: seq<EventId>, w: Waiting, list: seq<Item>) {
    && |list| == |order|
    && forall i :: 0 <= i < |list| ==> order[|order| - 1 - i] in w && list[i] == w[order[|order| - 1 - i]].value
  }

  /** A listed item whose event is buffered is the buffered instance. */
  ghost predicate Matches(w: Waiting, list: seq<Item>) {
    forall it :: it in list && it.event.id in w ==> w[it.event.id].value == it
  }

  ghost predicate Known(list: seq<Item>, pushed: set<Item>, universe: set<EventId>) {
    forall it :: it in list ==> it in pushed && it.event.id in universe
  }

  class EventsBuffer {
    const incompletes: Lru.Cache<EventId, Item>
    const limit: Metric
    const isImportant: Option<Event -> bool>
    const hasCheck: bool
    var connected: set<EventId>         // what Exists and Get of the application know
    var errs: map<Item, Error>
    var released: set<Item>
    var log: seq<Release>               // calls of Released
    var calls: seq<Call>                // calls of Check and Process
    var processed: seq<EventId>         // successful calls of Process
    var nextNum: nat
    ghost var pushed: set<Item>

    ghost function Now(): Snap
      reads this, incompletes
    {
      Snap(connected, incompletes.items, released, log, pushed, processed)
    }

    constructor (limit: Metric, isImportant: Option<Event -> bool>, hasCheck: bool, connected: set<EventId>)
      ensures Valid() && fresh(incompletes) && this.limit == limit && this.isImportant == isImportant
      ensures this.connected == connected && this.hasCheck == hasCheck
      ensures incompletes.items == map[] && log == [] && calls == [] && pushed == {}
    {
      this.limit, this.isImportant, this.hasCheck, this.connected := limit, isImportant, hasCheck, connected;
      incompletes := new Lru.Cache(MAX_INT32, MAX_INT32);
      errs, released, log, calls, processed, pushed, nextNum := map[], {}, [], [], [], {}, 0;
    }

    predicate Within(m: Metric)
      reads incompletes
    {
      incompletes.Len() <= m.num && incompletes.weight <= m.size
    }

    /** Between calls: nothing buffered is overdue, every instance is buffered or released, and the limit holds. */
    ghost predicate Valid()
      reads this, incompletes
    {
      && incompletes.Valid() && incompletes.maxSize == MAX_INT32 && incompletes.maxWeight == MAX_INT32
      && Mid(Now(), {}, {}) && Overdue(connected, incompletes.items) == {}
      && Within(limit) && Explained(errs, released, log, calls) && forall it :: it in pushed ==> it.num < nextNum
    }

    function ErrorOf(e: Item): Option<Error>
      reads this`errs
    {
      if e in errs then Some(errs[e]) else None
    }

    method DropEvent(e: Item, err: Error)
      modifies this`errs
      ensures errs == if e in old(errs) then old(errs) else old(errs)[e := err]
    {
      if e !in errs {
        errs := errs[e := err];
      }
    }

    method ReleaseEvent(e: Item)
      modifies this`released, this`log
      ensures released == old(released) + {e}
      ensures log == if e in old(released) then old(log) else old(log) + [Release(e, ErrorOf(e))]
    {
      if e !in released {
        log := log + [Release(e, ErrorOf(e))];
      }
      released := released + {e};
    }

    method CompleteEventParents(e: Item) returns (r: bool)
      ensures r <==> Complete(connected, e.event)
    {
      for i := 0 to |e.event.parents|
        invariant forall j :: 0 <= j < i ==> e.event.parents[j] in connected
      {
        if e.event.parents[i] !in connected {
          return false;
        }
      }
      return true;
    }

    /** The application's Process: any answer, but success connects the event. */
    method Process(e: Event) returns (ok: bool)
      requires Complete(connected, e) && e.id !in connected
      modifies this`connected, this`processed, this`calls
      ensures connected == if ok then old(connected) + {e.id} else old(connected)
      ensures processed == if ok then old(processed) + [e.id] else old(processed)
      ensures calls == old(calls) + [Processed(e.id, ok)]
    {
      ok := *;
      calls := calls + [Processed(e.id, ok)];
      if ok {
        connected := connected + {e.id};
        processed := processed + [e.id];
      }
    }

    /** The application's Check: any answer. */
    method Check(e: Event) returns (ok: bool)
      modifies this`calls
      ensures calls == old(calls) + [Checked(e.id, ok)]
    {
      ok := *;
      calls := calls + [Checked(e.id, ok)];
    }

    method ProcessCompleteEvent(e: Item) returns (ok: bool)
      requires Complete(connected, e.event) && e.event.id !in connected
      modifies this`connected, this`processed, this`errs, this`calls
      ensures connected == if ok then old(connected) + {e.event.id} else old(connected)
      ensures processed == if ok then old(processed) + [e.event.id] else old(processed)
      ensures Tried(old(calls), calls, e.event.id, hasCheck, ok)
      ensures ok ==> errs == old(errs)
      ensures !ok ==> e in errs && errs == old(errs)[e := errs[e]]
      ensures !ok ==>
                errs[e] == if Processed(e.event.id, false) in calls[|old(calls)|..] then ProcessFailed
                           else if e in old(errs) then old(errs)[e] else CheckFailed
      ensures !ok && e !in old(errs) && errs[e] == CheckFailed ==> Checked(e.event.id, false) in calls
    {
      if hasCheck {
        var checked := Check(e.event);
        assert calls[|old(calls)|..] == [Checked(e.event.id, checked)];
        if !checked {
          DropEvent(e, CheckFailed);
          return false;
        }
      }
      ghost var before := calls;
      ok := Process(e.event);
      assert calls[|old(calls)|..] == before[|old(calls)|..] + [Processed(e.event.id, ok)];
      if !ok {
        errs := errs[e := ProcessFailed];
        DropEvent(e, ProcessFailed);
      }
    }

    method GetIncompleteEventsList() returns (list: seq<Item>)
      requires incompletes.Valid() && Filed(incompletes.items, pushed)
      ensures Listed(incompletes.items, list) && Matches(incompletes.items, list)
      ensures forall it :: it in list ==> it in pushed && it.event.id in incompletes.items
      ensures OldestToNewest(incompletes.order, incompletes.items, list)
    {
      list := [];
      var keys := incompletes.Keys();
      for i := 0 to |keys|
        invariant |list| == i
        invariant forall j :: 0 <= j < i ==>
                    keys[j] in incompletes.items && list[j] == incompletes.items[keys[j]].value
      {
        assert keys[i] in incompletes.order;
        var child := incompletes.Peek(keys[i]);
        if child.Some? {
          list := list + [child.value];
        }
      }
      forall x | x in incompletes.items ensures incompletes.items[x].value in list {
        assert x in incompletes.order;
        var k :| 0 <= k < |incompletes.order| && incompletes.order[k] == x;
        assert keys[|keys| - 1 - k] == x;
        assert list[|keys| - 1 - k] == incompletes.items[x].value;
      }
    }

    /**
     pushEvent: connects an event whose parents are all connected, then its children among the listed events;
     a new incomplete event is buffered. No event becomes overdue, and this one is not.
     */
    method PushItem(
      e: Item, given: Option<seq<Item>>, recheck: bool, ghost active: set<EventId>, ghost universe: set<EventId>)
      returns (ok: bool)
      requires incompletes.Valid() && Mid(Now(), active, if recheck then {} else {e}) && e in pushed
      requires e.event.id in universe
      requires recheck ==>
                 given.Some? && Listed(incompletes.items, given.value) && Matches(incompletes.items, given.value)
                           && Known(given.value, pushed, universe) && e in given.value
      requires !recheck ==>
                 given.None? && e !in released && Fits(e) && forall x :: x in incompletes.items ==> x in universe
      requires Explained(errs, released, log, calls)
      modifies this`connected, this`errs, this`released, this`log, this`calls, this`processed, incompletes
      ensures incompletes.Valid() && incompletes.maxSize == old(incompletes.maxSize)
      ensures incompletes.maxWeight == old(incompletes.maxWeight) && Mid(Now(), active, {})
      ensures Explained(errs, released, log, calls)
      ensures old(connected) <= connected && old(released) <= released && old(calls) <= calls
      ensures ok <==> e.event.id in connected && e.event.id !in old(connected)
      ensures !ok ==> connected == old(connected)
      ensures Overdue(connected, incompletes.items) <= old(Overdue(connected, incompletes.items)) - {e.event.id}
      ensures recheck ==> Shrunk(incompletes.items, old(incompletes.items)) && OnlyTried(old(log), log)
      ensures !recheck && e.event.id in old(connected) ==>
                log == old(log) + [Release(e, Some(AlreadyConnectedEvent))] && calls == old(calls)
                && incompletes.items == old(incompletes.items) && incompletes.order == old(incompletes.order)
                && incompletes.weight == old(incompletes.weight)
      ensures !recheck && e.event.id !in old(connected) && !Complete(old(connected), e.event) ==>
                log == old(log) && calls == old(calls) && incompletes.order == [e.event.id] + old(incompletes.order)
                && incompletes.items == old(incompletes.items)[e.event.id := Lru.Entry(e, e.size)]
                && incompletes.weight == old(incompletes.weight) + e.size
      ensures e.event.id !in old(connected) && Complete(old(connected), e.event) ==>
                Tried(old(calls), calls, e.event.id, hasCheck, ok)
      ensures !recheck && e.event.id !in old(connected) && Complete(old(connected), e.event) ==>
                OnlyTried(old(log), log) && |log| > |old(log)| && log[|old(log)|].item == e
                && (log[|old(log)|].err.None? <==> ok)
                && Shrunk(incompletes.items, old(incompletes.items))
                && (!ok ==> incompletes.items == old(incompletes.items))
      ensures recheck || e.event.id in old(connected) || Complete(old(connected), e.event) ==>
                |incompletes.order| <= |old(incompletes.order)| && incompletes.weight <= old(incompletes.weight)
      decreases |universe - connected|
    {
      hide *;
      ghost var s, hand := Now(), if recheck then {} else {e};
      NowIs();
      var id := e.event.id;
      InstanceOf(s, active, hand, e, given, recheck);
      ShrunkRefl(s.w);
      OnlyTriedOne(log, Release(e, None));
      OverdueRemove(connected, incompletes.items, id);
      if e !in released {
        NotYetFailed(errs, released, log, calls, e);
      }
      if id in connected {
        DropConnected(e, recheck, active);
        ShrunkRemove(s.w, s.w, id);
        return false;
      }
      var complete := CompleteEventParents(e);
      if !complete {
        if !recheck {
          OverdueFile(s, e, s.w[id := Lru.Entry(e, e.size)]);
          MidFile(s, active, e, s.w[id := Lru.Entry(e, e.size)]);
          FileItem(e);
        }
        NowIs();
        return false;
      }
      ok := PushComplete(e, given, recheck, active, universe);
    }

    /**
     pushEvent on a complete event: it is offered to the application and released, and on success its children
     follow.
     */
    method PushComplete(
      e: Item, given: Option<seq<Item>>, recheck: bool, ghost active: set<EventId>, ghost universe: set<EventId>)
      returns (ok: bool)
      requires incompletes.Valid() && Mid(Now(), active, if recheck then {} else {e}) && e in pushed
      requires e.event.id in universe
      requires given.Some? ==> Listed(incompletes.items, given.value) && Matches(incompletes.items, given.value)
                               && Known(given.value, pushed, universe)
      requires given.None? ==> forall x :: x in incompletes.items ==> x in universe
      requires Explained(errs, released, log, calls) && (e !in released ==> e !in errs) && (!recheck ==> e !in released)
      requires e.event.id in incompletes.items ==> recheck && incompletes.items[e.event.id].value == e
      requires Complete(connected, e.event) && e.event.id !in connected
      modifies this`connected, this`errs, this`released, this`log, this`calls, this`processed, incompletes
      ensures incompletes.Valid() && incompletes.maxSize == old(incompletes.maxSize)
      ensures incompletes.maxWeight == old(incompletes.maxWeight) && Mid(Now(), active, {})
      ensures Explained(errs, released, log, calls)
      ensures old(connected) <= connected && old(released) <= released && old(calls) <= calls
      ensures (ok <==> e.event.id in connected) && (!ok ==> connected == old(connected))
      ensures Overdue(connected, incompletes.items) <= old(Overdue(connected, incompletes.items)) - {e.event.id}
      ensures Shrunk(incompletes.items, old(incompletes.items)) && OnlyTried(old(log), log)
      ensures Tried(old(calls), calls, e.event.id, hasCheck, ok)
      ensures !recheck ==> |log| > |old(log)| && log[|old(log)|].item == e && (log[|old(log)|].err.None? <==> ok)
      ensures !ok ==> incompletes.items == old(incompletes.items) - {e.event.id}
      ensures |incompletes.order| <= |old(incompletes.order)| && incompletes.weight <= old(incompletes.weight)
      decreases |universe - connected|, 1
    {
      hide *;
      ghost var s, hand := Now(), if recheck then {} else {e};
      NowIs();
      var id := e.event.id;
      ShrunkRefl(s.w);
      OverdueRemove(connected, incompletes.items, id);
      ok := Offer(e, recheck, active);
      NowIs();
      ghost var logged, called := log, calls;
      OnlyTriedOne(log, Release(e, None));
      if ok {
        Cascade(e, given, active, universe, s);
        OnlyTriedMore(old(log), logged, log);
        TriedMore(old(calls), called, calls, id, hasCheck, ok);
        FirstKept(logged, log);
      }
      NowIs();
      ShrunkRemove(s.w, incompletes.items, id);
      ShrunkInstance(s.w, incompletes.items, e, released);
      MidRemove(Now(), active, id);
      AbsentRemove(id);
      var _ := incompletes.Remove(id);
      NowIs();
    }

    /** A complete event goes to the application and is released with the outcome. */
    method Offer(e: Item, recheck: bool, ghost active: set<EventId>) returns (ok: bool)
      requires Mid(Now(), active, if recheck then {} else {e}) && e in pushed
      requires Explained(errs, released, log, calls) && (e !in released ==> e !in errs) && (!recheck ==> e !in released)
      requires Complete(connected, e.event) && e.event.id !in connected
      modifies this`connected, this`errs, this`released, this`log, this`calls, this`processed
      ensures connected == (if ok then old(connected) + {e.event.id} else old(connected))
      ensures released == old(released) + {e}
      ensures Mid(Now(), active + {e.event.id}, {}) && Explained(errs, released, log, calls)
      ensures OnlyTried(old(log), log) && old(calls) <= calls && Tried(old(calls), calls, e.event.id, hasCheck, ok)
      ensures !recheck ==> |log| > |old(log)| && log[|old(log)|].item == e && (log[|old(log)|].err.None? <==> ok)
    {
      hide *;
      ghost var s, hand := Now(), if recheck then {} else {e};
      NowIs();
      var id := e.event.id;
      ok := ProcessCompleteEvent(e);
      TriedCalls(old(calls), calls, id, hasCheck, ok);
      ExplainedMore(old(errs), released, log, old(calls), calls);
      ErrorIs(e);
      if ok {
        MidConnect(s, active, hand, id);
      }
      MidRelease(s.(connected := connected, processed := processed), active, hand, e, ErrorOf(e));
      ExplainReleased(old(errs), e);
      OnlyTriedOne(log, Release(e, ErrorOf(e)));
      ReleaseEvent(e);
      NowIs();
    }

    /**
     pushEvent on an event the application already has: an instance pushed now is refused, a buffered one is let go.
     */
    method DropConnected(e: Item, recheck: bool, ghost active: set<EventId>)
      requires incompletes.Valid() && Mid(Now(), active, if recheck then {} else {e}) && e in pushed
      requires e.event.id in connected
      requires Explained(errs, released, log, calls) && (e !in released ==> e !in errs) && (!recheck ==> e !in released)
      requires e.event.id in incompletes.items ==> recheck && incompletes.items[e.event.id].value == e
      modifies this`errs, this`released, this`log, incompletes
      ensures incompletes.Valid() && incompletes.maxSize == old(incompletes.maxSize)
      ensures incompletes.maxWeight == old(incompletes.maxWeight) && Mid(Now(), active, {})
      ensures Explained(errs, released, log, calls) && old(released) <= released
      ensures incompletes.items == old(incompletes.items) - {e.event.id}
      ensures |incompletes.order| <= |old(incompletes.order)| && incompletes.weight <= old(incompletes.weight)
      ensures recheck ==> OnlyTried(old(log), log)
      ensures !recheck ==>
                log == old(log) + [Release(e, Some(AlreadyConnectedEvent))]
                    && incompletes.items == old(incompletes.items)
                && incompletes.order == old(incompletes.order) && incompletes.weight == old(incompletes.weight)
    {
      hide *;
      ghost var s, hand := Now(), if recheck then {} else {e};
      NowIs();
      AbsentRemove(e.event.id);
      OnlyTriedOne(log, Release(e, None));
      var _ := incompletes.Remove(e.event.id);
      if !recheck {
        DropEvent(e, AlreadyConnectedEvent);
      }
      ErrorIs(e);
      MidRelease(s, active, hand, e, ErrorOf(e));
      ExplainReleased(old(errs), e);
      ReleaseEvent(e);
      MidRemove(s.(released := released, log := log), active, e.event.id);
      NowIs();
    }

    /** The children of a connected event may be complete now. */
    method Cascade(
      e: Item, given: Option<seq<Item>>, ghost active: set<EventId>, ghost universe: set<EventId>, ghost s: Snap)
      requires incompletes.Valid() && e.event.id in universe && e.event.id !in s.connected && e in released
      requires Explained(errs, released, log, calls)
      requires Now() ==
               s.(connected := s.connected + {e.event.id}, released := released, log := log, processed := processed)
      requires Mid(Now(), active + {e.event.id}, {})
      requires given.Some? ==>
                 Listed(s.w, given.value) && Matches(s.w, given.value) && Known(given.value, pushed, universe)
      requires given.None? ==> forall x :: x in s.w ==> x in universe
      requires e.event.id in s.w ==> s.w[e.event.id].value == e
      modifies this`connected, this`errs, this`released, this`log, this`calls, this`processed, incompletes
      ensures incompletes.Valid() && incompletes.maxSize == old(incompletes.maxSize)
      ensures incompletes.maxWeight == old(incompletes.maxWeight) && Mid(Now(), active + {e.event.id}, {})
      ensures Explained(errs, released, log, calls) && OnlyTried(old(log), log) && old(calls) <= calls
      ensures old(connected) <= connected && old(released) <= released
      ensures Overdue(connected, incompletes.items - {e.event.id}) <= Overdue(s.connected, s.w) - {e.event.id}
      ensures Shrunk(incompletes.items, s.w)
      ensures |incompletes.order| <= |old(incompletes.order)| && incompletes.weight <= old(incompletes.weight)
      decreases |universe - s.connected|, 0
    {
      hide *;
      NowIs();
      var id := e.event.id;
      var list;
      if given.Some? {
        list := given.value;
      } else {
        FiledIs(Now(), active + {id}, {});
        list := GetIncompleteEventsList();
        KnownIs(list, pushed, universe, incompletes.items);
      }
      CascadeStart(s, Now(), list, id);
      ShrunkRefl(s.w);
      OnlyTriedOne(log, Release(e, None));
      ghost var overdue := Overdue(s.connected, s.w);
      for i := 0 to |list|
        invariant incompletes.Valid() && incompletes.maxSize == old(incompletes.maxSize)
        invariant incompletes.maxWeight == old(incompletes.maxWeight) && Explained(errs, released, log, calls)
        invariant OnlyTried(old(log), log) && old(calls) <= calls
        invariant Mid(Now(), active + {id}, {}) && Cascading(Now(), overdue, list, i, id)
        invariant Listed(incompletes.items, list) && Matches(incompletes.items, list) && Known(list, pushed, universe)
        invariant Shrunk(incompletes.items, s.w) && old(connected) <= connected && old(released) <= released
        invariant |incompletes.order| <= |old(incompletes.order)| && incompletes.weight <= old(incompletes.weight)
      {
        NowIs();
        ghost var before := Now();
        if id in list[i].event.parents {
          Fewer(universe, s.connected, connected, id);
          KnownAt(list, i, pushed, universe);
          FiledIs(before, active + {id}, {});
          var _ := PushItem(list[i], Some(list), true, active + {id}, universe);
          NowIs();
          CascadeVisited(before, Now(), overdue, list, i, id);
          ShrunkLists(before.w, incompletes.items, s.w, list);
          OnlyTriedMore(old(log), before.log, log);
        } else {
          CascadeSkipped(before, overdue, list, i, id);
        }
      }
      NowIs();
      CascadeDone(Now(), overdue, list, id);
    }

    /** A new incomplete event is filed; within the limits nothing is evicted. */
    method FileItem(e: Item)
      requires incompletes.Valid() && Fits(e) && e.event.id !in incompletes.items
      modifies incompletes
      ensures incompletes.Valid() && incompletes.maxSize == old(incompletes.maxSize)
      ensures incompletes.maxWeight == old(incompletes.maxWeight)
      ensures incompletes.items == old(incompletes.items)[e.event.id := Lru.Entry(e, e.size)]
      ensures incompletes.order == [e.event.id] + old(incompletes.order)
      ensures incompletes.weight == old(incompletes.weight) + e.size
    {
      hide Lru.WeightSum, Lru.LongestFit, Lru.Without, NoDup;
      ghost var order, items := incompletes.order, incompletes.items;
      ghost var full, stored := [e.event.id] + Lru.Without(order, e.event.id),
          items[e.event.id := Lru.Entry(e, e.size)];
      Lru.FrontKeeps(order, items, e.event.id, Lru.Entry(e, e.size), full, stored);
      Lru.WithoutKeeps(order, e.event.id);
      var _ := incompletes.Add(e.event.id, e, e.size);
      Lru.AllFit(full, stored, |incompletes.order|, incompletes.maxWeight, incompletes.maxSize);
      assert incompletes.order == full;
      assert incompletes.items.Keys == stored.Keys;
    }

    /** PushEvent: true exactly if the event was connected by this call; the log says what became of it otherwise. */
    method PushEvent(de: Event, peer: string, size: nat) returns (complete: bool)
      requires Valid() && limit.num < MAX_INT32 && limit.size + size <= MAX_INT32
      modifies this, incompletes
      ensures Valid() && pushed == old(pushed) + {Item(old(nextNum), de, peer, size)} && old(connected) <= connected
      ensures complete <==> de.id in connected && de.id !in old(connected)
      ensures !complete ==> connected == old(connected)
      ensures de.id in old(incompletes.items) ==>
                log == old(log) + [Release(Item(old(nextNum), de, peer, size), Some(DuplicateEvent))]
                && calls == old(calls) && incompletes.items == old(incompletes.items)
                && incompletes.order == old(incompletes.order)
      ensures de.id !in old(incompletes.items) && de.id in old(connected) ==>
                log == old(log) + [Release(Item(old(nextNum), de, peer, size), Some(AlreadyConnectedEvent))]
                && calls == old(calls) && incompletes.items == old(incompletes.items)
                && incompletes.order == old(incompletes.order)
      ensures de.id !in old(incompletes.items) && de.id !in old(connected) && !Complete(old(connected), de) ==>
                && calls == old(calls)
                && var item := Item(old(nextNum), de, peer, size);
                   SpiltTo(isImportant, [de.id] + old(incompletes.order),
                           old(incompletes.items)[de.id := Lru.Entry(item, size)], old(incompletes.weight) + size,
                           old(log), incompletes.order, incompletes.items, incompletes.weight, log, limit)
      ensures de.id !in old(incompletes.items) && de.id !in old(connected) && Complete(old(connected), de) ==>
                && Tried(old(calls), calls, de.id, hasCheck, complete)
                && |log| > |old(log)| && log[|old(log)|].item == Item(old(nextNum), de, peer, size)
                && (log[|old(log)|].err.None? <==> complete)
                && OnlyTried(old(log), log) && Shrunk(incompletes.items, old(incompletes.items))
                && (!complete ==> incompletes.items == old(incompletes.items))
      ensures forall x :: x in old(incompletes.items) && x !in incompletes.items ==>
                ReleasedSince(old(log), log, old(incompletes.items)[x].value)
    {
      hide *;
      ValidIs();
      ghost var s := Now();
      NowIs();
      var e := Item(nextNum, de, peer, size);
      nextNum := nextNum + 1;
      pushed := pushed + {e};
      NewItem(s, e);
      FitsIs(e);
      WithinIs(limit);
      PeekIs(de.id);
      NotYetFailed(errs, released, log, calls, e);
      if incompletes.Peek(de.id).Some? {
        DropEvent(e, DuplicateEvent);
        ErrorIs(e);
        DuplicateReleased(s, e, ErrorOf(e));
        ExplainReleased(old(errs), e);
        ReleaseEvent(e);
        NowIs();
        ValidIs();
        return false;
      }
      NowIs();
      complete := PushItem(e, None, false, {}, incompletes.items.Keys + {de.id});
      ghost var w, logged, order, weight := incompletes.items, log, incompletes.order, incompletes.weight;
      WithinIs(limit);
      SpillIncompletes(limit);
      SpiltWithin(isImportant, order, w, weight, logged, incompletes.order, incompletes.items, incompletes.weight, log,
                  limit);
      SpilledKeeps(logged, log);
      if de.id !in old(connected) && Complete(old(connected), de) {
        FirstKept(old(log), logged);
      }
      OverdueShrunk(connected, incompletes.items, w);
      ValidIs();
      NowIs();
      GoneReleased(s, Now());
    }

    /** Clear: everything is spilled. */
    method Clear()
      requires Valid()
      modifies this`errs, this`released, this`log, incompletes
      ensures Valid() && incompletes.items == map[] && OnlySpilled(old(log), log)
    {
      hide *;
      ValidIs();
      ghost var w := incompletes.items;
      SpillIncompletes(Metric(0, 0));
      OverdueShrunk(connected, incompletes.items, w);
      WithinIs(Metric(0, 0));
      WithinMore(Metric(0, 0), limit);
      ValidIs();
    }

    /**
     spillIncompletes: evicts down to the limit and no further, oldest first. With an importance callback unimportant
     events go first.
     */
    method SpillIncompletes(m: Metric)
      requires incompletes.Valid() && Mid(Now(), {}, {}) && Explained(errs, released, log, calls)
      modifies this`errs, this`released, this`log, incompletes
      ensures incompletes.Valid() && incompletes.maxSize == old(incompletes.maxSize)
      ensures incompletes.maxWeight == old(incompletes.maxWeight)
      ensures Mid(Now(), {}, {}) && Within(m) && Shrunk(incompletes.items, old(incompletes.items))
      ensures Explained(errs, released, log, calls) && OnlySpilled(old(log), log)
      ensures SpiltTo(isImportant, old(incompletes.order), old(incompletes.items), old(incompletes.weight), old(log),
                      incompletes.order, incompletes.items, incompletes.weight, log, m)
    {
      hide *;
      ShrunkRefl(incompletes.items);
      WithinIs(m);
      NothingSpilled(log);
      StoppedIs(incompletes.items, log, incompletes.order, incompletes.weight, m);
      ghost var within := |incompletes.order| <= m.num && incompletes.weight <= m.size;
      OrderedIn();
      if isImportant.None? {
        PrefixWeight(old(incompletes.order), old(incompletes.items));
        while incompletes.Len() > m.num || incompletes.weight > m.size
          invariant incompletes.Valid() && incompletes.maxSize == old(incompletes.maxSize)
          invariant incompletes.maxWeight == old(incompletes.maxWeight)
          invariant Mid(Now(), {}, {}) && Shrunk(incompletes.items, old(incompletes.items))
          invariant Explained(errs, released, log, calls) && OnlySpilled(old(log), log)
          invariant incompletes.order <= old(incompletes.order)
          invariant Stopped(old(incompletes.items), old(log), old(incompletes.order), old(incompletes.weight), m)
          invariant Needed(old(incompletes.order), old(incompletes.items), |incompletes.order|, m)
          invariant within ==> incompletes.items == old(incompletes.items) && log == old(log)
          invariant within ==>
                      incompletes.order == old(incompletes.order) && incompletes.weight == old(incompletes.weight)
          decreases |incompletes.order|
        {
          NonEmpty(m);
          LenIs();
          PrefixWeight(old(incompletes.order), old(incompletes.items));
          NeededNow(old(incompletes.order), old(incompletes.items), |incompletes.order|, m);
          var evicted := SpillOldest(old(incompletes.items), old(log), old(incompletes.order),
              old(incompletes.weight), m);
          if !evicted {
            break;
          }
        }
        WithinIs(m);
        PrefixWeight(old(incompletes.order), old(incompletes.items));
        FitIs(old(incompletes.order), old(incompletes.items), |incompletes.order|, m);
        StoppedIs(old(incompletes.items), old(log), old(incompletes.order), old(incompletes.weight), m);
        SpiltIs(old(incompletes.order), old(incompletes.items), old(incompletes.weight), old(log), m);
        return;
      }
      NoneGone(isImportant.value, incompletes.items);
      InOrderRefl(incompletes.order);
      NoRepeat();
      while incompletes.Len() > m.num || incompletes.weight > m.size
        invariant incompletes.Valid() && incompletes.maxSize == old(incompletes.maxSize)
        invariant incompletes.maxWeight == old(incompletes.maxWeight)
        invariant Mid(Now(), {}, {}) && Shrunk(incompletes.items, old(incompletes.items))
        invariant Explained(errs, released, log, calls) && OnlySpilled(old(log), log)
        invariant ImportantLast(isImportant.value, old(incompletes.items), incompletes.items)
        invariant InOrder(incompletes.order, old(incompletes.order))
        invariant OldestFirst(isImportant.value, old(incompletes.order), old(incompletes.items), incompletes.items)
        invariant Stopped(old(incompletes.items), old(log), old(incompletes.order), old(incompletes.weight), m)
        invariant within ==> incompletes.items == old(incompletes.items) && log == old(log)
        invariant within ==>
                    incompletes.order == old(incompletes.order) && incompletes.weight == old(incompletes.weight)
        decreases |incompletes.order|
      {
        NonEmpty(m);
        LenIs();
        var k := FirstUnimportant(isImportant.value);
        ghost var w, order := incompletes.items, incompletes.order;
        if k.Some? {
          UnimportantGone(isImportant.value, old(incompletes.items), w, k.value);
          OldestGone(isImportant.value, old(incompletes.order), old(incompletes.items), order, w, k.value);
          InOrderWithout(order, old(incompletes.order), k.value);
          Spill(k.value, old(incompletes.items), old(log), old(incompletes.order), old(incompletes.weight), m);
        } else {
          LastGone(isImportant.value, old(incompletes.order), old(incompletes.items));
          var evicted := SpillOldest(old(incompletes.items), old(log), old(incompletes.order),
              old(incompletes.weight), m);
          AllImportant(isImportant.value, old(incompletes.items), w, incompletes.items);
          InOrderPrefix(order, old(incompletes.order), incompletes.order);
          if !evicted {
            break;
          }
        }
      }
      WithinIs(m);
      StoppedIs(old(incompletes.items), old(log), old(incompletes.order), old(incompletes.weight), m);
      SpiltIs(old(incompletes.order), old(incompletes.items), old(incompletes.weight), old(log), m);
    }

    lemma NoRepeat()
      requires incompletes.Valid()
      ensures NoDup(incompletes.order)
    {
    }

    /** When all are important, the oldest is the oldest of its importance. */
    lemma LastGone(important: Event -> bool, order0: seq<EventId>, was: Waiting)
      requires incompletes.Valid() && |incompletes.order| > 0 && NoDup(order0) && InOrder(incompletes.order, order0)
      requires Shrunk(incompletes.items, was) && OldestFirst(important, order0, was, incompletes.items)
      ensures OldestFirst(important, order0, was,
                          incompletes.items - {incompletes.order[|incompletes.order| - 1]})
    {
      hide Before, InOrder, OldestFirst, Lru.WeightSum, NoDup;
      var k := incompletes.order[|incompletes.order| - 1];
      forall x | x in incompletes.items && x != k ensures Before(incompletes.order, x, k) {
        LastIsOldest(incompletes.order, x);
      }
      OldestGone(important, order0, was, incompletes.order, incompletes.items, k);
    }

    lemma SpiltIs(order0: seq<EventId>, was: Waiting, weight0: nat, log0: seq<Release>, m: Metric)
      requires Shrunk(incompletes.items, was) && OnlySpilled(log0, log)
      requires |incompletes.order| <= m.num && incompletes.weight <= m.size
      requires Stopped(was, log0, order0, weight0, m)
      requires |order0| <= m.num && weight0 <= m.size ==>
                 incompletes.items == was && incompletes.order == order0 && log == log0
      requires isImportant.None? ==>
                 && incompletes.order <= order0 && (forall k :: k in order0 ==> k in was)
                 && Lru.LongestFit(order0, was, |incompletes.order|, m.size, m.num)
      requires isImportant.Some? ==>
                 && ImportantLast(isImportant.value, was, incompletes.items)
                 && OldestFirst(isImportant.value, order0, was, incompletes.items)
      ensures SpiltTo(isImportant, order0, was, weight0, log0, incompletes.order, incompletes.items, incompletes.weight,
                      log, m)
    {
      hide Shrunk, OnlySpilled, Tight, ImportantLast, OldestFirst, Lru.LongestFit;
    }

    /** Nothing has been evicted, or the last eviction was needed. */
    ghost predicate Stopped(was: Waiting, logged: seq<Release>, order: seq<EventId>, weight: nat, m: Metric)
      reads this, incompletes
    {
      (incompletes.items == was && log == logged && incompletes.order == order && incompletes.weight == weight)
      || Tight(was, incompletes.items, log, |incompletes.order|, incompletes.weight, m)
    }

    method SpillOldest(
      ghost was: Waiting, ghost logged: seq<Release>, ghost order: seq<EventId>, ghost weight: nat, ghost m: Metric)
      returns (evicted: bool)
      requires incompletes.Valid() && Mid(Now(), {}, {}) && Shrunk(incompletes.items, was)
      requires Explained(errs, released, log, calls) && OnlySpilled(logged, log)
      requires incompletes.Len() > m.num || incompletes.weight > m.size
      modifies this`errs, this`released, this`log, incompletes
      ensures incompletes.Valid() && incompletes.maxSize == old(incompletes.maxSize)
      ensures incompletes.maxWeight == old(incompletes.maxWeight)
      ensures Mid(Now(), {}, {}) && Shrunk(incompletes.items, was) && Shrunk(incompletes.items, old(incompletes.items))
      ensures Explained(errs, released, log, calls) && OnlySpilled(logged, log)
      ensures evicted <==> |old(incompletes.order)| > 0
      ensures evicted ==>
                incompletes.order <= old(incompletes.order) && |incompletes.order| + 1 == |old(incompletes.order)|
                && incompletes.items == old(incompletes.items) - {old(incompletes.order)[|incompletes.order|]}
      ensures evicted ==> Stopped(was, logged, order, weight, m)
    {
      hide *;
      NowIs();
      ShrunkRefl(incompletes.items);
      ghost var s := Now();
      LenIs();
      var oldest := incompletes.RemoveOldest();
      NowIs();
      if oldest.None? {
        return false;
      }
      var key, e := oldest.value.0, oldest.value.1;
      Spilled(s, was, key, e);
      ReleaseSpilled(s, key, e, logged);
      NowTight(was, old(incompletes.items), key, incompletes.items, log, |incompletes.order|, incompletes.weight, m);
      StoppedNow(was, logged, order, weight, m);
      return true;
    }

    method Spill(
      key: EventId, ghost was: Waiting, ghost logged: seq<Release>, ghost order: seq<EventId>, ghost weight: nat,
          ghost m: Metric)
      requires incompletes.Valid() && Mid(Now(), {}, {}) && key in incompletes.items && Shrunk(incompletes.items, was)
      requires Explained(errs, released, log, calls) && OnlySpilled(logged, log)
      requires incompletes.Len() > m.num || incompletes.weight > m.size
      modifies this`errs, this`released, this`log, incompletes
      ensures incompletes.Valid() && incompletes.maxSize == old(incompletes.maxSize)
      ensures incompletes.maxWeight == old(incompletes.maxWeight)
      ensures Mid(Now(), {}, {}) && Shrunk(incompletes.items, was)
      ensures incompletes.items == old(incompletes.items) - {key}
      ensures incompletes.order == Lru.Without(old(incompletes.order), key)
      ensures Explained(errs, released, log, calls) && OnlySpilled(logged, log)
      ensures |incompletes.order| < |old(incompletes.order)| && Stopped(was, logged, order, weight, m)
    {
      hide *;
      NowIs();
      ghost var s := Now();
      LenIs();
      var e := incompletes.items[key].value;
      OneLess(key);
      var _ := incompletes.Remove(key);
      Spilled(s, was, key, e);
      NowIs();
      ReleaseSpilled(s, key, e, logged);
      NowTight(was, old(incompletes.items), key, incompletes.items, log, |incompletes.order|, incompletes.weight, m);
      StoppedNow(was, logged, order, weight, m);
    }

    method ReleaseSpilled(ghost s: Snap, key: EventId, e: Item, ghost logged: seq<Release>)
      requires Mid(s, {}, {}) && key in s.w && s.w[key].value == e && e.event.id == key && e in s.pushed
      requires Now() == s.(w := s.w - {key}) && Explained(errs, released, log, calls) && OnlySpilled(logged, log)
      modifies this`errs, this`released, this`log
      ensures Mid(Now(), {}, {}) && Explained(errs, released, log, calls) && OnlySpilled(logged, log)
      ensures log == old(log) + [Release(e, Some(SpilledEvent))]
    {
      hide *;
      NowIs();
      BufferedUnreleased(s, key);
      NotYetFailed(errs, released, log, calls, e);
      DropEvent(e, SpilledEvent);
      ErrorIs(e);
      MidRelease(s, {}, {}, e, ErrorOf(e));
      ExplainReleased(old(errs), e);
      OnlySpilledOne(logged, log, e);
      ReleaseEvent(e);
      MidRemove(s.(released := released, log := log), {}, key);
      NowIs();
    }

    /** What is left of the recency list weighs what that part of it weighed. */
    lemma PrefixWeight(order: seq<EventId>, was: Waiting)
      requires incompletes.Valid() && incompletes.order <= order && Shrunk(incompletes.items, was)
      requires forall k :: k in order ==> k in was
      ensures incompletes.order == order[..|incompletes.order|]
      ensures incompletes.weight == Lru.WeightSum(incompletes.order, was)
      ensures forall m :: |incompletes.order| == |order| ==> Needed(order, was, |incompletes.order|, m)
    {
      hide NoDup, Lru.WeightSum;
      Lru.WeightSame(incompletes.order, incompletes.items, was);
    }

    lemma OrderedIn()
      requires incompletes.Valid()
      ensures forall k :: k in incompletes.order ==> k in incompletes.items
    {
      hide NoDup, Lru.WeightSum;
    }

    lemma LenIs()
      ensures incompletes.Len() == |incompletes.order|
    {
    }

    lemma StoppedNow(was: Waiting, logged: seq<Release>, order: seq<EventId>, weight: nat, m: Metric)
      requires Tight(was, incompletes.items, log, |incompletes.order|, incompletes.weight, m)
      ensures Stopped(was, logged, order, weight, m)
    {
      hide Tight;
    }

    lemma StoppedIs(was: Waiting, logged: seq<Release>, order: seq<EventId>, weight: nat, m: Metric)
      ensures Stopped(was, logged, order, weight, m) <==>
              (incompletes.items == was && log == logged && incompletes.order == order && incompletes.weight == weight)
              || Tight(was, incompletes.items, log, |incompletes.order|, incompletes.weight, m)
    {
      hide Tight;
    }

    /** The oldest unimportant event, if there is one. */
    method FirstUnimportant(important: Event -> bool) returns (k: Option<EventId>)
      requires incompletes.Valid()
      ensures k.Some? ==> k.value in incompletes.items && !important(incompletes.items[k.value].value.event)
      ensures k.Some? ==>
                forall x :: x in incompletes.items && x != k.value && !important(incompletes.items[x].value.event) ==>
                  Before(incompletes.order, x, k.value)
      ensures k.None? ==> forall x :: x in incompletes.items ==> important(incompletes.items[x].value.event)
    {
      var keys := incompletes.Keys();
      for i := 0 to |keys|
        invariant forall j :: 0 <= j < i ==>
                    keys[j] in incompletes.items && important(incompletes.items[keys[j]].value.event)
      {
        var child := incompletes.Peek(keys[i]);
        if child.Some? && !important(child.value.event) {
          forall x | x in incompletes.items && x != keys[i] && !important(incompletes.items[x].value.event)
            ensures Before(incompletes.order, x, keys[i])
          {
            ListedBefore(keys, i, x);
          }
          return Some(keys[i]);
        }
      }
      forall x | x in incompletes.items ensures important(incompletes.items[x].value.event) {
        assert x in incompletes.order;
        var k :| 0 <= k < |incompletes.order| && incompletes.order[k] == x;
        assert keys[|keys| - 1 - k] == x;
      }
      return None;
    }

    /** What is not among the i oldest, and is not the next one, is more recent than that. */
    lemma ListedBefore(keys: seq<EventId>, i: nat, x: EventId)
      requires incompletes.Valid() && keys == Lru.Reversed(incompletes.order) && i < |keys|
      requires x in incompletes.items && forall j :: 0 <= j <= i ==> keys[j] != x
      ensures Before(incompletes.order, x, keys[i])
    {
      assert x in incompletes.order;
      var p :| 0 <= p < |incompletes.order| && incompletes.order[p] == x;
      assert keys[|keys| - 1 - p] == x && incompletes.order[|keys| - 1 - i] == keys[i];
    }

    lemma PeekIs(id: EventId)
      ensures incompletes.Peek(id).Some? <==> id in incompletes.items
    {
    }

    lemma WithinMore(m: Metric, more: Metric)
      requires Within(m) && m.num <= more.num && m.size <= more.size
      ensures Within(more)
    {
    }

    lemma OneLess(key: EventId)
      requires incompletes.Valid() && key in incompletes.items
      ensures |Lru.Without(incompletes.order, key)| + 1 == |incompletes.order|
    {
      hide Lru.WeightSum;
      Lru.WithoutKeeps(incompletes.order, key);
    }

    lemma NonEmpty(m: Metric)
      requires incompletes.Valid() && (incompletes.Len() > m.num || incompletes.weight > m.size)
      ensures |incompletes.order| > 0
    {
    }

    lemma WithinIs(m: Metric)
      requires incompletes.Valid()
      ensures Within(m) <==> !(incompletes.Len() > m.num || incompletes.weight > m.size)
      ensures incompletes.Len() == |incompletes.order|
      ensures m.num == 0 && Within(m) ==> incompletes.items == map[]
    {
      hide Lru.WeightSum;
      if incompletes.Len() == 0 {
        assert incompletes.items.Keys == {};
      }
    }

    lemma FitsIs(e: Item)
      requires Within(limit) && limit.num < incompletes.maxSize && limit.size + e.size <= incompletes.maxWeight
      ensures Fits(e)
    {
    }

    lemma ValidIs()
      ensures Valid() <==>
              && incompletes.Valid() && incompletes.maxSize == MAX_INT32 && incompletes.maxWeight == MAX_INT32
              && Mid(Now(), {}, {}) && Overdue(connected, incompletes.items) == {}
              && Within(limit) && Explained(errs, released, log, calls) && forall it :: it in pushed ==>
                  it.num < nextNum
    {
      hide Explained, Mid, Overdue, Within, Now, NoDup, Lru.WeightSum;
    }

    /** The release of e, as it is about to be logged, keeps every failure explained. */
    lemma ExplainReleased(before: map<Item, Error>, e: Item)
      requires Explained(before, released, log, calls) && errs.Keys <= before.Keys + {e}
      requires e !in released && ErrorOf(e) == Some(CheckFailed) ==> Checked(e.event.id, false) in calls
      requires e !in released && ErrorOf(e) == Some(ProcessFailed) ==> Processed(e.event.id, false) in calls
      ensures Explained(errs, released + {e}, if e in released then log else log + [Release(e, ErrorOf(e))], calls)
    {
      hide Explained, ErrorOf;
      if e in released {
        ExplainedAgain(before, errs, released, log, calls, e);
      } else {
        ExplainedRelease(before, errs, released, log, calls, e, ErrorOf(e));
      }
    }

    /** Removing what is not there changes nothing. */
    lemma AbsentRemove(id: EventId)
      requires incompletes.Valid()
      ensures id !in incompletes.items ==>
                Lru.Without(incompletes.order, id) == incompletes.order && incompletes.items - {id} == incompletes.items
      ensures |Lru.Without(incompletes.order, id)| <= |incompletes.order|
    {
      hide Lru.WeightSum, NoDup;
      Lru.WithoutKeeps(incompletes.order, id);
    }

    ghost predicate Fits(e: Item)
      reads incompletes
    {
      incompletes.weight + e.size <= incompletes.maxWeight && |incompletes.order| < incompletes.maxSize
    }

    lemma ErrorIs(e: Item)
      ensures ErrorOf(e) == if e in errs then Some(errs[e]) else None
    {
    }

    lemma NowIs()
      ensures Now() == Snap(connected, incompletes.items, released, log, pushed, processed)
    {
    }
  }

  lemma TriedCalls(before: seq<Call>, calls: seq<Call>, id: EventId, hasCheck: bool, ok: bool)
    requires Tried(before, calls, id, hasCheck, ok)
    ensures before <= calls && forall c :: c in calls[|before|..] ==> c in calls
  {
  }

  lemma FirstKept(logged: seq<Release>, log: seq<Release>)
    requires OnlyTried(logged, log)
    ensures logged <= log
  {
  }

  lemma InstanceOf(s: Snap, active: set<EventId>, hand: set<Item>, e: Item, given: Option<seq<Item>>, recheck: bool)
    requires Mid(s, active, hand) && hand == (if recheck then {} else {e})
    requires recheck ==> given.Some? && Matches(s.w, given.value) && e in given.value
    ensures e.event.id in s.w ==> recheck && s.w[e.event.id].value == e
    ensures !recheck ==> e.event.id !in s.w
  {
    hide Logged, NoDup;
  }

  lemma FiledIs(s: Snap, active: set<EventId>, hand: set<Item>)
    requires Mid(s, active, hand)
    ensures Filed(s.w, s.pushed)
  {
    hide Filed, Logged, Conserved, NoDup;
  }

  lemma KnownIs(list: seq<Item>, pushed: set<Item>, universe: set<EventId>, w: Waiting)
    requires forall it :: it in list ==> it in pushed && it.event.id in w
    requires forall x :: x in w ==> x in universe
    ensures Known(list, pushed, universe)
  {
  }

  lemma KnownAt(list: seq<Item>, i: nat, pushed: set<Item>, universe: set<EventId>)
    requires Known(list, pushed, universe) && i < |list|
    ensures list[i] in list && list[i] in pushed && list[i].event.id in universe
  {
  }

  lemma ShrunkRefl(w: Waiting)
    ensures Shrunk(w, w)
  {
  }

  lemma ShrunkRemove(was: Waiting, w: Waiting, id: EventId)
    requires Shrunk(w, was)
    ensures Shrunk(w - {id}, was)
  {
  }

  lemma ShrunkInstance(was: Waiting, w: Waiting, e: Item, released: set<Item>)
    requires Shrunk(w, was) && (e.event.id in was ==> was[e.event.id].value == e) && e in released
    ensures e.event.id in w ==> w[e.event.id].value in released
  {
  }

  lemma ShrunkLists(before: Waiting, w: Waiting, was: Waiting, list: seq<Item>)
    requires Shrunk(w, before) && Shrunk(before, was) && Listed(before, list) && Matches(before, list)
    ensures Shrunk(w, was) && Listed(w, list) && Matches(w, list)
  {
  }

  lemma Fewer(universe: set<EventId>, c0: set<EventId>, c1: set<EventId>, id: EventId)
    requires id in universe && id !in c0 && c0 + {id} <= c1
    ensures |universe - c1| < |universe - c0|
  {
    assert universe - c1 <= universe - c0 - {id};
    Smaller(universe - c1, universe - c0 - {id});
  }

  lemma {:induction false} Smaller(a: set<EventId>, b: set<EventId>)
    requires a <= b
    ensures |a| <= |b|
    decreases a
  {
    if a != {} {
      var x :| x in a;
      Smaller(a - {x}, b - {x});
    }
  }

  /** If an important event is gone, only important ones are left. */
  ghost predicate ImportantLast(important: Event -> bool, was: Waiting, w: Waiting) {
    (exists x :: x in was && x !in w && important(was[x].value.event)) ==> forall x :: x in w ==>
        important(w[x].value.event)
  }

  /** x is listed before y: it is the more recent one. */
  ghost predicate Before(s: seq<EventId>, x: EventId, y: EventId) {
    exists a, b :: 0 <= a < b < |s| && s[a] == x && s[b] == y
  }

  ghost predicate InOrder(order: seq<EventId>, was: seq<EventId>) {
    forall x, y :: Before(order, x, y) ==> Before(was, x, y)
  }

  /** Of two events of the same importance the older one goes first. */
  ghost predicate OldestFirst(important: Event -> bool, order: seq<EventId>, was: Waiting, w: Waiting) {
    forall x, y ::
      (Before(order, x, y) && y in w && x in was && y in was
       && important(was[x].value.event) == important(was[y].value.event)) ==> x in w
  }

  lemma BeforeOnce(s: seq<EventId>, x: EventId, y: EventId)
    requires NoDup(s) && Before(s, x, y)
    ensures !Before(s, y, x)
  {
  }

  lemma InOrderRefl(s: seq<EventId>)
    ensures InOrder(s, s)
  {
  }

  lemma {:induction false} WithoutBefore(s: seq<EventId>, key: EventId, x: EventId, y: EventId)
    requires Before(Lru.Without(s, key), x, y)
    ensures Before(s, x, y)
  {
    if s != [] {
      var rest := Lru.Without(s[1..], key);
      var a, b :| 0 <= a < b < |Lru.Without(s, key)| && Lru.Without(s, key)[a] == x && Lru.Without(s, key)[b] == y;
      if s[0] != key && a == 0 {
        assert y == rest[b - 1] && y in rest;
        Lru.WithoutKeeps(s[1..], key);
        var j :| 0 <= j < |s[1..]| && s[1..][j] == y;
        assert s[j + 1] == y;
      } else {
        var skip := if s[0] == key then 0 else 1;
        assert x == rest[a - skip] && y == rest[b - skip];
        WithoutBefore(s[1..], key, x, y);
        var i, j :| 0 <= i < j < |s[1..]| && s[1..][i] == x && s[1..][j] == y;
        assert s[i + 1] == x && s[j + 1] == y;
      }
    }
  }

  lemma InOrderWithout(order: seq<EventId>, was: seq<EventId>, key: EventId)
    requires InOrder(order, was)
    ensures InOrder(Lru.Without(order, key), was)
  {
    hide Before;
    forall x, y | Before(Lru.Without(order, key), x, y) ensures Before(was, x, y) {
      WithoutBefore(order, key, x, y);
    }
  }

  lemma InOrderPrefix(order: seq<EventId>, was: seq<EventId>, next: seq<EventId>)
    requires InOrder(order, was) && next <= order
    ensures InOrder(next, was)
  {
    forall x, y | Before(next, x, y) ensures Before(was, x, y) {
      assert Before(order, x, y);
    }
  }

  /** Evicting the oldest of its importance. */
  lemma OldestGone(
    important: Event -> bool, order0: seq<EventId>, was: Waiting, order: seq<EventId>, w: Waiting, k: EventId)
    requires NoDup(order0) && InOrder(order, order0) && OldestFirst(important, order0, was, w) && Shrunk(w, was)
    requires k in w
    requires forall x :: x in w && x != k && important(w[x].value.event) == important(w[k].value.event) ==>
               Before(order, x, k)
    ensures OldestFirst(important, order0, was, w - {k})
  {
    hide Before, NoDup;
    forall x, y |
      Before(order0, x, y) && y in w - {k} && x in was && y in was
      && important(was[x].value.event) == important(was[y].value.event)
      ensures x in w - {k}
    {
      if x == k {
        assert Before(order, y, k);
        BeforeOnce(order0, x, y);
        assert false;
      }
    }
  }

  lemma LastIsOldest(order: seq<EventId>, x: EventId)
    requires x in order && x != order[|order| - 1]
    ensures Before(order, x, order[|order| - 1])
  {
  }

  /**
   What spilling down to a limit leaves of a buffer: everything if it is within the limit, otherwise no less than
   needed. Older events go before more recent ones, and unimportant ones before important ones.
   */
  ghost predicate SpiltTo(
    important: Option<Event -> bool>, order0: seq<EventId>, was: Waiting, weight0: nat, log0: seq<Release>,
    order: seq<EventId>, w: Waiting, weight: nat, log: seq<Release>, m: Metric)
  {
    && Shrunk(w, was) && OnlySpilled(log0, log) && |order| <= m.num && weight <= m.size
    && (if |order0| <= m.num && weight0 <= m.size then w == was && order == order0 && log == log0
        else Tight(was, w, log, |order|, weight, m))
    && (important.None? ==>
          && order <= order0 && (forall k :: k in order0 ==> k in was)
          && Lru.LongestFit(order0, was, |order|, m.size, m.num))
    && (important.Some? ==>
          ImportantLast(important.value, was, w) && OldestFirst(important.value, order0, was, w))
  }

  lemma SpiltWithin(
    important: Option<Event -> bool>, order0: seq<EventId>, was: Waiting, weight0: nat, log0: seq<Release>,
    order: seq<EventId>, w: Waiting, weight: nat, log: seq<Release>, m: Metric)
    requires SpiltTo(important, order0, was, weight0, log0, order, w, weight, log, m)
    ensures |order0| <= m.num && weight0 <= m.size ==> w == was && order == order0 && log == log0
  {
    hide Shrunk, OnlySpilled, Tight, ImportantLast, OldestFirst, Lru.LongestFit;
  }

  ghost predicate ReleasedSince(before: seq<Release>, log: seq<Release>, it: Item) {
    exists i :: |before| <= i < |log| && log[i].item == it
  }

  /** What is no longer buffered has been released in between. */
  lemma GoneReleased(s: Snap, next: Snap)
    requires Mid(s, {}, {}) && Mid(next, {}, {}) && s.pushed <= next.pushed && s.log <= next.log
    ensures forall x :: x in s.w && x !in next.w ==> ReleasedSince(s.log, next.log, s.w[x].value)
  {
    hide NoDup;
    forall x | x in s.w && x !in next.w ensures ReleasedSince(s.log, next.log, s.w[x].value) {
      var it := s.w[x].value;
      BufferedUnreleased(s, x);
      assert it in next.released;
      var i :| 0 <= i < |next.log| && next.log[i].item == it;
    }
  }

  lemma NoneGone(important: Event -> bool, w: Waiting)
    ensures ImportantLast(important, w, w) && forall order :: OldestFirst(important, order, w, w)
  {
  }

  lemma UnimportantGone(important: Event -> bool, was: Waiting, w: Waiting, k: EventId)
    requires ImportantLast(important, was, w) && Shrunk(w, was) && k in w && !important(w[k].value.event)
    ensures ImportantLast(important, was, w - {k})
  {
  }

  lemma AllImportant(important: Event -> bool, was: Waiting, w: Waiting, next: Waiting)
    requires Shrunk(next, w) && forall x :: x in w ==> important(w[x].value.event)
    ensures ImportantLast(important, was, next)
  {
  }

  lemma Spilled(s: Snap, was: Waiting, key: EventId, e: Item)
    requires Mid(s, {}, {}) && key in s.w && s.w[key].value == e && Shrunk(s.w, was)
    ensures e.event.id == key && e in s.pushed && Shrunk(s.w - {key}, was) && Shrunk(s.w - {key}, s.w)
  {
    hide Logged, Conserved, NoDup;
  }

  /** The last released event, put back, would exceed the limit. */
  ghost predicate Tight(was: Waiting, w: Waiting, log: seq<Release>, num: nat, weight: nat, m: Metric) {
    && |log| > 0
    && var k := log[|log| - 1].item.event.id;
       k in was && k !in w && (num + 1 > m.num || weight + was[k].weight > m.size)
  }

  lemma NowTight(
    was: Waiting, before: Waiting, key: EventId, w: Waiting, log: seq<Release>, num: nat, weight: nat, m: Metric)
    requires Shrunk(before, was) && key in before && w == before - {key}
    requires |log| > 0 && log[|log| - 1].item.event.id == key
    requires num + 1 > m.num || weight + before[key].weight > m.size
    ensures Tight(was, w, log, num, weight, m)
  {
    assert key in was && key !in w && was[key] == before[key];
  }

  /** One entry more than the first n would exceed the limit. */
  ghost predicate Needed(order: seq<EventId>, was: Waiting, n: nat, m: Metric)
    requires n <= |order| && forall k :: k in order ==> k in was
  {
    n < |order| ==> n + 1 > m.num || Lru.WeightSum(order[..n + 1], was) > m.size
  }

  lemma NeededNow(order: seq<EventId>, was: Waiting, n: nat, m: Metric)
    requires 0 < n <= |order| && (forall k :: k in order ==> k in was)
    requires n > m.num || Lru.WeightSum(order[..n], was) > m.size
    ensures Needed(order, was, n - 1, m)
  {
    hide Lru.WeightSum;
  }

  lemma FitIs(order: seq<EventId>, was: Waiting, n: nat, m: Metric)
    requires n <= |order| && (forall k :: k in order ==> k in was) && Needed(order, was, n, m)
    requires n <= m.num && Lru.WeightSum(order[..n], was) <= m.size
    ensures Lru.LongestFit(order, was, n, m.size, m.num)
  {
    hide Lru.WeightSum;
  }

  lemma NothingSpilled(log: seq<Release>)
    ensures OnlySpilled(log, log)
  {
  }

  lemma SpilledKeeps(before: seq<Release>, log: seq<Release>)
    requires OnlySpilled(before, log)
    ensures before <= log
  {
  }

  lemma BufferedUnreleased(s: Snap, key: EventId)
    requires Mid(s, {}, {}) && key in s.w
    ensures s.w[key].value !in s.released
  {
    hide Logged, NoDup;
    assert Buffered(s.w, s.w[key].value);
  }

  lemma DuplicateReleased(s: Snap, e: Item, err: Option<Error>)
    requires Mid(s, {}, {}) && e !in s.pushed && err.Some?
    ensures Mid(s.(pushed := s.pushed + {e}, released := s.released + {e}, log := s.log + [Release(e, err)]), {}, {})
  {
    hide Logged, NoDup;
    ReleaseLogged(s.connected, s.released, s.log, e, err);
  }

  lemma NewItem(s: Snap, e: Item)
    requires Mid(s, {}, {}) && e !in s.pushed
    ensures e !in s.released
    ensures e.event.id !in s.w ==> Mid(s.(pushed := s.pushed + {e}), {}, {e})
  {
    hide Logged, NoDup;
  }

  /** Conservation: between calls an instance is buffered and unreleased, or has been released exactly once. */
  lemma Conservation(b: EventsBuffer, it: Item)
    requires b.Valid() && it in b.pushed
    ensures Buffered(b.incompletes.items, it) <==> it !in b.released
    ensures it in b.released <==> exists i :: 0 <= i < |b.log| && b.log[i].item == it
    ensures forall i, j :: 0 <= i < |b.log| && 0 <= j < |b.log| && b.log[i].item == it && b.log[j].item == it ==> i == j
  {
    hide NoDup, Lru.WeightSum, Overdue;
  }

  /** Between calls every buffered event lacks a parent. */
  lemma BufferedLacksParent(b: EventsBuffer, id: EventId)
    requires b.Valid() && id in b.incompletes.items
    ensures exists p :: p in b.incompletes.items[id].value.event.parents && p !in b.connected
  {
    hide NoDup, Lru.WeightSum, Mid;
    assert id !in Overdue(b.connected, b.incompletes.items);
  }
}
