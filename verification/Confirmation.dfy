/** The confirmation walk (abft/lachesis.go confirmEvents over abft/traversal.go dfsSubgraph). */
module Confirmations {
  import opened Basics
  import opened Dags

  /** x is an ancestor of one of the first n Atropoi. */
  ghost predicate Covered(g: Dag, atropoi: seq<EventId>, n: nat, x: EventId)
    requires n <= |atropoi| && forall i :: 0 <= i < |atropoi| ==> atropoi[i] in g
  {
    exists i :: 0 <= i < n && Observes(g, atropoi[i], x)
  }

  /** x is confirmed with the i-th Atropos: its ancestor, and nobody's before. */
  ghost predicate ConfirmedWith(g: Dag, atropoi: seq<EventId>, i: nat, x: EventId)
    requires i < |atropoi| && forall j :: 0 <= j < |atropoi| ==> atropoi[j] in g
  {
    Observes(g, atropoi[i], x) && !Covered(g, atropoi, i, x)
  }

  /** The marks say, for every confirmed event, the frame of the Atropos it was confirmed with. */
  ghost predicate MarksRight(g: Dag, atropoi: seq<EventId>, frames: seq<nat>, confirmedOn: map<EventId, nat>) {
    && |frames| == |atropoi| && (forall i :: 0 <= i < |atropoi| ==> atropoi[i] in g)
    && (forall x :: x in confirmedOn <==> Covered(g, atropoi, |atropoi|, x))
    && (forall i, x :: 0 <= i < |atropoi| && ConfirmedWith(g, atropoi, i, x) && x in confirmedOn ==>
          confirmedOn[x] == frames[i])
  }

  lemma CoveredMore(g: Dag, atropoi: seq<EventId>, a: EventId, n: nat, x: EventId)
    requires a in g && n <= |atropoi| && forall i :: 0 <= i < |atropoi| ==> atropoi[i] in g
    ensures Covered(g, atropoi + [a], n, x) <==> Covered(g, atropoi, n, x)
    ensures Covered(g, atropoi + [a], |atropoi| + 1, x) <==> Covered(g, atropoi, |atropoi|, x) || Observes(g, a, x)
  {
    hide Observes;
    var all := atropoi + [a];
    assert forall i :: 0 <= i < |atropoi| ==> all[i] == atropoi[i];
    if Observes(g, a, x) {
      assert Observes(g, all[|atropoi|], x);
    }
    if i :| 0 <= i < n && Observes(g, atropoi[i], x) {
      assert Observes(g, all[i], x);
    }
    if i :| 0 <= i < |atropoi| && Observes(g, atropoi[i], x) {
      assert Observes(g, all[i], x);
    }
  }

  /** The events of a block depend only on the Atropoi up to it: more Atropoi never change a mark. */
  lemma MarksLast(
    g: Dag, atropoi: seq<EventId>, frames: seq<nat>, m: map<EventId, nat>,
    atropoi2: seq<EventId>, frames2: seq<nat>, m2: map<EventId, nat>)
    requires MarksRight(g, atropoi, frames, m) && MarksRight(g, atropoi2, frames2, m2)
    requires atropoi <= atropoi2 && frames <= frames2
    ensures forall x :: x in m ==> x in m2 && m2[x] == m[x]
  {
    hide Observes;
    forall x | x in m ensures x in m2 && m2[x] == m[x] {
      var i := FirstCover(g, atropoi, |atropoi|, x);
      assert ConfirmedWith(g, atropoi2, i, x);
      CoveredBy(g, atropoi2, i, x);
    }
  }

  lemma {:induction false} FirstCover(g: Dag, atropoi: seq<EventId>, n: nat, x: EventId) returns (i: nat)
    requires n <= |atropoi| && (forall j :: 0 <= j < |atropoi| ==> atropoi[j] in g) && Covered(g, atropoi, n, x)
    ensures i < n && ConfirmedWith(g, atropoi, i, x)
  {
    hide Observes;
    if Covered(g, atropoi, n - 1, x) {
      i := FirstCover(g, atropoi, n - 1, x);
    } else {
      i := n - 1;
    }
  }

  /** Confirmed events with the walk's stack: nothing observed gets lost. */
  ghost predicate Frontier(g: Dag, confirmed: set<EventId>, stack: seq<EventId>) {
    forall x, p :: x in confirmed && x in g && p in g[x].parents ==> p in confirmed || p in stack
  }

  lemma MarksGrow(
    g: Dag, atropoi: seq<EventId>, frames: seq<nat>, was: map<EventId, nat>, a: EventId, frame: nat,
    now: map<EventId, nat>)
    requires MarksRight(g, atropoi, frames, was) && a in g
    requires forall x :: x in now <==> x in was || Observes(g, a, x)
    requires forall x :: x in now ==> now[x] == if x in was then was[x] else frame
    ensures MarksRight(g, atropoi + [a], frames + [frame], now)
  {
    hide Observes, Covered, ConfirmedWith;
    var all := atropoi + [a];
    forall x ensures x in now <==> Covered(g, all, |all|, x) {
      CoveredMore(g, atropoi, a, |atropoi|, x);
    }
    forall i, x | 0 <= i < |all| && ConfirmedWith(g, all, i, x) && x in now ensures now[x] == (frames + [frame])[i] {
      ConfirmedMore(g, atropoi, a, i, x);
      assert i < |atropoi| ==> ConfirmedWith(g, atropoi, i, x);
    }
  }

  lemma ConfirmedMore(g: Dag, atropoi: seq<EventId>, a: EventId, i: nat, x: EventId)
    requires a in g && i <= |atropoi| && forall j :: 0 <= j < |atropoi| ==> atropoi[j] in g
    requires ConfirmedWith(g, atropoi + [a], i, x)
    ensures i < |atropoi| ==> ConfirmedWith(g, atropoi, i, x) && Covered(g, atropoi, |atropoi|, x)
    ensures i == |atropoi| ==> !Covered(g, atropoi, |atropoi|, x)
  {
    hide Observes, Covered;
    CoveredMore(g, atropoi, a, i, x);
    if i < |atropoi| {
      CoveredBy(g, atropoi, i, x);
    }
  }

  lemma CoveredBy(g: Dag, atropoi: seq<EventId>, i: nat, x: EventId)
    requires i < |atropoi| && (forall j :: 0 <= j < |atropoi| ==> atropoi[j] in g) && Observes(g, atropoi[i], x)
    ensures Covered(g, atropoi, |atropoi|, x)
  {
    hide Observes;
  }

  lemma CoveredClosed(g: Dag, atropoi: seq<EventId>, frames: seq<nat>, m: map<EventId, nat>)
    requires MarksRight(g, atropoi, frames, m)
    ensures Closed(g, m.Keys)
  {
    forall x | x in m ensures x in g && forall p :: p in g[x].parents ==> p in m {
      var i :| 0 <= i < |atropoi| && Observes(g, atropoi[i], x);
      ObservesOlder(g, atropoi[i], x);
      forall p | p in g[x].parents ensures p in m {
        assert Observes(g, x, p) by { assert Observes(g, p, p); }
        ObservesTrans(g, atropoi[i], x, p);
        CoveredBy(g, atropoi, i, p);
      }
    }
  }

  ghost function Elements(s: seq<EventId>): set<EventId> {
    set x | x in s
  }

  lemma FewerLeft(g: Dag, marked: set<EventId>, x: EventId)
    requires x in g && x !in marked
    ensures |g.Keys - (marked + {x})| < |g.Keys - marked|
  {
    assert g.Keys - marked == (g.Keys - (marked + {x})) + {x};
  }

  /** The events a walk confirms, in order: the top of the stack unless it is marked, then its parents on top. */
  ghost function WalkFrom(g: Dag, marked: set<EventId>, stack: seq<EventId>): seq<EventId>
    requires forall x :: x in stack ==> x in g
    decreases |g.Keys - marked|, |stack|
  {
    if stack == [] then []
    else
      var x, rest := stack[|stack| - 1], stack[..|stack| - 1];
      assert x in stack;
      if x in marked then WalkFrom(g, marked, rest)
      else
        FewerLeft(g, marked, x);
        [x] + WalkFrom(g, marked + {x}, rest + g[x].parents)
  }

  lemma NoMoreLeft(g: Dag, marked: set<EventId>, more: set<EventId>)
    ensures |g.Keys - (marked + more)| <= |g.Keys - marked|
  {
    var rest := (g.Keys - marked) * more;
    assert g.Keys - marked == (g.Keys - (marked + more)) + rest;
  }

  /** Depth first: an unmarked event, then all that its parents lead to, the last parent first. */
  ghost function Dfs(g: Dag, marked: set<EventId>, x: EventId): seq<EventId>
    requires x in g
    decreases |g.Keys - marked|, 0
  {
    if x in marked then []
    else
      FewerLeft(g, marked, x);
      [x] + DfsAll(g, marked + {x}, g[x].parents)
  }

  ghost function DfsAll(g: Dag, marked: set<EventId>, xs: seq<EventId>): seq<EventId>
    requires forall x :: x in xs ==> x in g
    decreases |g.Keys - marked|, 1 + |xs|
  {
    if xs == [] then []
    else
      assert xs[|xs| - 1] in xs;
      var first := Dfs(g, marked, xs[|xs| - 1]);
      NoMoreLeft(g, marked, Elements(first));
      first + DfsAll(g, marked + Elements(first), xs[..|xs| - 1])
  }

  lemma ElementsConcat(a: seq<EventId>, b: seq<EventId>)
    ensures Elements(a + b) == Elements(a) + Elements(b)
  {
  }

  lemma {:induction false} DfsConcat(g: Dag, marked: set<EventId>, a: seq<EventId>, b: seq<EventId>)
    requires forall x :: x in a + b ==> x in g
    ensures (forall x :: x in a ==> x in g) && (forall x :: x in b ==> x in g)
    ensures DfsAll(g, marked, a + b) ==
            DfsAll(g, marked, b) + DfsAll(g, marked + Elements(DfsAll(g, marked, b)), a)
    decreases |b|
  {
    hide Dfs;
    assert forall x :: x in a ==> x in a + b;
    assert forall x :: x in b ==> x in a + b;
    if b == [] {
      assert a + b == a && marked + Elements([]) == marked;
    } else {
      var init, last := b[..|b| - 1], b[|b| - 1];
      assert (a + b)[..|a + b| - 1] == a + init && (a + b)[|a + b| - 1] == last;
      assert forall x :: x in a + init ==> x in a + b;
      var first := Dfs(g, marked, last);
      DfsConcat(g, marked + Elements(first), a, init);
      var rest := DfsAll(g, marked + Elements(first), init);
      ElementsConcat(first, rest);
      assert marked + Elements(first) + Elements(rest) == marked + Elements(first + rest);
    }
  }

  /** The parents of an unmarked event take its place on the stack. */
  lemma DfsPush(g: Dag, marked: set<EventId>, rest: seq<EventId>, x: EventId)
    requires x in g && x !in marked && forall y :: y in rest ==> y in g
    ensures forall y :: y in rest + g[x].parents ==> y in g
    ensures DfsAll(g, marked, rest + [x]) == [x] + DfsAll(g, marked + {x}, rest + g[x].parents)
  {
    hide *;
    DfsOne(g, marked, x);
    DfsConcat(g, marked, rest, [x]);
    DfsConcat(g, marked + {x}, rest, g[x].parents);
    var below := DfsAll(g, marked + {x}, g[x].parents);
    ElementsConcat([x], below);
    ElementsOne(x);
    assert marked + {x} + Elements(below) == marked + Elements([x] + below);
  }

  lemma ElementsOne(x: EventId)
    ensures Elements([x]) == {x}
  {
  }

  lemma DfsOne(g: Dag, marked: set<EventId>, x: EventId)
    requires x in g
    ensures DfsAll(g, marked, [x]) == Dfs(g, marked, x)
    ensures forall y :: y in g[x].parents ==> y in g
    ensures Dfs(g, marked, x) == if x in marked then [] else [x] + DfsAll(g, marked + {x}, g[x].parents)
  {
    assert [x][..0] == [];
  }

  /** The walk with a stack is the recursive depth-first walk. */
  lemma {:induction false} WalkIsDfs(g: Dag, marked: set<EventId>, stack: seq<EventId>)
    requires forall x :: x in stack ==> x in g
    ensures WalkFrom(g, marked, stack) == DfsAll(g, marked, stack)
    decreases |g.Keys - marked|, |stack|
  {
    hide Dfs;
    if stack != [] {
      var x, rest := stack[|stack| - 1], stack[..|stack| - 1];
      assert x in stack && stack == rest + [x];
      if x in marked {
        DfsOne(g, marked, x);
        assert marked + Elements([]) == marked;
        WalkIsDfs(g, marked, rest);
      } else {
        FewerLeft(g, marked, x);
        WalkIsDfs(g, marked + {x}, rest + g[x].parents);
        DfsPush(g, marked, rest, x);
      }
    }
  }

  /** The events that a sequence of Atropoi confirms, in the order they reach the application. */
  ghost function AppliedBy(g: Dag, atropoi: seq<EventId>): seq<EventId>
    requires forall i :: 0 <= i < |atropoi| ==> atropoi[i] in g
  {
    if atropoi == [] then []
    else
      var before := AppliedBy(g, atropoi[..|atropoi| - 1]);
      before + WalkFrom(g, Elements(before), [atropoi[|atropoi| - 1]])
  }

  lemma AppliedNext(g: Dag, atropoi: seq<EventId>, a: EventId)
    requires a in g && forall i :: 0 <= i < |atropoi| ==> atropoi[i] in g
    ensures AppliedBy(g, atropoi + [a]) == AppliedBy(g, atropoi) + WalkFrom(g, Elements(AppliedBy(g, atropoi)), [a])
  {
    hide WalkFrom;
    assert (atropoi + [a])[..|atropoi + [a]| - 1] == atropoi;
  }

  /** More Atropoi only append to what is applied. */
  lemma {:induction false} AppliedPrefix(g: Dag, atropoi: seq<EventId>, more: seq<EventId>)
    requires atropoi <= more && forall i :: 0 <= i < |more| ==> more[i] in g
    ensures AppliedBy(g, atropoi) <= AppliedBy(g, more)
    decreases |more|
  {
    hide WalkFrom;
    if atropoi != more {
      AppliedPrefix(g, atropoi, more[..|more| - 1]);
    }
  }

  /** The walk is the same on every graph that holds its events. */
  lemma {:induction false} WalkStable(g: Dag, h: Dag, marked: set<EventId>, stack: seq<EventId>)
    requires Extends(g, h) && forall x :: x in stack ==> x in g
    ensures WalkFrom(g, marked, stack) == WalkFrom(h, marked, stack)
    decreases |g.Keys - marked|, |stack|
  {
    if stack != [] {
      var x, rest := stack[|stack| - 1], stack[..|stack| - 1];
      assert x in stack;
      if x in marked {
        WalkStable(g, h, marked, rest);
      } else {
        FewerLeft(g, marked, x);
        WalkStable(g, h, marked + {x}, rest + g[x].parents);
      }
    }
  }

  lemma {:induction false} AppliedStable(g: Dag, h: Dag, atropoi: seq<EventId>)
    requires Extends(g, h) && forall i :: 0 <= i < |atropoi| ==> atropoi[i] in g
    ensures AppliedBy(g, atropoi) == AppliedBy(h, atropoi)
    decreases |atropoi|
  {
    hide WalkFrom;
    if atropoi != [] {
      var init := atropoi[..|atropoi| - 1];
      AppliedStable(g, h, init);
      WalkStable(g, h, Elements(AppliedBy(g, init)), [atropoi[|atropoi| - 1]]);
    }
  }

  /** Marks over a graph are marks over every larger one. */
  lemma MarksGrowWith(g: Dag, h: Dag, atropoi: seq<EventId>, frames: seq<nat>, m: map<EventId, nat>)
    requires Extends(g, h) && MarksRight(g, atropoi, frames, m)
    ensures MarksRight(h, atropoi, frames, m)
  {
    hide Observes;
    forall i, x | 0 <= i < |atropoi| ensures Observes(g, atropoi[i], x) <==> Observes(h, atropoi[i], x) {
      ObservesStable(g, h, atropoi[i], x);
    }
    forall x, n: nat | n <= |atropoi| ensures Covered(g, atropoi, n, x) <==> Covered(h, atropoi, n, x) {
    }
    hide Covered;
    assert forall i: nat, x :: i < |atropoi| ==> (ConfirmedWith(g, atropoi, i, x) <==> ConfirmedWith(h, atropoi, i, x));
  }

  /** The callback has had each confirmed event once; a mark is never the zero that means unconfirmed. */
  ghost predicate AppliedOnce(confirmedOn: map<EventId, nat>, applied: seq<EventId>) {
    && NoDup(applied) && (forall x :: x in applied <==> x in confirmedOn)
    && (forall x :: x in confirmedOn ==> confirmedOn[x] > 0)
  }

  /** The walk from an Atropos, under way. */
  ghost predicate Walking(
    g: Dag, atropos: EventId, frame: nat, was: map<EventId, nat>, now: map<EventId, nat>, applied: seq<EventId>,
        stack: seq<EventId>)
  {
    && atropos in g && (forall x :: x in stack ==> x in g && Observes(g, atropos, x))
    && Frontier(g, now.Keys, stack) && (atropos in now || atropos in stack)
    && (forall x :: x in was ==> x in now && now[x] == was[x])
    && (forall x :: x in now ==> x in was || (Observes(g, atropos, x) && now[x] == frame))
    && AppliedOnce(now, applied)
  }

  class Confirmation {
    const input: Dag
    var confirmedOn: map<EventId, nat>
    var applied: seq<EventId>             // events handed to the callback, in order
    ghost var atropoi: seq<EventId>
    ghost var frames: seq<nat>

    ghost predicate Valid()
      reads this
    {
      && MarksRight(input, atropoi, frames, confirmedOn) && (forall i :: 0 <= i < |frames| ==> frames[i] > 0)
      && AppliedOnce(confirmedOn, applied) && applied == AppliedBy(input, atropoi)
    }

    constructor (input: Dag)
      ensures Valid() && this.input == input && confirmedOn == map[] && applied == [] && atropoi == [] && frames == []
    {
      this.input := input;
      confirmedOn, applied, atropoi, frames := map[], [], [], [];
    }

    /**
     confirmEvents: false if the Atropos is not found. Otherwise exactly its ancestors that no earlier Atropos
     had are marked with the frame, and each goes to the callback once.
     */
    method ConfirmEvents(frame: nat, atropos: EventId) returns (ok: bool)
      requires Valid() && frame > 0
      modifies this
      ensures Valid() && (ok <==> atropos in input)
      ensures !ok ==>
                confirmedOn == old(confirmedOn) && applied == old(applied) && atropoi == old(atropoi)
                && frames == old(frames)
      ensures ok ==> atropoi == old(atropoi) + [atropos] && frames == old(frames) + [frame]
      ensures ok ==> forall x :: x in confirmedOn <==> x in old(confirmedOn) || Observes(input, atropos, x)
      ensures ok ==>
                forall x :: x in confirmedOn ==>
                    confirmedOn[x] == if x in old(confirmedOn) then old(confirmedOn)[x] else frame
      ensures ok ==> applied == old(applied) + Dfs(input, old(confirmedOn).Keys, atropos)
    {
      hide *;
      ValidParts();
      if atropos !in input {
        return false;
      }
      CoveredClosed(input, atropoi, frames, confirmedOn);
      ghost var was := confirmedOn;
      DfsSubgraph(atropos, frame);
      WalkIsDfs(input, was.Keys, [atropos]);
      DfsOne(input, was.Keys, atropos);
      MarksGrow(input, atropoi, frames, was, atropos, frame, confirmedOn);
      AppliedNext(input, atropoi, atropos);
      AppliedKeys(was, old(applied));
      atropoi, frames := atropoi + [atropos], frames + [frame];
      ToValid();
      ok := true;
    }

    /** dfsSubgraph with the marking filter: an event already marked is passed over with all below it. */
    method DfsSubgraph(head: EventId, frame: nat)
      requires head in input && frame > 0 && Closed(input, confirmedOn.Keys) && AppliedOnce(confirmedOn, applied)
      modifies this`confirmedOn, this`applied
      ensures forall x :: x in confirmedOn <==> x in old(confirmedOn) || Observes(input, head, x)
      ensures forall x :: x in confirmedOn ==>
                confirmedOn[x] == if x in old(confirmedOn) then old(confirmedOn)[x] else frame
      ensures AppliedOnce(confirmedOn, applied)
      ensures applied == old(applied) + WalkFrom(input, old(confirmedOn).Keys, [head])
    {
      hide *;
      ghost var was := confirmedOn;
      WalkStart(input, confirmedOn, applied, head, frame);
      var stack := [head];
      while stack != []
        invariant Walking(input, head, frame, was, confirmedOn, applied, stack)
        invariant (forall x :: x in stack ==> x in input)
        invariant applied + WalkFrom(input, confirmedOn.Keys, stack) == old(applied) + WalkFrom(input, was.Keys, [head])
        decreases |input.Keys - confirmedOn.Keys|, |stack|
      {
        var walk := stack[|stack| - 1];
        WalkNext(input, head, frame, was, confirmedOn, applied, stack);
        WalkStep(input, confirmedOn, frame, applied, stack);
        stack := stack[..|stack| - 1];
        if walk !in confirmedOn {
          MarkShrinks(input, confirmedOn, walk, frame);
          confirmedOn := confirmedOn[walk := frame];
          applied := applied + [walk];
          stack := stack + input[walk].parents;
        }
      }
      WalkDone(input, head, frame, was, confirmedOn, applied);
      WalkEnd(input, confirmedOn.Keys, applied);
    }

    lemma ValidParts()
      requires Valid()
      ensures MarksRight(input, atropoi, frames, confirmedOn) && AppliedOnce(confirmedOn, applied)
      ensures forall i :: 0 <= i < |frames| ==> frames[i] > 0
      ensures (forall i :: 0 <= i < |atropoi| ==> atropoi[i] in input) && applied == AppliedBy(input, atropoi)
    {
      hide AppliedOnce, Covered, ConfirmedWith, AppliedBy;
    }

    lemma ToValid()
      requires MarksRight(input, atropoi, frames, confirmedOn) && AppliedOnce(confirmedOn, applied)
      requires forall i :: 0 <= i < |frames| ==> frames[i] > 0
      requires (forall i :: 0 <= i < |atropoi| ==> atropoi[i] in input) && applied == AppliedBy(input, atropoi)
      ensures Valid()
    {
      hide MarksRight, AppliedOnce, AppliedBy;
    }
  }

  lemma AppliedKeys(confirmedOn: map<EventId, nat>, applied: seq<EventId>)
    requires AppliedOnce(confirmedOn, applied)
    ensures confirmedOn.Keys == Elements(applied)
  {
  }

  lemma WalkEnd(g: Dag, marked: set<EventId>, applied: seq<EventId>)
    ensures applied + WalkFrom(g, marked, []) == applied
  {
  }

  /** One pop of the stack is one step of WalkFrom. */
  lemma WalkStep(g: Dag, now: map<EventId, nat>, frame: nat, applied: seq<EventId>, stack: seq<EventId>)
    requires stack != [] && forall x :: x in stack ==> x in g
    ensures var x, rest := stack[|stack| - 1], stack[..|stack| - 1];
            && x in g && (forall y :: y in rest ==> y in g) && (forall y :: y in rest + g[x].parents ==> y in g)
            && (x in now ==> WalkFrom(g, now.Keys, stack) == WalkFrom(g, now.Keys, rest))
            && (x !in now ==>
                  applied + WalkFrom(g, now.Keys, stack) ==
                  applied + [x] + WalkFrom(g, now[x := frame].Keys, rest + g[x].parents))
  {
    var x, rest := stack[|stack| - 1], stack[..|stack| - 1];
    assert x in stack;
    assert now[x := frame].Keys == now.Keys + {x};
  }

  lemma MarkShrinks(g: Dag, now: map<EventId, nat>, walk: EventId, frame: nat)
    requires walk in g && walk !in now
    ensures |g.Keys - now[walk := frame].Keys| < |g.Keys - now.Keys|
  {
    assert g.Keys - now.Keys == (g.Keys - now[walk := frame].Keys) + {walk};
  }

  lemma WalkStart(g: Dag, was: map<EventId, nat>, applied: seq<EventId>, atropos: EventId, frame: nat)
    requires Closed(g, was.Keys) && atropos in g && AppliedOnce(was, applied)
    ensures Walking(g, atropos, frame, was, was, applied, [atropos])
  {
  }

  lemma ParentsObserved(g: Dag, atropos: EventId, walk: EventId)
    requires atropos in g && walk in g && Observes(g, atropos, walk)
    ensures forall p :: p in g[walk].parents ==> p in g && Observes(g, atropos, p)
  {
    forall p | p in g[walk].parents ensures p in g && Observes(g, atropos, p) {
      assert Observes(g, walk, p) by { assert Observes(g, p, p); }
      ObservesTrans(g, atropos, walk, p);
    }
  }

  /** Popping an event: if it is confirmed nothing is lost, otherwise its parents replace it. */
  lemma WalkNext(
    g: Dag, atropos: EventId, frame: nat, was: map<EventId, nat>, now: map<EventId, nat>, applied: seq<EventId>,
        stack: seq<EventId>)
    requires Walking(g, atropos, frame, was, now, applied, stack) && stack != [] && frame > 0
    ensures var walk, rest := stack[|stack| - 1], stack[..|stack| - 1];
            && walk in g
            && (walk in now ==> Walking(g, atropos, frame, was, now, applied, rest))
            && (walk !in now ==>
                  Walking(g, atropos, frame, was, now[walk := frame], applied + [walk], rest + g[walk].parents))
  {
    hide Observes;
    var walk, rest := stack[|stack| - 1], stack[..|stack| - 1];
    assert stack == rest + [walk];
    ParentsObserved(g, atropos, walk);
    FrontierNext(g, now.Keys, stack);
    assert now[walk := frame].Keys == now.Keys + {walk};
  }

  lemma FrontierNext(g: Dag, confirmed: set<EventId>, stack: seq<EventId>)
    requires stack != [] && Frontier(g, confirmed, stack) && stack[|stack| - 1] in g
    ensures var walk, rest := stack[|stack| - 1], stack[..|stack| - 1];
            && (walk in confirmed ==> Frontier(g, confirmed, rest))
            && (walk !in confirmed ==> Frontier(g, confirmed + {walk}, rest + g[walk].parents))
  {
    var walk, rest := stack[|stack| - 1], stack[..|stack| - 1];
    assert stack == rest + [walk];
  }

  lemma WalkDone(
    g: Dag, atropos: EventId, frame: nat, was: map<EventId, nat>, now: map<EventId, nat>, applied: seq<EventId>)
    requires Walking(g, atropos, frame, was, now, applied, [])
    ensures forall x :: x in now <==> x in was || Observes(g, atropos, x)
    ensures forall x :: x in now ==> now[x] == if x in was then was[x] else frame
    ensures AppliedOnce(now, applied)
  {
    hide Observes;
    forall x | Observes(g, atropos, x) ensures x in now {
      Reaches(g, now.Keys, atropos, x);
    }
  }

  lemma {:induction false} Reaches(g: Dag, confirmed: set<EventId>, a: EventId, x: EventId)
    requires a in g && a in confirmed && Frontier(g, confirmed, []) && Observes(g, a, x)
    ensures x in confirmed
    decreases g[a].lamport
  {
    if a != x {
      var p :| p in g[a].parents && Observes(g, p, x);
      Reaches(g, confirmed, p, x);
    }
  }
}
