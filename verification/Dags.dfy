/** Events, their admission checks and reachability in the event graph (inter/dag, eventcheck). */
module Dags {
  import opened Basics
  import opened Validators

  type EventId = nat

  const MAX_INT32: nat := 0x7FFF_FFFF

  datatype Event = Event(
    id: EventId, epoch: nat, creator: ValidatorId, seqno: nat, lamport: nat, frame: nat, parents: seq<EventId>)
  {
    predicate HasSelfParent() {
      seqno > 1 && |parents| > 0
    }

    function SelfParent(): EventId
      requires HasSelfParent()
    {
      parents[0]
    }

    predicate IsSelfParent(id: EventId) {
      HasSelfParent() && parents[0] == id
    }
  }

  // ---------------------------------------------------------------- admission checks

  datatype CheckError = NoError | HugeValue | NotInited | NoParents | DoubleParents
                      | WrongLamport | WrongSelfParent | WrongSeq

  /** A number at the 31-bit limit or beyond it. */
  ghost predicate Huge(e: Event) {
    e.seqno >= 0x7FFF_FFFE || e.epoch >= 0x7FFF_FFFE || e.frame >= 0x7FFF_FFFE || e.lamport >= 0x7FFF_FFFE
  }

  /** Every number is set. */
  ghost predicate Inited(e: Event) {
    e.seqno >= 1 && e.epoch >= 1 && e.frame >= 1 && e.lamport >= 1
  }

  /** What basiccheck admits. */
  ghost predicate BasicOk(e: Event) {
    !Huge(e) && Inited(e) && (e.seqno > 1 ==> |e.parents| > 0) && NoDup(e.parents)
  }

  /** The Lamport time is one above the parents' highest. */
  ghost predicate LamportOk(e: Event, parents: seq<Event>) {
    && (forall i :: 0 <= i < |parents| ==> parents[i].lamport < e.lamport)
    && (e.lamport != 1 ==> exists i :: 0 <= i < |parents| && parents[i].lamport + 1 == e.lamport)
    && e.lamport >= 1
  }

  /** The self-parent is the only parent by the same creator. */
  ghost predicate OnlySelfParent(e: Event, parents: seq<Event>)
    requires |parents| == |e.parents|
  {
    forall i :: 0 <= i < |parents| ==> (parents[i].creator == e.creator <==> e.IsSelfParent(e.parents[i]))
  }

  /** What parentscheck admits: the self-parent is the first parent and the only one by the same creator. */
  ghost predicate ParentsOk(e: Event, parents: seq<Event>)
    requires |parents| == |e.parents|
  {
    && LamportOk(e, parents) && OnlySelfParent(e, parents)
    && (e.seqno == 1 <==> !e.HasSelfParent())
    && (e.HasSelfParent() ==> e.seqno == parents[0].seqno + 1)
  }

  /** basiccheck.Validate. */
  method ValidateBasic(e: Event) returns (err: CheckError)
    ensures err == NoError <==> BasicOk(e)
    ensures err == HugeValue <==> Huge(e)
    ensures err == NotInited <==> !Huge(e) && !Inited(e)
    ensures err == NoParents <==> !Huge(e) && Inited(e) && e.seqno > 1 && |e.parents| == 0
    ensures err == DoubleParents <==> !Huge(e) && Inited(e) && !NoDup(e.parents)
  {
    if e.seqno >= MAX_INT32 - 1 || e.epoch >= MAX_INT32 - 1 || e.frame >= MAX_INT32 - 1 || e.lamport >= MAX_INT32 - 1 {
      return HugeValue;
    }
    if e.seqno == 0 || e.epoch == 0 || e.frame == 0 || e.lamport == 0 {
      return NotInited;
    }
    if e.seqno > 1 && |e.parents| == 0 {
      return NoParents;
    }
    var seen: set<EventId> := {};
    for i := 0 to |e.parents|
      invariant forall p :: p in seen <==> p in e.parents[..i]
      invariant NoDup(e.parents[..i])
    {
      if e.parents[i] in seen {
        assert e.parents[i] in e.parents[..i];
        return DoubleParents;
      }
      assert e.parents[..i + 1] == e.parents[..i] + [e.parents[i]];
      seen := seen + {e.parents[i]};
    }
    assert e.parents[..|e.parents|] == e.parents;
    return NoError;
  }

  /** parentscheck.Validate. The parents are the events named by e.parents, in that order. */
  method ValidateParents(e: Event, parents: seq<Event>) returns (err: CheckError)
    requires |parents| == |e.parents|
    requires forall i :: 0 <= i < |parents| ==> parents[i].id == e.parents[i]
    ensures err == NoError <==> ParentsOk(e, parents)
    ensures err == WrongLamport <==> !LamportOk(e, parents)
    ensures err == WrongSelfParent <==> LamportOk(e, parents) && !OnlySelfParent(e, parents)
    ensures err == WrongSeq <==> LamportOk(e, parents) && OnlySelfParent(e, parents) && !ParentsOk(e, parents)
  {
    var maxLamport := 0;
    for i := 0 to |parents|
      invariant forall j :: 0 <= j < i ==> parents[j].lamport <= maxLamport
      invariant maxLamport == 0 || exists j :: 0 <= j < i && parents[j].lamport == maxLamport
    {
      if parents[i].lamport > maxLamport {
        maxLamport := parents[i].lamport;
      }
    }
    if e.lamport != maxLamport + 1 {
      return WrongLamport;
    }
    for i := 0 to |parents|
      invariant forall j :: 0 <= j < i ==> (parents[j].creator == e.creator <==> e.IsSelfParent(e.parents[j]))
    {
      if (parents[i].creator == e.creator) != e.IsSelfParent(e.parents[i]) {
        return WrongSelfParent;
      }
    }
    if (e.seqno == 1) != !e.HasSelfParent() {
      return WrongSeq;
    }
    if e.HasSelfParent() {
      var selfParent := parents[0];
      if !e.IsSelfParent(selfParent.id) {
        assert false;
      }
      if e.seqno != selfParent.seqno + 1 {
        return WrongSeq;
      }
    }
    return NoError;
  }

  // ---------------------------------------------------------------- the event graph

  /** The part of admission that the graph theory relies on. */
  ghost predicate Linked(g: map<EventId, Event>, e: Event) {
    && e.seqno >= 1
    && (forall p :: p in e.parents ==> p in g && g[p].lamport < e.lamport)
    && (e.seqno > 1 ==> e.HasSelfParent())
    && (e.HasSelfParent() ==> g[e.SelfParent()].creator == e.creator && g[e.SelfParent()].seqno + 1 == e.seqno)
  }

  ghost predicate IsDag(g: map<EventId, Event>) {
    forall id :: id in g ==> g[id].id == id && Linked(g, g[id])
  }

  type Dag = g: map<EventId, Event> | IsDag(g) witness map[]

  /** Admitting an event that passes both checks keeps the graph a Dag. */
  lemma AdmittedExtends(g: Dag, e: Event)
    requires e.id !in g && BasicOk(e) && (forall p :: p in e.parents ==> p in g)
    requires ParentsOk(e, seq(|e.parents|, i requires 0 <= i < |e.parents| => g[e.parents[i]]))
    ensures IsDag(g[e.id := e])
  {
    var ps := seq(|e.parents|, i requires 0 <= i < |e.parents| => g[e.parents[i]]);
    assert forall i :: 0 <= i < |ps| ==> ps[i] == g[e.parents[i]];
    forall p | p in e.parents ensures g[p].lamport < e.lamport {
      var i :| 0 <= i < |e.parents| && e.parents[i] == p;
      assert ps[i].lamport < e.lamport;
    }
    if e.HasSelfParent() {
      assert ps[0] == g[e.SelfParent()];
    }
  }

  /** a observes b: b is a or an ancestor of a. */
  ghost predicate Observes(g: Dag, a: EventId, b: EventId)
    requires a in g
    decreases g[a].lamport
  {
    a == b || exists p :: p in g[a].parents && Observes(g, p, b)
  }

  lemma {:induction false} ObservesOlder(g: Dag, a: EventId, b: EventId)
    requires a in g && Observes(g, a, b)
    ensures b in g && (a != b ==> g[b].lamport < g[a].lamport)
    decreases g[a].lamport
  {
    if a != b {
      var p :| p in g[a].parents && Observes(g, p, b);
      ObservesOlder(g, p, b);
    }
  }

  lemma {:induction false} ObservesTrans(g: Dag, a: EventId, b: EventId, c: EventId)
    requires a in g && b in g && Observes(g, a, b) && Observes(g, b, c)
    ensures Observes(g, a, c)
    decreases g[a].lamport
  {
    if a != b {
      var p :| p in g[a].parents && Observes(g, p, b);
      ObservesTrans(g, p, b, c);
    }
  }

  /** Events a smaller graph already holds observe the same events in a larger one. */
  lemma {:induction false} ObservesStable(g: Dag, h: Dag, a: EventId, b: EventId)
    requires Extends(g, h) && a in g
    ensures Observes(g, a, b) <==> Observes(h, a, b)
    decreases g[a].lamport
  {
    forall p | p in g[a].parents ensures Observes(g, p, b) <==> Observes(h, p, b) {
      ObservesStable(g, h, p, b);
    }
  }

  ghost predicate Extends(g: map<EventId, Event>, h: map<EventId, Event>) {
    forall id :: id in g ==> id in h && h[id] == g[id]
  }

  /** A set of events that holds the parents of its members holds all they observe. */
  ghost predicate Closed(g: Dag, s: set<EventId>) {
    forall x :: x in s ==> x in g && forall p :: p in g[x].parents ==> p in s
  }

  lemma {:induction false} ClosedObserves(g: Dag, s: set<EventId>, a: EventId, b: EventId)
    requires Closed(g, s) && a in s && Observes(g, a, b)
    ensures b in s
    decreases g[a].lamport
  {
    if a != b {
      var p :| p in g[a].parents && Observes(g, p, b);
      ClosedObserves(g, s, p, b);
    }
  }

  // ---------------------------------------------------------------- self-parent chains

  /** The event with sequence number n on the self-parent chain below a. */
  ghost function SelfAt(g: Dag, a: EventId, n: nat): (r: EventId)
    requires a in g && 1 <= n <= g[a].seqno
    ensures r in g && g[r].creator == g[a].creator && g[r].seqno == n
    decreases g[a].seqno
  {
    if n == g[a].seqno then a else SelfAt(g, g[a].SelfParent(), n)
  }

  ghost predicate SelfAncestor(g: Dag, a: EventId, b: EventId)
    requires a in g && b in g
  {
    g[b].seqno <= g[a].seqno && SelfAt(g, a, g[b].seqno) == b
  }

  lemma {:induction false} SelfAtObserved(g: Dag, a: EventId, n: nat)
    requires a in g && 1 <= n <= g[a].seqno
    ensures Observes(g, a, SelfAt(g, a, n))
    decreases g[a].seqno
  {
    if n < g[a].seqno {
      var p := g[a].SelfParent();
      SelfAtObserved(g, p, n);
      assert p in g[a].parents;
    }
  }

  // ---------------------------------------------------------------- forks

  /** Two different events of one validator with the same sequence number. */
  ghost predicate ForkPair(g: Dag, x: EventId, y: EventId) {
    x in g && y in g && x != y && g[x].creator == g[y].creator && g[x].seqno == g[y].seqno
  }

  ghost predicate Cheater(g: Dag, v: ValidatorId) {
    exists x, y :: ForkPair(g, x, y) && g[x].creator == v
  }

  ghost predicate SeesFork(g: Dag, a: EventId, v: ValidatorId)
    requires a in g
  {
    exists x, y :: ForkPair(g, x, y) && g[x].creator == v && Observes(g, a, x) && Observes(g, a, y)
  }

  /** A validator forks exactly when two of its events are not self-ancestors of one another. */
  lemma CheaterIsIncomparable(g: Dag, v: ValidatorId)
    ensures Cheater(g, v) <==>
            exists x, y :: x in g && y in g && g[x].creator == v && g[y].creator == v
                           && !SelfAncestor(g, x, y) && !SelfAncestor(g, y, x)
  {
    if Cheater(g, v) {
      var x, y :| ForkPair(g, x, y) && g[x].creator == v;
      assert !SelfAncestor(g, x, y) && !SelfAncestor(g, y, x);
    }
    forall x, y | x in g && y in g && g[x].creator == v && g[y].creator == v
                  && !SelfAncestor(g, x, y) && !SelfAncestor(g, y, x)
      ensures Cheater(g, v)
    {
      if g[x].seqno <= g[y].seqno {
        assert ForkPair(g, SelfAt(g, y, g[x].seqno), x);
      } else {
        assert ForkPair(g, SelfAt(g, x, g[y].seqno), y);
      }
    }
  }

  /** The events of a validator that never forks form one chain. */
  lemma HonestChain(g: Dag, x: EventId, y: EventId)
    requires x in g && y in g && g[x].creator == g[y].creator && !Cheater(g, g[x].creator)
    requires g[x].seqno <= g[y].seqno
    ensures SelfAncestor(g, y, x) && Observes(g, y, x)
  {
    var z := SelfAt(g, y, g[x].seqno);
    assert z == x || ForkPair(g, z, x);
    SelfAtObserved(g, y, g[x].seqno);
  }

  /** Whoever observes both sides of a fork observes two events with one sequence number. */
  lemma IncomparableSeen(g: Dag, a: EventId, x: EventId, y: EventId)
    requires a in g && x in g && y in g && g[x].creator == g[y].creator
    requires !SelfAncestor(g, x, y) && !SelfAncestor(g, y, x)
    requires Observes(g, a, x) && Observes(g, a, y)
    ensures SeesFork(g, a, g[x].creator)
  {
    var lo, hi := if g[x].seqno <= g[y].seqno then x else y, if g[x].seqno <= g[y].seqno then y else x;
    var z := SelfAt(g, hi, g[lo].seqno);
    SelfAtObserved(g, hi, g[lo].seqno);
    ObservesTrans(g, a, hi, z);
    assert ForkPair(g, z, lo);
  }

  lemma SeesForkTrans(g: Dag, a: EventId, b: EventId, v: ValidatorId)
    requires a in g && b in g && Observes(g, a, b) && SeesFork(g, b, v)
    ensures SeesFork(g, a, v)
  {
    var x, y :| ForkPair(g, x, y) && g[x].creator == v && Observes(g, b, x) && Observes(g, b, y);
    ObservesTrans(g, a, b, x);
    ObservesTrans(g, a, b, y);
  }
}
