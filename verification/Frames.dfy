/** Frames and roots as functions of the event graph, and the election view they give (abft/event_processing.go). */
module Frames {
  import opened Validators
  import opened Dags
  import opened Causality
  import opened Voting

  const FIRST_FRAME: nat := 1

  /** Frame of the self-parent, 0 when there is none. */
  function SelfParentFrame(g: map<EventId, Event>, e: Event): nat {
    if e.HasSelfParent() && e.SelfParent() in g then g[e.SelfParent()].frame else 0
  }

  /** An event is a root of every frame from its self-parent's (exclusive) to its own. */
  ghost predicate IsRoot(g: Dag, e: EventId, f: nat) {
    e in g && SelfParentFrame(g, g[e]) < f <= g[e].frame
  }

  /** r is a root of frame f, other than e, that forkless-causes e. */
  ghost predicate Vouches(g: Dag, vv: Group, e: EventId, f: nat, r: EventId)
    requires e in g
  {
    r != e && IsRoot(g, r, f) && ForklessCause(g, vv, e, r)
  }

  ghost function Vouchers(g: Dag, vv: Group, e: EventId, f: nat): set<ValidatorId>
    requires e in g
  {
    set v | v in vv.indexes.Keys && exists r :: Vouches(g, vv, e, f, r) && g[r].creator == v
  }

  /** e is forkless caused by a quorum of the other roots of frame f. */
  ghost predicate QuorumOn(g: Dag, vv: Group, e: EventId, f: nat)
    requires e in g
  {
    vv.HasQuorum(Vouchers(g, vv, e, f))
  }

  /** The claimed frame can be reached: a quorum vouches for e on every frame it passes. */
  ghost predicate FrameOk(g: Dag, vv: Group, e: EventId)
    requires e in g
  {
    var spf := SelfParentFrame(g, g[e]);
    if !g[e].HasSelfParent() then g[e].frame == FIRST_FRAME
    else spf <= g[e].frame && forall f :: spf <= f < g[e].frame ==> QuorumOn(g, vv, e, f)
  }

  /** Accepted by consensus: its frame and those of all its ancestors are right. */
  ghost predicate Accepted(g: Dag, vv: Group, e: EventId)
    requires e in g
    decreases g[e].lamport
  {
    FrameOk(g, vv, e) && forall p :: p in g[e].parents ==> Accepted(g, vv, p)
  }

  lemma {:induction false} AcceptedDown(g: Dag, vv: Group, e: EventId, x: EventId)
    requires e in g && Accepted(g, vv, e) && Observes(g, e, x)
    ensures x in g && Accepted(g, vv, x)
    decreases g[e].lamport
  {
    if e != x {
      var p :| p in g[e].parents && Observes(g, p, x);
      AcceptedDown(g, vv, p, x);
    }
  }

  /** Frames are positive and never decrease along a self-parent chain. */
  lemma {:induction false} FrameMonotone(g: Dag, vv: Group, e: EventId, x: EventId)
    requires e in g && x in g && Accepted(g, vv, e) && SelfAncestor(g, e, x)
    ensures 1 <= g[x].frame <= g[e].frame
    ensures x != e ==> g[x].frame <= SelfParentFrame(g, g[e])
    decreases g[e].seqno
  {
    if g[e].HasSelfParent() {
      var p := g[e].SelfParent();
      assert p in g[e].parents;
      FrameMonotone(g, vv, p, if x == e then p else x);
    }
  }

  // ---------------------------------------------------------------- the election's view of a graph

  ghost function RootsAt(g: Dag, vv: Group, f: nat): set<EventId> {
    set e | e in g && Accepted(g, vv, e) && IsRoot(g, e, f)
  }

  ghost function ViewOf(g: Dag, vv: Group): View {
    View(vv, f => RootsAt(g, vv, f), e => if e in g then g[e].creator else 0,
         (a, b) => a in g && b in g && ForklessCause(g, vv, a, b))
  }

  /** At most one root of a slot is ever seen. */
  lemma SlotUnique(g: Dag, vv: Group, f: nat, x: EventId, y: EventId, a: EventId, b: EventId)
    requires vv.Valid() && FewCheaters(g, vv)
    requires x in RootsAt(g, vv, f) && y in RootsAt(g, vv, f) && g[x].creator == g[y].creator
    requires a in g && b in g && ForklessCause(g, vv, a, x) && ForklessCause(g, vv, b, y)
    ensures x == y
  {
    ForkExclusive(g, vv, a, x, b, y);
    if SelfAncestor(g, x, y) {
      FrameMonotone(g, vv, x, y);
    } else {
      FrameMonotone(g, vv, y, x);
    }
  }

  lemma VoucherIsSeen(g: Dag, vv: Group, f: nat, r: EventId, x: EventId)
    requires vv.Valid() && r in g && Accepted(g, vv, r) && Vouches(g, vv, r, f, x)
    ensures x in SeenBy(ViewOf(g, vv), r, f) && ViewOf(g, vv).creator(x) == g[x].creator
  {
    assert Accepted(g, vv, x) by {
      CauseIsObserved(g, vv, r, x);
      AcceptedDown(g, vv, r, x);
    }
    assert x in RootsAt(g, vv, f);
  }

  lemma VouchersAreSeen(g: Dag, vv: Group, f: nat, r: EventId)
    requires vv.Valid() && r in g && Accepted(g, vv, r)
    ensures Vouchers(g, vv, r, f) <= CreatorsOf(ViewOf(g, vv), SeenBy(ViewOf(g, vv), r, f))
  {
    forall u | u in Vouchers(g, vv, r, f) ensures u in CreatorsOf(ViewOf(g, vv), SeenBy(ViewOf(g, vv), r, f)) {
      var x :| Vouches(g, vv, r, f, x) && g[x].creator == u;
      VoucherIsSeen(g, vv, f, r, x);
    }
  }

  lemma RootQuorumOn(g: Dag, vv: Group, f: nat, r: EventId)
    requires f >= 2 && r in RootsAt(g, vv, f)
    ensures r in g && Accepted(g, vv, r) && vv.HasQuorum(Vouchers(g, vv, r, f - 1))
  {
    hide Vouchers;
    var prev := f - 1;
    assert SelfParentFrame(g, g[r]) <= prev < g[r].frame;
    assert QuorumOn(g, vv, r, prev);
  }

  /** Every root past the first frame sees a quorum of roots of the frame before. */
  lemma RootHasQuorum(g: Dag, vv: Group, f: nat, r: EventId)
    requires vv.Valid() && f >= 2 && r in RootsAt(g, vv, f)
    ensures vv.HasQuorum(CreatorsOf(ViewOf(g, vv), SeenBy(ViewOf(g, vv), r, f - 1)))
  {
    hide *;
    RootQuorumOn(g, vv, f, r);
    VouchersAreSeen(g, vv, f - 1, r);
    QuorumMono(vv, Vouchers(g, vv, r, f - 1), CreatorsOf(ViewOf(g, vv), SeenBy(ViewOf(g, vv), r, f - 1)));
  }

  lemma OneRootHolds(g: Dag, vv: Group, v: View)
    requires vv.Valid() && FewCheaters(g, vv) && v == ViewOf(g, vv)
    ensures OneRootPerSlot(v)
  {
    hide RootsAt, ForklessCause, FewCheaters;
    forall f, x, y, a, b | x in v.roots(f) && y in v.roots(f) && v.sees(a, x) && v.sees(b, y)
        && v.creator(x) == v.creator(y)
      ensures x == y
    {
      RootIsEvent(g, vv, f, x);
      RootIsEvent(g, vv, f, y);
      SlotUnique(g, vv, f, x, y, a, b);
    }
  }

  lemma RootIsEvent(g: Dag, vv: Group, f: nat, x: EventId)
    requires x in RootsAt(g, vv, f)
    ensures x in g
  {
    hide Accepted;
  }

  lemma QuorumHolds(g: Dag, vv: Group, v: View)
    requires vv.Valid() && v == ViewOf(g, vv)
    ensures QuorumBehind(v)
  {
    hide RootsAt, ForklessCause, CreatorsOf, SeenBy;
    forall f, r | f >= 2 && r in v.roots(f) ensures v.vv.HasQuorum(CreatorsOf(v, SeenBy(v, r, f - 1))) {
      RootHasQuorum(g, vv, f, r);
    }
  }

  lemma RootCreatorExists(g: Dag, vv: Group, v: View, f: nat, r: EventId)
    requires CreatorsIn(g, vv) && v == ViewOf(g, vv) && r in v.roots(f)
    ensures v.vv.Exists(v.creator(r))
  {
    hide Accepted, ForklessCause;
  }

  /** With few cheaters, the election's assumptions hold. */
  lemma ViewIsSound(g: Dag, vv: Group)
    requires vv.Valid() && vv.Len() > 0 && CreatorsIn(g, vv) && FewCheaters(g, vv)
    ensures Sound(ViewOf(g, vv))
  {
    hide RootsAt, ForklessCause, CreatorsOf, SeenBy, CreatorsIn, FewCheaters, OneRootPerSlot, QuorumBehind;
    var v := ViewOf(g, vv);
    OneRootHolds(g, vv, v);
    QuorumHolds(g, vv, v);
    forall f, r | r in v.roots(f) ensures v.vv.Exists(v.creator(r)) {
      RootCreatorExists(g, vv, v, f, r);
    }
  }

  /** Roots leave no frame empty below them. */
  lemma {:induction false} NoFrameGaps(g: Dag, vv: Group, f: nat, r: EventId, k: nat)
    requires vv.Valid() && CreatorsIn(g, vv) && r in RootsAt(g, vv, f) && 1 <= k <= f
    ensures exists x :: x in RootsAt(g, vv, k) && (x == r || Observes(g, r, x))
    decreases f
  {
    if k < f {
      var x := RootBehind(g, vv, f, r);
      NoFrameGaps(g, vv, f - 1, x, k);
      var y :| y in RootsAt(g, vv, k) && (y == x || Observes(g, x, y));
      ObservesTrans(g, r, x, y);
    }
  }

  lemma RootBehind(g: Dag, vv: Group, f: nat, r: EventId) returns (x: EventId)
    requires vv.Valid() && CreatorsIn(g, vv) && f >= 2 && r in RootsAt(g, vv, f)
    ensures x in RootsAt(g, vv, f - 1) && Observes(g, r, x)
  {
    var prev := f - 1;
    assert QuorumOn(g, vv, r, prev);
    var i := HeavierHasOther(vv, Vouchers(g, vv, r, prev), {}, |vv.sorted|) by {
      WeightDisjointUpTo(vv, {}, |vv.sorted|);
    }
    x :| Vouches(g, vv, r, prev, x) && g[x].creator == vv.sorted[i].id;
    CauseIsObserved(g, vv, r, x);
    AcceptedDown(g, vv, r, x);
  }

  // ---------------------------------------------------------------- processing orders

  /** The frame check as a node performs it: only roots of events it already holds can vouch. */
  ghost predicate FrameOkKnowing(g: Dag, vv: Group, known: set<EventId>, e: EventId)
    requires e in g
  {
    var spf := SelfParentFrame(g, g[e]);
    if !g[e].HasSelfParent() then g[e].frame == FIRST_FRAME
    else spf <= g[e].frame && forall f :: spf <= f < g[e].frame ==> QuorumOnKnowing(g, vv, known, e, f)
  }

  ghost predicate QuorumOnKnowing(g: Dag, vv: Group, known: set<EventId>, e: EventId, f: nat)
    requires e in g
  {
    vv.HasQuorum(VouchersKnowing(g, vv, known, e, f))
  }

  ghost function VouchersKnowing(g: Dag, vv: Group, known: set<EventId>, e: EventId, f: nat): set<ValidatorId>
    requires e in g
  {
    set v | v in vv.indexes.Keys && exists r :: r in known && Vouches(g, vv, e, f, r) && g[r].creator == v
  }

  /** Which roots are known beyond e's own past does not matter. */
  lemma KnowledgeIrrelevant(g: Dag, vv: Group, known: set<EventId>, e: EventId, f: nat)
    requires vv.Valid() && e in g && Closed(g, known) && (forall p :: p in g[e].parents ==> p in known)
    ensures QuorumOnKnowing(g, vv, known, e, f) <==> QuorumOn(g, vv, e, f)
  {
    forall v | v in Vouchers(g, vv, e, f) ensures v in VouchersKnowing(g, vv, known, e, f) {
      var r :| Vouches(g, vv, e, f, r) && g[r].creator == v;
      VoucherKnown(g, vv, known, e, f, r);
    }
    assert VouchersKnowing(g, vv, known, e, f) == Vouchers(g, vv, e, f);
  }

  lemma VoucherKnown(g: Dag, vv: Group, known: set<EventId>, e: EventId, f: nat, r: EventId)
    requires vv.Valid() && e in g && Closed(g, known) && (forall p :: p in g[e].parents ==> p in known)
    requires Vouches(g, vv, e, f, r)
    ensures r in known
  {
    CauseIsObserved(g, vv, e, r);
    var p :| p in g[e].parents && Observes(g, p, r);
    ClosedObserves(g, known, p, r);
  }

  /** The events a node accepts when offered `order` one by one: parents must have been accepted before. */
  ghost function AcceptRun(g: Dag, vv: Group, order: seq<EventId>): set<EventId>
    requires forall i :: 0 <= i < |order| ==> order[i] in g
  {
    if |order| == 0 then {}
    else
      var e := order[|order| - 1];
      var known := AcceptRun(g, vv, order[..|order| - 1]);
      if (forall p :: p in g[e].parents ==> p in known) && FrameOkKnowing(g, vv, known, e) then known + {e} else known
  }

  /** Each event comes after its parents. */
  ghost predicate ParentsFirst(g: Dag, order: seq<EventId>) {
    forall i :: 0 <= i < |order| ==> order[i] in g && forall p :: p in g[order[i]].parents ==> p in order[..i]
  }

  lemma FrameOkAgrees(g: Dag, vv: Group, known: set<EventId>, e: EventId)
    requires vv.Valid() && e in g && Closed(g, known) && (forall p :: p in g[e].parents ==> p in known)
    ensures FrameOkKnowing(g, vv, known, e) <==> FrameOk(g, vv, e)
  {
    forall f ensures QuorumOnKnowing(g, vv, known, e, f) <==> QuorumOn(g, vv, e, f) {
      KnowledgeIrrelevant(g, vv, known, e, f);
    }
    hide QuorumOnKnowing, QuorumOn;
  }

  lemma ParentsFirstInit(g: Dag, order: seq<EventId>)
    requires ParentsFirst(g, order) && |order| > 0
    ensures ParentsFirst(g, order[..|order| - 1])
    ensures order[|order| - 1] in g
    ensures var e, init := order[|order| - 1], order[..|order| - 1]; forall p :: p in g[e].parents ==> p in init
  {
    var init := order[..|order| - 1];
    forall i | 0 <= i < |init| ensures init[i] in g && forall p :: p in g[init[i]].parents ==> p in init[..i] {
      assert init[..i] == order[..i];
    }
  }

  /** A node accepts exactly the offered events that are right in the graph. */
  lemma {:induction false} RunAcceptsRight(g: Dag, vv: Group, order: seq<EventId>)
    requires vv.Valid() && ParentsFirst(g, order)
    ensures Closed(g, AcceptRun(g, vv, order))
    ensures forall e :: e in AcceptRun(g, vv, order) <==> e in order && Accepted(g, vv, e)
    decreases |order|
  {
    if |order| > 0 {
      var e, init := order[|order| - 1], order[..|order| - 1];
      assert order == init + [e];
      ParentsFirstInit(g, order);
      RunAcceptsRight(g, vv, init);
      AcceptNext(g, vv, init, AcceptRun(g, vv, init), e);
      AcceptRunStep(g, vv, order, e, init);
    }
    hide FrameOk, FrameOkKnowing, ParentsFirst, Accepted, AcceptRun;
  }

  lemma AcceptRunStep(g: Dag, vv: Group, order: seq<EventId>, e: EventId, init: seq<EventId>)
    requires |order| > 0 && e == order[|order| - 1] && init == order[..|order| - 1]
    requires forall i :: 0 <= i < |order| ==> order[i] in g
    ensures AcceptRun(g, vv, order) ==
            var known := AcceptRun(g, vv, init);
            if (forall p :: p in g[e].parents ==> p in known)
                && FrameOkKnowing(g, vv, known, e) then known + {e} else known
  {
    hide FrameOkKnowing;
  }

  lemma AcceptNext(g: Dag, vv: Group, init: seq<EventId>, known: set<EventId>, e: EventId)
    requires vv.Valid() && Closed(g, known) && e in g && (forall p :: p in g[e].parents ==> p in init && p in g)
    requires forall x :: x in known <==> x in init && x in g && Accepted(g, vv, x)
    ensures ((forall p :: p in g[e].parents ==> p in known) && FrameOkKnowing(g, vv, known, e)) <==> Accepted(g, vv, e)
  {
    if forall p :: p in g[e].parents ==> p in known {
      FrameOkAgrees(g, vv, known, e);
    }
    hide FrameOk, FrameOkKnowing;
  }

  /**
   Two nodes offered the same events in different parents-first orders accept the same events, hence the same roots.
   */
  lemma OrdersAcceptSame(g: Dag, vv: Group, order1: seq<EventId>, order2: seq<EventId>)
    requires vv.Valid() && ParentsFirst(g, order1) && ParentsFirst(g, order2)
    requires forall e :: e in order1 <==> e in order2
    ensures AcceptRun(g, vv, order1) == AcceptRun(g, vv, order2)
  {
    RunAcceptsRight(g, vv, order1);
    RunAcceptsRight(g, vv, order2);
  }
}
