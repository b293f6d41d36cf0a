/** calcFrameIdx and forklessCausedByQuorumOn (abft/event_processing.go), over an index and the stored roots. */
module FrameCheck {
  import opened Basics
  import opened Validators
  import opened Weights
  import opened Dags
  import opened Causality
  import opened VecState
  import opened VecIndex
  import opened Frames
  import opened Growth
  import opened FrameCalc
  import opened ElectionSpec
  import opened RootStore
  import opened Elections
  import opened Consensus
  import opened ConsensusGrowth

  /** A proper validator group, and events of its members only. */
  ghost predicate Members(g: Dag, vv: Group) {
    vv.Valid() && vv.Len() > 0 && CreatorsIn(g, vv)
  }

  lemma RootsInFrame(table: set<Root>, f: nat, roots: seq<Root>)
    requires ListsFrame(table, f, roots)
    ensures forall i :: 0 <= i < |roots| ==> roots[i] in table && roots[i].slot.frame == f
    ensures |roots| == 0 ==> forall r :: r in table ==> r.slot.frame != f
  {
    hide NoDup;
    assert forall i :: 0 <= i < |roots| ==> roots[i] in roots;
  }

  lemma ArrivingIs(g: Dag, held: set<EventId>, e: EventId)
    ensures Arriving(g, held, e) <==> e in g && e !in held && forall p :: p in g[e].parents ==> p in held
  {
  }

  lemma SelfParentAccepted(g: Dag, vv: Group, held: set<EventId>, e: Event)
    requires vv.Valid() && e.id in g && g[e.id] == e && Held(g, vv, held) && Arriving(g, held, e.id)
    ensures e.HasSelfParent() ==> SelfParentFrame(g, e) >= 1
  {
    hide FrameOk;
    if e.HasSelfParent() {
      assert e.SelfParent() in e.parents;
      FrameMonotone(g, vv, e.SelfParent(), e.SelfParent());
    }
  }

  /** e is not accepted yet and all its parents are. */
  ghost predicate Arriving(g: Dag, held: set<EventId>, e: EventId) {
    e in g && e !in held && forall p :: p in g[e].parents ==> p in held
  }

  /** Creators of the first n listed roots that forkless-cause e. */
  ghost function VouchersIn(g: Dag, vv: Group, e: EventId, roots: seq<Root>, n: nat): set<ValidatorId>
    requires n <= |roots| && e in g && forall i :: 0 <= i < |roots| ==> roots[i].id in g
  {
    set i | 0 <= i < n && ForklessCause(g, vv, e, roots[i].id) :: roots[i].slot.validator
  }

  lemma NobodyYet(g: Dag, vv: Group, e: EventId, roots: seq<Root>)
    requires e in g && forall i :: 0 <= i < |roots| ==> roots[i].id in g
    ensures VouchersIn(g, vv, e, roots, 0) == {}
  {
  }

  lemma VouchersNext(g: Dag, vv: Group, held: set<EventId>, table: set<Root>, e: EventId, roots: seq<Root>, n: nat)
    requires n < |roots| && e in g && (forall i :: 0 <= i < |roots| ==> roots[i].id in g)
    requires Members(g, vv) && TableOf(g, held, table) && roots[n] in table
    ensures vv.Valid() && vv.Len() > 0 && vv.GetID(vv.GetIdx(roots[n].slot.validator)) == roots[n].slot.validator
    ensures VouchersIn(g, vv, e, roots, n + 1) ==
            VouchersIn(g, vv, e, roots, n) + if ForklessCause(g, vv, e, roots[n].id) then {roots[n].slot.validator}
                else {}
  {
    hide ForklessCause, IsRoot;
    assert ForklessCause(g, vv, e, roots[n].id) ==> roots[n].slot.validator in VouchersIn(g, vv, e, roots, n + 1);
  }

  lemma VouchersVouch(
    g: Dag, vv: Group, held: set<EventId>, table: set<Root>, e: EventId, f: nat, roots: seq<Root>, n: nat)
    requires n <= |roots| && Arriving(g, held, e) && (forall i :: 0 <= i < |roots| ==> roots[i].id in g)
    requires Members(g, vv) && TableOf(g, held, table)
    requires forall i :: 0 <= i < |roots| ==> roots[i] in table && roots[i].slot.frame == f
    ensures VouchersIn(g, vv, e, roots, n) <= Vouchers(g, vv, e, f)
  {
    hide ForklessCause, IsRoot;
    forall v | v in VouchersIn(g, vv, e, roots, n) ensures v in Vouchers(g, vv, e, f) {
      var i :| 0 <= i < n && ForklessCause(g, vv, e, roots[i].id) && roots[i].slot.validator == v;
      assert Vouches(g, vv, e, f, roots[i].id);
    }
  }

  lemma EnoughVouchers(
    g: Dag, vv: Group, held: set<EventId>, table: set<Root>, e: EventId, f: nat, roots: seq<Root>, n: nat)
    requires n <= |roots| && Arriving(g, held, e) && (forall i :: 0 <= i < |roots| ==> roots[i].id in g)
    requires Members(g, vv) && TableOf(g, held, table)
    requires forall i :: 0 <= i < |roots| ==> roots[i] in table && roots[i].slot.frame == f
    requires vv.HasQuorum(VouchersIn(g, vv, e, roots, n))
    ensures QuorumOn(g, vv, e, f)
  {
    hide VouchersIn, Vouchers, TableOf, CreatorsIn;
    VouchersVouch(g, vv, held, table, e, f, roots, n);
    QuorumMono(vv, VouchersIn(g, vv, e, roots, n), Vouchers(g, vv, e, f));
  }

  lemma AllVouchers(g: Dag, vv: Group, held: set<EventId>, table: set<Root>, e: EventId, f: nat, roots: seq<Root>)
    requires Arriving(g, held, e) && (forall i :: 0 <= i < |roots| ==> roots[i].id in g) && Held(g, vv, held)
    requires Members(g, vv) && TableOf(g, held, table) && ListsFrame(table, f, roots)
    requires forall i :: 0 <= i < |roots| ==> roots[i] in table && roots[i].slot.frame == f
    ensures vv.HasQuorum(VouchersIn(g, vv, e, roots, |roots|)) <==> QuorumOn(g, vv, e, f)
  {
    hide ForklessCause, Accepted, CreatorsIn, NoDup;
    VouchersVouch(g, vv, held, table, e, f, roots, |roots|);
    forall v | v in Vouchers(g, vv, e, f) ensures v in VouchersIn(g, vv, e, roots, |roots|) {
      var r :| Vouches(g, vv, e, f, r) && g[r].creator == v;
      VoucherKnown(g, vv, held, e, f, r);
      assert Root(r, Slot(f, v)) in roots;
      var i :| 0 <= i < |roots| && roots[i] == Root(r, Slot(f, v));
    }
    assert VouchersIn(g, vv, e, roots, |roots|) == Vouchers(g, vv, e, f);
  }

  lemma SelfParentInInput(g: Dag, e: Event)
    requires e.id in g && g[e.id] == e && e.HasSelfParent()
    ensures e.SelfParent() in g && e.SelfParent() in e.parents
  {
  }

  lemma SelfParentFrameIs(g: Dag, e: Event)
    requires e.id in g && g[e.id] == e
    ensures SelfParentFrame(g, e) == if e.HasSelfParent() && e.SelfParent() in g then g[e.SelfParent()].frame else 0
  {
  }

  ghost predicate QuorumFrom(g: Dag, vv: Group, e: EventId, from: nat, upTo: nat)
    requires e in g
  {
    forall f :: from <= f < upTo ==> QuorumOn(g, vv, e, f)
  }

  lemma NoneChecked(g: Dag, vv: Group, e: EventId, f: nat)
    requires e in g
    ensures QuorumFrom(g, vv, e, f, f)
  {
  }

  lemma CheckedNext(g: Dag, vv: Group, e: EventId, from: nat, f: nat)
    requires e in g && QuorumFrom(g, vv, e, from, f) && QuorumOn(g, vv, e, f)
    ensures QuorumFrom(g, vv, e, from, f + 1)
  {
    hide QuorumOn;
  }

  lemma StopsHere(g: Dag, vv: Group, e: EventId, spf: nat, max: nat, f: nat)
    requires e in g && QuorumFrom(g, vv, e, spf, f) && spf <= f && (f > spf ==> f <= max)
    requires f < max ==> !QuorumOn(g, vv, e, f)
    ensures StopsAt(g, vv, e, spf, max, if f == 0 then FIRST_FRAME else f)
  {
    hide QuorumOn;
    assert StopsRaw(g, vv, e, spf, max, f);
  }

  /** e has entered the index, and the store holds the roots of the accepted events. */
  ghost predicate Checking(index: Index, store: Store, held: set<EventId>, e: EventId)
    reads index, index.engine, index.cache, store, store.frameRoots
  {
    && index.Valid() && store.Valid() && (index.cache as object) != (store.frameRoots as object)
    && Members(index.engine.input, index.engine.vv)
    && held <= index.engine.t.branchOf.Keys && e in index.engine.t.branchOf && e in index.engine.input
    && Held(index.engine.input, index.engine.vv, held) && TableOf(index.engine.input, held, store.table)
    && Arriving(index.engine.input, held, e)
  }

  lemma CheckingIs(index: Index, store: Store, held: set<EventId>, e: EventId)
    ensures Checking(index, store, held, e) <==>
            && index.Valid() && store.Valid() && (index.cache as object) != (store.frameRoots as object)
            && Members(index.engine.input, index.engine.vv)
            && held <= index.engine.t.branchOf.Keys && e in index.engine.t.branchOf && e in index.engine.input
            && Held(index.engine.input, index.engine.vv, held) && TableOf(index.engine.input, held, store.table)
            && Arriving(index.engine.input, held, e)
  {
    hide index.Valid, store.Valid, Members, Held, TableOf, Arriving;
  }

  lemma MembersIs(g: Dag, vv: Group)
    ensures Members(g, vv) <==> vv.Valid() && vv.Len() > 0 && CreatorsIn(g, vv)
  {
    hide CreatorsIn;
  }

  lemma RootsHeld(g: Dag, held: set<EventId>, table: set<Root>, roots: seq<Root>)
    requires TableOf(g, held, table) && forall i :: 0 <= i < |roots| ==> roots[i] in table
    ensures forall i :: 0 <= i < |roots| ==> roots[i].id in g && roots[i].id in held
  {
    hide IsRoot;
  }

  /** forklessCausedByQuorumOn: stops counting as soon as there is a quorum. */
  method ForklessCausedByQuorumOn(
    index: Index, store: Store, e: EventId, f: nat, ghost held: set<EventId>) returns (r: bool)
    requires Checking(index, store, held, e)
    modifies index.cache, store.frameRoots
    ensures Checking(index, store, held, e)
    ensures r <==> QuorumOn(index.engine.input, index.engine.vv, e, f)
  {
    hide *;
    CheckingIs(index, store, held, e);
    ghost var g := index.engine.input;
    var vv := index.engine.vv;
    MembersIs(g, vv);
    var roots := store.GetFrameRoots(f);
    RootsInFrame(store.table, f, roots);
    RootsHeld(g, held, store.table, roots);
    var observed := new WeightCounter(vv);
    NobodyYet(g, vv, e, roots);
    CounterSum(observed);
    for i := 0 to |roots|
      invariant index.Valid() && store.Valid() && fresh(observed)
      invariant observed.Valid() && observed.group == vv && |observed.already| == vv.Len()
      invariant observed.Counted() == VouchersIn(g, vv, e, roots, i)
    {
      var sees := index.ForklessCauseOf(e, roots[i].id);
      VouchersNext(g, vv, held, store.table, e, roots, i);
      if sees {
        var _ := observed.Count(roots[i].slot.validator);
        CounterSum(observed);
      }
      assert observed.Counted() == VouchersIn(g, vv, e, roots, i + 1);
      if observed.HasQuorum() {
        EnoughVouchers(g, vv, held, store.table, e, f, roots, i + 1);
        CheckingIs(index, store, held, e);
        return true;
      }
    }
    AllVouchers(g, vv, held, store.table, e, f, roots);
    CheckingIs(index, store, held, e);
    return observed.HasQuorum();
  }

  /** calcFrameIdx: up from the self-parent's frame while a quorum vouches, to the claimed frame or a fixed distance. */
  method CalcFrameIdx(index: Index, store: Store, e: Event, checkOnly: bool, ghost held: set<EventId>)
    returns (selfParentFrame: nat, frame: nat)
    requires e.id in index.engine.input && index.engine.input[e.id] == e && Checking(index, store, held, e.id)
    modifies index.cache, store.frameRoots
    ensures Checking(index, store, held, e.id) && selfParentFrame == SelfParentFrame(index.engine.input, e)
    ensures StopsAt(index.engine.input, index.engine.vv, e.id, selfParentFrame,
                    if checkOnly then e.frame else selfParentFrame + 100, frame)
  {
    hide *;
    ghost var g, vv := index.engine.input, index.engine.vv;
    selfParentFrame := 0;
    if e.HasSelfParent() {
      SelfParentInInput(g, e);
      selfParentFrame := index.engine.input[e.SelfParent()].frame;
    }
    SelfParentFrameIs(g, e);
    var maxFrameToCheck := if checkOnly then e.frame else selfParentFrame + 100;
    var f := selfParentFrame;
    NoneChecked(g, vv, e.id, f);
    while f < maxFrameToCheck
      invariant Checking(index, store, held, e.id) && selfParentFrame <= f
      invariant (f > selfParentFrame ==> f <= maxFrameToCheck)
      invariant QuorumFrom(g, vv, e.id, selfParentFrame, f)
    {
      var enough := ForklessCausedByQuorumOn(index, store, e.id, f, held);
      if !enough {
        break;
      }
      CheckedNext(g, vv, e.id, selfParentFrame, f);
      f := f + 1;
    }
    StopsHere(g, vv, e.id, selfParentFrame, maxFrameToCheck, f);
    frame := if f == 0 then FIRST_FRAME else f;
  }

  // ---------------------------------------------------------------- building an event

  /** The held events with a draft on top: everything the frame computation needs. */
  lemma ScratchReady(g: Dag, vv: Group, held: set<EventId>, table: set<Root>, t: Tables, draft: Event)
    requires Members(g, vv) && Held(g, vv, held) && TableOf(g, held, table) && Exact(g, vv, t)
    requires t.branchOf.Keys == held
    requires draft.id !in held && vv.Exists(draft.creator) && Linked(Part(g, held), draft)
    ensures IsDag(Part(g, held)) && IsDag(With(Part(g, held), draft))
    ensures Members(With(Part(g, held), draft), vv) && Exact(With(Part(g, held), draft), vv, t)
    ensures Held(With(Part(g, held), draft), vv, held) && TableOf(With(Part(g, held), draft), held, table)
    ensures Arriving(With(Part(g, held), draft), held, draft.id)
  {
    hide *;
    MembersIs(g, vv);
    HeldClosed(g, vv, held);
    PartIsDag(g, held);
    var c: Dag := Part(g, held);
    WithDag(c, draft);
    var s: Dag := With(c, draft);
    ScratchShape(g, vv, c, held, draft);
    HeldStable(c, g, vv, held, table);
    HeldStable(c, s, vv, held, table);
    TablesShape(g, vv, t);
    ExactStable(c, g, vv, t);
    ExactStable(c, s, vv, t);
  }

  lemma HeldClosed(g: Dag, vv: Group, held: set<EventId>)
    requires Held(g, vv, held)
    ensures Closed(g, held)
  {
    hide Closed, Accepted;
  }

  lemma ScratchShape(g: Dag, vv: Group, c: Dag, held: set<EventId>, draft: Event)
    requires Members(g, vv) && Extends(c, g) && c.Keys == held && draft.id !in held
    requires vv.Exists(draft.creator) && Linked(c, draft) && IsDag(With(c, draft))
    ensures Extends(c, With(c, draft)) && Members(With(c, draft), vv) && Arriving(With(c, draft), held, draft.id)
  {
    hide vv.Valid;
  }

  lemma TablesShape(g: Dag, vv: Group, t: Tables)
    requires Exact(g, vv, t)
    ensures t.before.Keys == t.branchOf.Keys
  {
    hide Chains, AllBeforeExact, AllAfterExact, BeforeWide, BranchesOk, Owned;
  }

  /** The draft with this frame, under its final ID, is right on every graph that grows from c. */
  ghost predicate BuiltFrame(c: Dag, vv: Group, draft: Event, frame: nat) {
    forall e: Event, h: Dag :: Twins(c, draft, e) && e.frame == frame && Extends(With(c, e), h) ==>
        e.id in h && FrameOk(h, vv, e.id)
  }

  /**
   The frame that e reaches: 1 without a self-parent. Otherwise a quorum vouches for e on every frame from the
   self-parent's up to it, and on this one no more, unless it is the hundredth.
   */
  ghost predicate ReachesFrame(g: Dag, vv: Group, e: Event, frame: nat)
    requires e.id in g
  {
    var spf := SelfParentFrame(g, e);
    if !e.HasSelfParent() then frame == 1
    else
      && spf <= frame <= spf + 100
      && (forall f :: spf <= f < frame ==> QuorumOn(g, vv, e.id, f))
      && (frame < spf + 100 ==> !QuorumOn(g, vv, e.id, frame))
  }

  lemma FrameReachedOnce(g: Dag, vv: Group, e: Event, frame1: nat, frame2: nat)
    requires e.id in g && ReachesFrame(g, vv, e, frame1) && ReachesFrame(g, vv, e, frame2)
    ensures frame1 == frame2
  {
    hide QuorumOn;
  }

  /** What calcFrameIdx stops at for a draft is the frame it reaches. */
  lemma StopsWhereReached(g: Dag, vv: Group, held: set<EventId>, e: Event, frame: nat)
    requires vv.Valid() && e.id in g && g[e.id] == e && Held(g, vv, held) && Arriving(g, held, e.id)
    requires var spf := SelfParentFrame(g, e); StopsAt(g, vv, e.id, spf, spf + 100, frame)
    ensures ReachesFrame(g, vv, e, frame)
  {
    hide QuorumOn, Held, Arriving;
    SelfParentAccepted(g, vv, held, e);
    NobodyAtZero(g, vv, e.id);
  }

  lemma BuiltIs(c: Dag, vv: Group, held: set<EventId>, draft: Event, spf: nat, frame: nat)
    requires vv.Valid() && IsDag(With(c, draft)) && draft.id !in c && Linked(c, draft) && c.Keys == held
    requires Held(With(c, draft), vv, held) && spf == SelfParentFrame(With(c, draft), draft)
    requires Arriving(With(c, draft), held, draft.id)
    requires StopsAt(With(c, draft), vv, draft.id, spf, spf + 100, frame)
    ensures BuiltFrame(c, vv, draft, frame)
  {
    hide StopsAt, FrameOk, Held, vv.Valid, IsDag;
    SelfParentAccepted(With(c, draft), vv, held, draft);
    forall e: Event, h: Dag | Twins(c, draft, e) && e.frame == frame && Extends(With(c, e), h)
      ensures e.id in h && FrameOk(h, vv, e.id)
    {
      assert e.HasSelfParent() ==> e.SelfParent() in e.parents;
      assert SelfParentFrame(c, e) == spf;
      BuildPasses(c, vv, draft, e, h);
    }
  }
}
