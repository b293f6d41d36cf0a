/** What the orderer keeps true between events, and why nodes agree (abft/event_processing.go, abft/frame_decide.go). */
module Consensus {
  import opened Validators
  import opened Dags
  import opened Causality
  import opened Voting
  import opened Frames
  import opened ElectionSpec
  import opened ElectionProof
  import opened RootStore
  import opened Elections

  /** The accepted events of a node: a right, ancestor-closed part of the graph. */
  ghost predicate Held(g: Dag, vv: Group, held: set<EventId>) {
    Closed(g, held) && forall x :: x in held ==> x in g && Accepted(g, vv, x)
  }

  /** The table holds one record per held event and frame it is a root of. */
  ghost predicate TableOf(g: Dag, held: set<EventId>, table: set<Root>) {
    forall r :: r in table <==>
        r.id in held && r.id in g && IsRoot(g, r.id, r.slot.frame) && r.slot.validator == g[r.id].creator
  }

  ghost function Above(table: set<Root>, d: nat): set<Root> {
    set r | r in table && r.slot.frame > d
  }

  lemma RecordIsRoot(g: Dag, vv: Group, held: set<EventId>, table: set<Root>, r: Root)
    requires Held(g, vv, held) && TableOf(g, held, table) && r in table
    ensures IsRootOf(ViewOf(g, vv), r)
  {
    hide Accepted, ForklessCause;
  }

  /** The stored roots that forkless-cause a held event are all the roots it ever sees. */
  lemma ObservedAreSeen(
    g: Dag, vv: Group, held: set<EventId>, table: set<Root>, id: EventId, f: nat, observed: seq<Root>)
    requires vv.Valid() && Held(g, vv, held) && TableOf(g, held, table) && id in held
    requires ListsObserved(g, vv, table, id, f, observed)
    ensures Lists(ViewOf(g, vv), id, f, observed)
  {
    hide Accepted, ForklessCause, IsRoot;
    var v := ViewOf(g, vv);
    forall r | r in observed ensures IsRootOf(v, r) && r.slot.frame == f && v.sees(id, r.id) {
      RecordIsRoot(g, vv, held, table, r);
    }
    forall x | x in SeenBy(v, id, f) ensures Root(x, Slot(f, v.creator(x))) in observed {
      SeenIsHeld(g, vv, held, id, x);
      assert Root(x, Slot(f, v.creator(x))) in table;
    }
  }

  lemma SeenIsHeld(g: Dag, vv: Group, held: set<EventId>, id: EventId, x: EventId)
    requires vv.Valid() && Held(g, vv, held) && id in held && x in g && ForklessCause(g, vv, id, x)
    ensures x in held
  {
    CauseIsObserved(g, vv, id, x);
    ClosedObserves(g, held, id, x);
  }

  // ---------------------------------------------------------------- the decided root is held

  /** A yes vote names a root in the voter's past. */
  lemma {:induction false} YesNamesPast(g: Dag, vv: Group, r: EventId, f: nat, subject: ValidatorId, d: nat)
    requires vv.Valid() && Sound(ViewOf(g, vv)) && f > d && r in RootsAt(g, vv, f)
    requires Yes(ViewOf(g, vv), r, f, subject, d)
    ensures r in g && CandidateOf(ViewOf(g, vv), subject, d) in g
    ensures Observes(g, r, CandidateOf(ViewOf(g, vv), subject, d))
    decreases f
  {
    hide Sound, Accepted, ForklessCause;
    var v := ViewOf(g, vv);
    if f == d + 1 {
      var x :| x in SeenBy(v, r, d) && v.creator(x) == subject;
      assert Candidate(v, x, subject, d) by { assert v.sees(r, x); }
      CandidateIs(v, x, subject, d);
      CauseIsObserved(g, vv, r, x);
    } else {
      var x := YesHasVoter(v, r, f, subject, d);
      YesNamesPast(g, vv, x, f - 1, subject, d);
      CauseIsObserved(g, vv, r, x);
      ObservesTrans(g, r, x, CandidateOf(v, subject, d));
    }
  }

  /** What an election over held roots decides is an event the node holds. */
  lemma {:induction false} ChosenIsHeld(g: Dag, vv: Group, held: set<EventId>, st: State, processed: set<Root>, i: nat)
    requires vv.Valid() && Sound(ViewOf(g, vv)) && Held(g, vv, held) && Inv(ViewOf(g, vv), st, processed)
    requires i <= |st.vv.sorted|
    requires (forall r :: r in processed ==> r.id in held) && ChooseFrom(st, i).Decided?
    ensures ChooseFrom(st, i).res.atropos in held
    ensures exists r :: r in processed && r.slot.frame > st.frameToDecide + 1
    decreases |st.vv.sorted| - i
  {
    hide Sound, Accepted, ForklessCause, Inv, Yes, Held;
    var v, s := ViewOf(g, vv), st.vv.sorted[i].id;
    if st.decidedRoots[s].yes {
      DecidedSettled(v, st, processed, s);
      var r :| r in processed && Settles(v, r, s, st.frameToDecide)
               && st.decidedRoots[s] == PureVote(v, r, s, st.frameToDecide);
      YesNamesPast(g, vv, r.id, r.slot.frame, s, st.frameToDecide);
      PastIsHeld(g, vv, held, r.id, CandidateOf(v, s, st.frameToDecide));
    } else {
      ChosenIsHeld(g, vv, held, st, processed, i + 1);
    }
  }

  lemma PastIsHeld(g: Dag, vv: Group, held: set<EventId>, a: EventId, x: EventId)
    requires Held(g, vv, held) && a in held && a in g && Observes(g, a, x)
    ensures x in held
  {
    hide Accepted, Observes;
    ClosedObserves(g, held, a, x);
  }

  // ---------------------------------------------------------------- stepping through frames

  /** A frame without records has none above it. */
  lemma NoneAbove(g: Dag, vv: Group, held: set<EventId>, table: set<Root>, f: nat, r: Root)
    requires vv.Valid() && CreatorsIn(g, vv) && Held(g, vv, held) && TableOf(g, held, table)
    requires f >= 1 && r in table && r.slot.frame >= f
    ensures exists q :: q in table && q.slot.frame == f
  {
    hide Accepted, ForklessCause, Observes;
    NoFrameGaps(g, vv, r.slot.frame, r.id, f);
    var x :| x in RootsAt(g, vv, f) && (x == r.id || Observes(g, r.id, x));
    if x != r.id {
      PastIsHeld(g, vv, held, r.id, x);
    }
    assert Root(x, Slot(f, g[x].creator)) in table;
  }

  lemma {:induction false} FrameBound(table: set<Root>) returns (bound: nat)
    ensures forall r :: r in table ==> r.slot.frame <= bound
    decreases |table|
  {
    if table == {} {
      bound := 0;
    } else {
      var r :| r in table;
      bound := FrameBound(table - {r});
      bound := if r.slot.frame > bound then r.slot.frame else bound;
      assert table == (table - {r}) + {r};
    }
  }

  /** Adding an accepted event with its records. */
  lemma HeldGrows(g: Dag, vv: Group, held: set<EventId>, table: set<Root>, e: Event)
    requires Held(g, vv, held) && TableOf(g, held, table) && e.id in g && g[e.id] == e && e.id !in held
    requires (forall p :: p in e.parents ==> p in held) && FrameOk(g, vv, e.id)
    ensures Held(g, vv, held + {e.id})
    ensures RootsOf(e, SelfParentFrame(g, e), e.frame) !! table
    ensures TableOf(g, held + {e.id}, table + RootsOf(e, SelfParentFrame(g, e), e.frame))
  {
    hide FrameOk;
  }

  // ---------------------------------------------------------------- agreement

  /** Some of the stored roots, above frame d, are enough to decide x. */
  ghost predicate DecidedFrom(v: View, table: set<Root>, d: nat, x: EventId) {
    exists st, some ::
      Inv(v, st, some) && some <= Above(table, d) && st.frameToDecide == d && ChooseAtropos(st) == Decided(Res(d, x))
  }

  /** The Atropoi a node has applied, frame by frame from the first. */
  ghost predicate BlocksRight(g: Dag, vv: Group, held: set<EventId>, table: set<Root>, blocks: seq<EventId>) {
    forall i {:trigger blocks[i]} :: 0 <= i < |blocks| ==>
      IsAtropos(ViewOf(g, vv), i + 1, blocks[i]) && blocks[i] in held
          && DecidedFrom(ViewOf(g, vv), table, i + 1, blocks[i])
  }

  /** Agreement: nodes over one graph apply the same Atropos at every frame both have decided. */
  lemma BlocksAgree(g: Dag, vv: Group, n1: Node, n2: Node)
    requires vv.Valid() && vv.Len() > 0 && CreatorsIn(g, vv) && FewCheaters(g, vv)
    requires BlocksRight(g, vv, n1.held, n1.table, n1.blocks) && BlocksRight(g, vv, n2.held, n2.table, n2.blocks)
    ensures n1.blocks <= n2.blocks || n2.blocks <= n1.blocks
  {
    hide FewCheaters, CreatorsIn, IsAtropos, ViewOf, Sound, DecidedFrom;
    ViewIsSound(g, vv);
    forall i | 0 <= i < |n1.blocks| && i < |n2.blocks| ensures n1.blocks[i] == n2.blocks[i] {
      AtroposUnique(ViewOf(g, vv), i + 1, n1.blocks[i], n2.blocks[i]);
    }
  }

  /** Some election that has processed every record above frame d is undecided. */
  ghost predicate Stuck(v: View, table: set<Root>, d: nat) {
    exists live :: Inv(v, live, Above(table, d)) && live.frameToDecide == d && ChooseAtropos(live) == Undecided
  }

  /** Then no election over some of the records decides either. */
  lemma StuckMeansUndecided(v: View, table: set<Root>, st: State, some: set<Root>)
    requires Stuck(v, table, st.frameToDecide) && Inv(v, st, some) && some <= Above(table, st.frameToDecide)
    ensures ChooseAtropos(st) == Undecided
  {
    hide Inv, ChooseAtropos, Above;
    var live :| Inv(v, live, Above(table, st.frameToDecide)) && live.frameToDecide == st.frameToDecide
                && ChooseAtropos(live) == Undecided;
    OutcomeLasts(v, st, some, live, Above(table, st.frameToDecide));
  }

  // ---------------------------------------------------------------- the state of a node

  /**
   What a node knows: accepted events, their records, the last decided frame, the running election, the applied
   Atropoi.
   */
  datatype Node = Node(
    held: set<EventId>, table: set<Root>, last: nat, st: State, processed: set<Root>, blocks: seq<EventId>)

  /** The hypothesis throughout: a proper validator group and few cheaters in the common graph. */
  ghost predicate Honest(g: Dag, vv: Group) {
    vv.Valid() && vv.Len() > 0 && CreatorsIn(g, vv) && FewCheaters(g, vv)
  }

  /** Every state the orderer passes through. Decided frames are consecutive: as many Atropoi as decided frames. */
  ghost predicate Going(g: Dag, vv: Group, n: Node) {
    && Held(g, vv, n.held) && TableOf(g, n.held, n.table)
    && n.st.frameToDecide == n.last + 1 && |n.blocks| == n.last && BlocksRight(g, vv, n.held, n.table, n.blocks)
    && Inv(ViewOf(g, vv), n.st, n.processed) && n.processed <= Above(n.table, n.last + 1)
  }

  /** Between events: every record above the frame to decide has voted and the election is open. */
  ghost predicate Settled(g: Dag, vv: Group, n: Node) {
    Going(g, vv, n) && n.processed == Above(n.table, n.last + 1) && ChooseAtropos(n.st) == Undecided
  }

  lemma GoingStart(g: Dag, vv: Group)
    requires vv.Len() > 0
    ensures Settled(g, vv, Node({}, {}, 0, State(vv, 1, map[], map[]), {}, []))
  {
    hide ViewOf;
    FreshInv(ViewOf(g, vv), 1);
    ViewGroup(g, vv);
  }

  lemma ViewGroup(g: Dag, vv: Group)
    ensures ViewOf(g, vv).vv == vv
  {
  }

  /** The next record votes: no error, and a decision is the frame's Atropos, an event the node holds. */
  lemma GoingVote(g: Dag, vv: Group, n: Node, r: Root, observed: seq<Root>, next: Node, outcome: Outcome)
    requires Honest(g, vv) && Going(g, vv, n) && ChooseAtropos(n.st) == Undecided && n.st.vv.Valid()
    requires n.st.vv.Len() > 0
    requires r in n.table && r.slot.frame > n.last + 1 && r.id in g && (forall q :: q in n.table ==> q.id in g)
    requires ListsObserved(g, vv, n.table, r.id, r.slot.frame - 1, observed)
    requires forall q :: q in n.table && q.slot.frame + 1 == r.slot.frame && q.slot.frame > n.last + 1 ==>
               q in n.processed
    requires (next.st, outcome) == Processed(n.st, r, observed)
    requires next == n.(st := next.st, processed := n.processed + {r})
    ensures Going(g, vv, next) && outcome == ChooseAtropos(next.st) && !outcome.Failed?
    ensures outcome.Decided? ==> outcome.res.frame == n.last + 1
  {
    hide *;
    HonestParts(g, vv);
    GoingParts(g, vv, n);
    ViewIsSound(g, vv);
    ObservedAreSeen(g, vv, n.held, n.table, r.id, r.slot.frame - 1, observed) by { TableId(g, n.held, n.table, r); }
    RecordIsRoot(g, vv, n.held, n.table, r);
    ObservedVoted(g, vv, n, r, observed);
    ViewGroup(g, vv);
    ProcessedKeeps(ViewOf(g, vv), n.st, n.processed, r, observed);
    OutcomeRight(ViewOf(g, vv), next.st, next.processed);
    GoingVoted(g, vv, n, r, next.st);
  }

  lemma TableId(g: Dag, held: set<EventId>, table: set<Root>, r: Root)
    requires TableOf(g, held, table) && r in table
    ensures r.id in held && r.id in g
  {
    hide IsRoot;
  }

  lemma HonestParts(g: Dag, vv: Group)
    requires Honest(g, vv)
    ensures vv.Valid() && vv.Len() > 0 && CreatorsIn(g, vv) && FewCheaters(g, vv)
  {
    hide CreatorsIn, FewCheaters;
  }

  lemma GoingParts(g: Dag, vv: Group, n: Node)
    requires Going(g, vv, n)
    ensures Held(g, vv, n.held) && TableOf(g, n.held, n.table) && n.st.frameToDecide == n.last + 1
    ensures |n.blocks| == n.last && BlocksRight(g, vv, n.held, n.table, n.blocks)
    ensures Inv(ViewOf(g, vv), n.st, n.processed) && n.processed <= Above(n.table, n.last + 1)
  {
    hide Held, TableOf, BlocksRight, Inv, Above;
  }

  lemma ObservedVoted(g: Dag, vv: Group, n: Node, r: Root, observed: seq<Root>)
    requires (forall q :: q in n.table ==> q.id in g) && r.id in g
    requires r.slot.frame > n.last + 1 && n.st.frameToDecide == n.last + 1
    requires ListsObserved(g, vv, n.table, r.id, r.slot.frame - 1, observed)
    requires IsRootOf(ViewOf(g, vv), r) && Lists(ViewOf(g, vv), r.id, r.slot.frame - 1, observed)
    requires forall q :: q in n.table && q.slot.frame + 1 == r.slot.frame && q.slot.frame > n.last + 1 ==>
               q in n.processed
    ensures Arrives(ViewOf(g, vv), n.st, n.processed, r, observed)
  {
    hide IsRootOf, Lists, ViewOf, ForklessCause;
  }

  lemma GoingVoted(g: Dag, vv: Group, n: Node, r: Root, st: State)
    requires Going(g, vv, n) && r in n.table && r.slot.frame > n.last + 1
    requires st.frameToDecide == n.st.frameToDecide && Inv(ViewOf(g, vv), st, n.processed + {r})
    ensures Going(g, vv, n.(st := st, processed := n.processed + {r}))
  {
    hide Held, TableOf, BlocksRight, Inv;
  }

  /** A decided frame: its Atropos is applied and an empty election starts on the next frame. */
  lemma GoingDecide(g: Dag, vv: Group, n: Node)
    requires Honest(g, vv) && Going(g, vv, n) && ChooseAtropos(n.st).Decided?
    ensures Going(g, vv, n.(last := n.last + 1, st := State(vv, n.last + 2, map[], map[]), processed := {},
                            blocks := n.blocks + [ChooseAtropos(n.st).res.atropos]))
    ensures exists r :: r in n.table && r.slot.frame > n.last + 2
    ensures ChooseAtropos(n.st).res.atropos in g
  {
    hide *;
    HonestParts(g, vv);
    GoingParts(g, vv, n);
    ViewIsSound(g, vv);
    ViewGroup(g, vv);
    OutcomeRight(ViewOf(g, vv), n.st, n.processed);
    ProcessedHeld(g, n);
    FreshInv(ViewOf(g, vv), n.last + 2);
    ChosenHeld(g, vv, n.held, n.st, n.processed);
    DecidedFromHere(ViewOf(g, vv), n);
    BlocksGrow(g, vv, n.held, n.table, n.blocks, ChooseAtropos(n.st).res.atropos);
    GoingNext(g, vv, n, ChooseAtropos(n.st).res.atropos);
  }

  lemma ChosenHeld(g: Dag, vv: Group, held: set<EventId>, st: State, processed: set<Root>)
    requires vv.Valid() && Sound(ViewOf(g, vv)) && Held(g, vv, held) && Inv(ViewOf(g, vv), st, processed)
    requires (forall r :: r in processed ==> r.id in held) && ChooseAtropos(st).Decided?
    ensures ChooseAtropos(st).res.atropos in held && ChooseAtropos(st).res.atropos in g
    ensures exists r :: r in processed && r.slot.frame > st.frameToDecide + 1
  {
    hide Sound, Accepted, Inv, ViewOf, ChooseFrom;
    ChosenIsHeld(g, vv, held, st, processed, 0);
  }

  lemma ProcessedHeld(g: Dag, n: Node)
    requires TableOf(g, n.held, n.table) && n.processed <= Above(n.table, n.last + 1)
    ensures forall r :: r in n.processed ==> r.id in n.held && r in n.table
  {
    hide IsRoot;
  }

  lemma DecidedFromHere(v: View, n: Node)
    requires Inv(v, n.st, n.processed) && n.processed <= Above(n.table, n.last + 1) && n.st.frameToDecide == n.last + 1
    requires ChooseAtropos(n.st).Decided? && ChooseAtropos(n.st).res.frame == n.last + 1
    ensures DecidedFrom(v, n.table, n.last + 1, ChooseAtropos(n.st).res.atropos)
  {
    hide Inv, Above, ChooseAtropos;
  }

  lemma BlocksGrow(g: Dag, vv: Group, held: set<EventId>, table: set<Root>, blocks: seq<EventId>, x: EventId)
    requires BlocksRight(g, vv, held, table, blocks) && x in held
    requires IsAtropos(ViewOf(g, vv), |blocks| + 1, x) && DecidedFrom(ViewOf(g, vv), table, |blocks| + 1, x)
    ensures BlocksRight(g, vv, held, table, blocks + [x])
  {
    hide IsAtropos, ViewOf, DecidedFrom;
  }

  lemma GoingNext(g: Dag, vv: Group, n: Node, x: EventId)
    requires Going(g, vv, n) && BlocksRight(g, vv, n.held, n.table, n.blocks + [x])
    requires Inv(ViewOf(g, vv), State(vv, n.last + 2, map[], map[]), {})
    ensures Going(g, vv, n.(last := n.last + 1, st := State(vv, n.last + 2, map[], map[]), processed := {},
                            blocks := n.blocks + [x]))
  {
    hide Held, TableOf, BlocksRight, Inv;
  }

  /** An accepted event joins with its records; none of them has voted yet. */
  lemma GoingAdd(g: Dag, vv: Group, n: Node, e: Event)
    requires Settled(g, vv, n) && e.id in g && g[e.id] == e && e.id !in n.held
    requires (forall p :: p in e.parents ==> p in n.held) && FrameOk(g, vv, e.id)
    ensures RootsOf(e, SelfParentFrame(g, e), e.frame) !! n.table
    ensures var added := RootsOf(e, SelfParentFrame(g, e), e.frame);
            var next := n.(held := n.held + {e.id}, table := n.table + added);
            Going(g, vv, next) && forall r :: r in Above(next.table, n.last + 1) ==> r in n.processed || r in added
  {
    hide Held, TableOf, BlocksRight, Inv, FrameOk, RootsOf, ChooseAtropos;
    HeldGrows(g, vv, n.held, n.table, e);
    BlocksMore(g, vv, n.held, n.held + {e.id}, n.table, n.table + RootsOf(e, SelfParentFrame(g, e), e.frame), n.blocks);
  }

  lemma BlocksMore(
    g: Dag, vv: Group, held: set<EventId>, moreHeld: set<EventId>, table: set<Root>, more: set<Root>,
        blocks: seq<EventId>)
    requires BlocksRight(g, vv, held, table, blocks) && held <= moreHeld && table <= more
    ensures BlocksRight(g, vv, moreHeld, more, blocks)
  {
    hide IsAtropos, ViewOf, DecidedFrom;
    forall i | 0 <= i < |blocks| ensures DecidedFrom(ViewOf(g, vv), more, i + 1, blocks[i]) {
      DecidedFromMore(ViewOf(g, vv), table, more, i + 1, blocks[i]);
    }
  }

  lemma DecidedFromMore(v: View, table: set<Root>, more: set<Root>, d: nat, x: EventId)
    requires DecidedFrom(v, table, d, x) && table <= more
    ensures DecidedFrom(v, more, d, x)
  {
    hide Inv, ChooseAtropos;
  }

  /** Agreement of nodes: what two nodes over one graph have applied are prefixes of one sequence. */
  lemma NodesAgree(g: Dag, vv: Group, n1: Node, n2: Node)
    requires Honest(g, vv) && Going(g, vv, n1) && Going(g, vv, n2)
    ensures n1.blocks <= n2.blocks || n2.blocks <= n1.blocks
  {
    hide *;
    HonestParts(g, vv);
    GoingParts(g, vv, n1);
    GoingParts(g, vv, n2);
    BlocksAgree(g, vv, n1, n2);
  }

  /** A settled node's live election is a witness that no replay of its records decides. */
  lemma SettledIsStuck(g: Dag, vv: Group, n: Node)
    requires Settled(g, vv, n)
    ensures Stuck(ViewOf(g, vv), n.table, n.last + 1)
  {
    hide Held, TableOf, BlocksRight, Inv, Above, ChooseAtropos;
  }

  /**
   A node is neither late nor early: its stored roots settle the Atropos of every frame it has decided, and between
   events they settle none for the next frame.
   */
  lemma DecidesExactly(g: Dag, vv: Group, n: Node, d: nat)
    requires Honest(g, vv) && Going(g, vv, n) && 1 <= d <= n.last + 1
    ensures |n.blocks| == n.last
    ensures d <= n.last ==> Elected(ViewOf(g, vv), Above(n.table, d), d, n.blocks[d - 1])
    ensures d == n.last + 1 && Settled(g, vv, n) ==>
              forall x :: !Elected(ViewOf(g, vv), Above(n.table, d), d, x)
  {
    hide *;
    HonestParts(g, vv);
    GoingParts(g, vv, n);
    ViewIsSound(g, vv);
    if d <= n.last {
      BlockElected(g, vv, n, d);
    } else if Settled(g, vv, n) {
      SettledIs(g, vv, n);
      DecidesWhenSettled(ViewOf(g, vv), n.st, n.processed);
    }
  }

  lemma BlockElected(g: Dag, vv: Group, n: Node, d: nat)
    requires Sound(ViewOf(g, vv)) && BlocksRight(g, vv, n.held, n.table, n.blocks) && 1 <= d <= |n.blocks|
    ensures Elected(ViewOf(g, vv), Above(n.table, d), d, n.blocks[d - 1])
  {
    hide IsAtropos, ViewOf, Inv, ChooseAtropos, Elected, Sound, Above;
    var x := n.blocks[d - 1];
    assert DecidedFrom(ViewOf(g, vv), n.table, d, x);
    var st, some :| Inv(ViewOf(g, vv), st, some) && some <= Above(n.table, d) && st.frameToDecide == d
                    && ChooseAtropos(st) == Decided(Res(d, x));
    DecidesWhenSettled(ViewOf(g, vv), st, some);
    ElectedMore(ViewOf(g, vv), some, Above(n.table, d), d, x);
  }

  /** A replay that is settled again has the live election's decided subjects. */
  lemma ReplaySame(g: Dag, vv: Group, n1: Node, n2: Node)
    requires Settled(g, vv, n1) && Settled(g, vv, n2) && n1.table == n2.table && n1.last == n2.last
    ensures n1.st.decidedRoots == n2.st.decidedRoots
  {
    hide Held, TableOf, BlocksRight, Inv, ChooseAtropos;
    SameRootsSameDecisions(ViewOf(g, vv), n1.st, n2.st, n1.processed);
  }

  /**
   Convergence: a node that holds all the events of another has decided at least its frames, with the same Atropoi.
   */
  lemma MoreEventsMoreBlocks(g: Dag, vv: Group, n1: Node, n2: Node)
    requires Honest(g, vv) && Going(g, vv, n1) && Settled(g, vv, n2) && n1.held <= n2.held
    ensures n1.blocks <= n2.blocks
  {
    hide *;
    SettledGoing(g, vv, n2);
    NodesAgree(g, vv, n1, n2);
    GoingParts(g, vv, n1);
    GoingParts(g, vv, n2);
    SettledIsStuck(g, vv, n2);
    if |n1.blocks| > |n2.blocks| {
      MoreRecords(g, n1.held, n1.table, n2.held, n2.table);
      NotDecidedWhereStuck(g, vv, n1, n2.table, n2.last);
      assert false;
    }
  }

  lemma SettledGoing(g: Dag, vv: Group, n: Node)
    requires Settled(g, vv, n)
    ensures Going(g, vv, n)
  {
    hide Going;
  }

  lemma MoreRecords(g: Dag, held: set<EventId>, table: set<Root>, moreHeld: set<EventId>, more: set<Root>)
    requires TableOf(g, held, table) && TableOf(g, moreHeld, more) && held <= moreHeld
    ensures table <= more
  {
    hide IsRoot;
  }

  lemma NotDecidedWhereStuck(g: Dag, vv: Group, n: Node, more: set<Root>, i: nat)
    requires BlocksRight(g, vv, n.held, n.table, n.blocks) && i < |n.blocks| && n.table <= more
    ensures !Stuck(ViewOf(g, vv), more, i + 1)
  {
    hide IsAtropos, ViewOf, Inv, ChooseAtropos;
    DecidedFromMore(ViewOf(g, vv), n.table, more, i + 1, n.blocks[i]);
    var st, some :| Inv(ViewOf(g, vv), st, some) && some <= Above(more, i + 1) && st.frameToDecide == i + 1
                    && ChooseAtropos(st) == Decided(Res(i + 1, n.blocks[i]));
    if Stuck(ViewOf(g, vv), more, i + 1) {
      StuckMeansUndecided(ViewOf(g, vv), more, st, some);
      assert false;
    }
  }

  lemma SettledIs(g: Dag, vv: Group, n: Node)
    ensures Settled(g, vv, n) <==>
            Going(g, vv, n) && n.processed == Above(n.table, n.last + 1) && ChooseAtropos(n.st) == Undecided
  {
    hide Going, Above, ChooseAtropos;
  }
}
