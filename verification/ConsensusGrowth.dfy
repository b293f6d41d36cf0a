/** Votes, elections and the state of a node are the same on every graph that holds the node's events. */
module ConsensusGrowth {
  import opened Validators
  import opened Dags
  import opened Causality
  import opened Voting
  import opened Frames
  import opened Growth
  import opened ElectionSpec
  import opened ElectionProof
  import opened Consensus

  /** Records are the same on every graph that holds their events. */
  lemma HeldStable(g: Dag, h: Dag, vv: Group, held: set<EventId>, table: set<Root>)
    requires Extends(g, h) && vv.Valid() && held <= g.Keys
    ensures Held(g, vv, held) <==> Held(h, vv, held)
    ensures TableOf(g, held, table) <==> TableOf(h, held, table)
  {
    hide Accepted;
    forall x | x in held ensures x in g && x in h && (Accepted(g, vv, x) <==> Accepted(h, vv, x))
      ensures forall f :: IsRoot(g, x, f) <==> IsRoot(h, x, f)
    {
      AcceptedStable(g, h, vv, x);
      SelfParentStable(g, h, x);
    }
    hide IsRoot;
  }

  lemma RootsStable(g: Dag, h: Dag, vv: Group, f: nat, x: EventId)
    requires Extends(g, h) && vv.Valid() && x in g
    ensures x in RootsAt(g, vv, f) <==> x in RootsAt(h, vv, f)
  {
    hide Accepted;
    AcceptedStable(g, h, vv, x);
    SelfParentStable(g, h, x);
  }

  lemma ViewIs(g: Dag, vv: Group, f: nat, a: EventId, x: EventId)
    ensures ViewOf(g, vv).vv == vv && ViewOf(g, vv).roots(f) == RootsAt(g, vv, f)
    ensures ViewOf(g, vv).sees(a, x) <==> a in g && x in g && ForklessCause(g, vv, a, x)
    ensures ViewOf(g, vv).creator(x) == if x in g then g[x].creator else 0
  {
    hide ForklessCause, RootsAt;
  }

  lemma OneSeenStable(g: Dag, h: Dag, vv: Group, r: EventId, f: nat, x: EventId)
    requires Extends(g, h) && vv.Valid() && r in g
    ensures x in SeenBy(ViewOf(g, vv), r, f) <==> x in SeenBy(ViewOf(h, vv), r, f)
    ensures x in SeenBy(ViewOf(g, vv), r, f) ==> x in g && ViewOf(g, vv).creator(x) == ViewOf(h, vv).creator(x)
  {
    hide ForklessCause, RootsAt, Observes, ViewOf, vv.Valid;
    ViewIs(g, vv, f, r, x);
    ViewIs(h, vv, f, r, x);
    if x in SeenBy(ViewOf(h, vv), r, f) {
      CauseIsObserved(h, vv, r, x);
      PastStable(g, h, r, x);
    }
    if x in g {
      RootsStable(g, h, vv, f, x);
      ForklessCauseStable(g, h, vv, r, x);
    }
  }

  /** What an event sees does not change when the graph grows. */
  lemma SeenStable(g: Dag, h: Dag, vv: Group, r: EventId, f: nat)
    requires Extends(g, h) && vv.Valid() && r in g
    ensures SeenBy(ViewOf(g, vv), r, f) == SeenBy(ViewOf(h, vv), r, f)
    ensures forall x :: x in SeenBy(ViewOf(g, vv), r, f) ==>
              x in g && ViewOf(g, vv).creator(x) == ViewOf(h, vv).creator(x)
  {
    hide ViewOf, SeenBy, vv.Valid;
    forall x ensures x in SeenBy(ViewOf(g, vv), r, f) <==> x in SeenBy(ViewOf(h, vv), r, f)
      ensures x in SeenBy(ViewOf(g, vv), r, f) ==> x in g && ViewOf(g, vv).creator(x) == ViewOf(h, vv).creator(x)
    {
      OneSeenStable(g, h, vv, r, f, x);
    }
  }

  lemma CreatorsStable(g: Dag, h: Dag, vv: Group, s: set<EventId>)
    requires forall x :: x in s ==> ViewOf(g, vv).creator(x) == ViewOf(h, vv).creator(x)
    ensures WeightBy(ViewOf(g, vv), s) == WeightBy(ViewOf(h, vv), s)
  {
    hide ViewOf;
    ViewGroup(g, vv);
    ViewGroup(h, vv);
    assert CreatorsOf(ViewOf(g, vv), s) == CreatorsOf(ViewOf(h, vv), s);
  }

  lemma {:induction false} YesStable(g: Dag, h: Dag, vv: Group, r: EventId, f: nat, subject: ValidatorId, d: nat)
    requires Extends(g, h) && vv.Valid() && r in g && f > d
    ensures Yes(ViewOf(g, vv), r, f, subject, d) <==> Yes(ViewOf(h, vv), r, f, subject, d)
    decreases f, 1
  {
    hide ViewOf, SeenBy, YesVoters, NoVoters, WeightBy, vv.Valid;
    if f == d + 1 {
      SeenStable(g, h, vv, r, d);
    } else {
      VotersStable(g, h, vv, r, f, subject, d);
    }
  }

  lemma {:induction false} VotersStable(g: Dag, h: Dag, vv: Group, r: EventId, f: nat, subject: ValidatorId, d: nat)
    requires Extends(g, h) && vv.Valid() && r in g && f > d + 1
    ensures WeightBy(ViewOf(g, vv), YesVoters(ViewOf(g, vv), r, f, subject, d)) ==
            WeightBy(ViewOf(h, vv), YesVoters(ViewOf(h, vv), r, f, subject, d))
    ensures WeightBy(ViewOf(g, vv), NoVoters(ViewOf(g, vv), r, f, subject, d)) ==
            WeightBy(ViewOf(h, vv), NoVoters(ViewOf(h, vv), r, f, subject, d))
    decreases f, 0
  {
    hide ViewOf, Yes, SeenBy, WeightBy, vv.Valid;
    var v, w, prev := ViewOf(g, vv), ViewOf(h, vv), f - 1;
    SeenStable(g, h, vv, r, prev);
    forall x | x in SeenBy(v, r, prev) ensures Yes(v, x, prev, subject, d) <==> Yes(w, x, prev, subject, d) {
      YesStable(g, h, vv, x, prev, subject, d);
    }
    assert YesVoters(v, r, f, subject, d) == YesVoters(w, r, f, subject, d);
    assert NoVoters(v, r, f, subject, d) == NoVoters(w, r, f, subject, d);
    CreatorsStable(g, h, vv, YesVoters(v, r, f, subject, d));
    CreatorsStable(g, h, vv, NoVoters(v, r, f, subject, d));
  }

  lemma DecidesStable(g: Dag, h: Dag, vv: Group, r: EventId, f: nat, subject: ValidatorId, d: nat)
    requires Extends(g, h) && vv.Valid() && r in g && f > d
    ensures Decides(ViewOf(g, vv), r, f, subject, d) <==> Decides(ViewOf(h, vv), r, f, subject, d)
  {
    hide ViewOf, WeightBy, YesVoters, NoVoters, vv.Valid;
    ViewGroup(g, vv);
    ViewGroup(h, vv);
    if f > d + 1 {
      VotersStable(g, h, vv, r, f, subject, d);
    }
  }

  lemma RecordStable(g: Dag, h: Dag, vv: Group, r: Root)
    requires Extends(g, h) && vv.Valid() && IsRootOf(ViewOf(g, vv), r)
    ensures r.id in g && IsRootOf(ViewOf(h, vv), r)
  {
    hide ForklessCause, RootsAt, ViewOf, vv.Valid;
    ViewIs(g, vv, r.slot.frame, r.id, r.id);
    ViewIs(h, vv, r.slot.frame, r.id, r.id);
    RootIsEvent(g, vv, r.slot.frame, r.id);
    RootsStable(g, h, vv, r.slot.frame, r.id);
  }

  /** A vote is the same on every graph that holds the voter. */
  lemma VoteStable(g: Dag, h: Dag, vv: Group, r: Root, subject: ValidatorId, d: nat)
    requires Extends(g, h) && vv.Valid() && Sound(ViewOf(g, vv)) && Sound(ViewOf(h, vv))
    requires IsRootOf(ViewOf(g, vv), r) && r.slot.frame > d
    ensures PureVote(ViewOf(g, vv), r, subject, d) == PureVote(ViewOf(h, vv), r, subject, d)
  {
    hide Sound, Yes, Decides, ViewOf, CandidateOf;
    RecordStable(g, h, vv, r);
    YesStable(g, h, vv, r.id, r.slot.frame, subject, d);
    DecidesStable(g, h, vv, r.id, r.slot.frame, subject, d);
    if Yes(ViewOf(g, vv), r.id, r.slot.frame, subject, d) {
      YesHasCandidate(ViewOf(g, vv), r.id, r.slot.frame, subject, d);
      CandidateStable(g, h, vv, subject, d);
    }
  }

  lemma CandidateStable(g: Dag, h: Dag, vv: Group, subject: ValidatorId, d: nat)
    requires Extends(g, h) && vv.Valid() && Sound(ViewOf(g, vv)) && Sound(ViewOf(h, vv))
    requires Candidate(ViewOf(g, vv), CandidateOf(ViewOf(g, vv), subject, d), subject, d)
    ensures CandidateOf(ViewOf(g, vv), subject, d) == CandidateOf(ViewOf(h, vv), subject, d)
  {
    hide Sound, ForklessCause, RootsAt, CandidateOf, ViewOf, vv.Valid;
    var v, w, x := ViewOf(g, vv), ViewOf(h, vv), CandidateOf(ViewOf(g, vv), subject, d);
    var a :| v.sees(a, x);
    ViewIs(g, vv, d, a, x);
    ViewIs(h, vv, d, a, x);
    RootsStable(g, h, vv, d, x);
    ForklessCauseStable(g, h, vv, a, x);
    assert w.sees(a, x);
    CandidateIs(w, x, subject, d);
  }

  lemma SettlesStable(g: Dag, h: Dag, vv: Group, r: Root, subject: ValidatorId, d: nat)
    requires Extends(g, h) && vv.Valid() && Sound(ViewOf(g, vv)) && Sound(ViewOf(h, vv)) && IsRootOf(ViewOf(g, vv), r)
    ensures Settles(ViewOf(g, vv), r, subject, d) <==> Settles(ViewOf(h, vv), r, subject, d)
  {
    hide Sound, Decides, ViewOf, IsRootOf;
    RecordStable(g, h, vv, r);
    if r.slot.frame > d {
      DecidesStable(g, h, vv, r.id, r.slot.frame, subject, d);
    }
  }

  lemma VerdictStable(g: Dag, h: Dag, vv: Group, r: Root, subject: ValidatorId, d: nat)
    requires Extends(g, h) && vv.Valid() && Sound(ViewOf(g, vv)) && Sound(ViewOf(h, vv))
    requires Settles(ViewOf(g, vv), r, subject, d)
    ensures VerdictOf(ViewOf(g, vv), subject, d) == VerdictOf(ViewOf(h, vv), subject, d)
  {
    hide Sound, Decides, ViewOf, IsRootOf, PureVote, VerdictOf;
    SettlesStable(g, h, vv, r, subject, d);
    VerdictIs(ViewOf(g, vv), r, subject, d);
    VerdictIs(ViewOf(h, vv), r, subject, d);
    VoteStable(g, h, vv, r, subject, d);
  }

  lemma SettledByStable(g: Dag, h: Dag, vv: Group, processed: set<Root>, subject: ValidatorId, d: nat)
    requires Extends(g, h) && vv.Valid() && Sound(ViewOf(g, vv)) && Sound(ViewOf(h, vv))
    requires Registered(ViewOf(g, vv), processed, d)
    ensures SettledBy(ViewOf(g, vv), processed, subject, d) <==> SettledBy(ViewOf(h, vv), processed, subject, d)
  {
    hide Sound, Settles, ViewOf, IsRootOf;
    forall r | r in processed
      ensures Settles(ViewOf(g, vv), r, subject, d) <==> Settles(ViewOf(h, vv), r, subject, d)
    {
      SettlesStable(g, h, vv, r, subject, d);
    }
  }

  /** The state of an election over a graph is its state over every larger one. */
  lemma InvGrows(g: Dag, h: Dag, vv: Group, st: State, processed: set<Root>)
    requires Extends(g, h) && vv.Valid() && Sound(ViewOf(g, vv)) && Sound(ViewOf(h, vv))
    requires Inv(ViewOf(g, vv), st, processed)
    ensures Inv(ViewOf(h, vv), st, processed)
  {
    hide Sound, IsRootOf, PureVote, VerdictOf, SettledBy, ViewOf;
    var v, w, d := ViewOf(g, vv), ViewOf(h, vv), st.frameToDecide;
    ViewGroup(g, vv);
    ViewGroup(h, vv);
    forall r | r in processed ensures IsRootOf(w, r) {
      RecordStable(g, h, vv, r);
    }
    forall k | k in st.votes
      ensures IsRootOf(w, k.fromRoot) && k.fromRoot.slot.frame > d
      ensures st.votes[k] == PureVote(w, k.fromRoot, k.forValidator, d)
    {
      RecordStable(g, h, vv, k.fromRoot);
      VoteStable(g, h, vv, k.fromRoot, k.forValidator, d);
    }
    forall s ensures SettledBy(v, processed, s, d) <==> SettledBy(w, processed, s, d) {
      SettledByStable(g, h, vv, processed, s, d);
    }
    forall s | s in st.decidedRoots ensures st.decidedRoots[s] == VerdictOf(w, s, d) {
      var r := SettlerIn(v, processed, s, d);
      VerdictStable(g, h, vv, r, s, d);
    }
  }

  lemma SettlerIn(v: View, processed: set<Root>, s: ValidatorId, d: nat) returns (r: Root)
    requires SettledBy(v, processed, s, d)
    ensures Settles(v, r, s, d)
  {
    hide Settles;
    r :| r in processed && Settles(v, r, s, d);
  }

  lemma SettledAsGrows(g: Dag, h: Dag, vv: Group, subject: ValidatorId, d: nat, yes: bool)
    requires Extends(g, h) && vv.Valid() && Sound(ViewOf(g, vv)) && Sound(ViewOf(h, vv))
    requires SettledAs(ViewOf(g, vv), subject, d, yes)
    ensures SettledAs(ViewOf(h, vv), subject, d, yes)
    ensures yes ==> CandidateOf(ViewOf(g, vv), subject, d) == CandidateOf(ViewOf(h, vv), subject, d)
  {
    hide Sound, ViewOf, Yes, Decides, CandidateOf;
    var r :| Settles(ViewOf(g, vv), r, subject, d) && Yes(ViewOf(g, vv), r.id, r.slot.frame, subject, d) == yes;
    SettlesStable(g, h, vv, r, subject, d);
    RecordStable(g, h, vv, r);
    YesStable(g, h, vv, r.id, r.slot.frame, subject, d);
    if yes {
      YesHasCandidate(ViewOf(g, vv), r.id, r.slot.frame, subject, d);
      CandidateStable(g, h, vv, subject, d);
    }
  }

  lemma AtroposGrows(g: Dag, h: Dag, vv: Group, d: nat, x: EventId)
    requires Extends(g, h) && vv.Valid() && Sound(ViewOf(g, vv)) && Sound(ViewOf(h, vv))
    requires IsAtropos(ViewOf(g, vv), d, x)
    ensures IsAtropos(ViewOf(h, vv), d, x)
  {
    hide Sound, ViewOf, SettledAs, CandidateOf;
    ViewGroup(g, vv);
    ViewGroup(h, vv);
    var i: nat :| AtroposAt(ViewOf(g, vv), d, i, x);
    SettledAsGrows(g, h, vv, vv.sorted[i].id, d, true);
    forall j | 0 <= j < i ensures SettledAs(ViewOf(h, vv), vv.sorted[j].id, d, false) {
      SettledAsGrows(g, h, vv, vv.sorted[j].id, d, false);
    }
    assert AtroposAt(ViewOf(h, vv), d, i, x);
  }

  lemma DecidedFromGrows(g: Dag, h: Dag, vv: Group, table: set<Root>, d: nat, x: EventId)
    requires Extends(g, h) && vv.Valid() && Sound(ViewOf(g, vv)) && Sound(ViewOf(h, vv))
    requires DecidedFrom(ViewOf(g, vv), table, d, x)
    ensures DecidedFrom(ViewOf(h, vv), table, d, x)
  {
    hide Sound, ViewOf, Inv, ChooseAtropos, Above;
    var st, some :| Inv(ViewOf(g, vv), st, some) && some <= Above(table, d) && st.frameToDecide == d
                    && ChooseAtropos(st) == Decided(Res(d, x));
    InvGrows(g, h, vv, st, some);
  }

  lemma BlocksGrowWith(g: Dag, h: Dag, vv: Group, n: Node)
    requires Extends(g, h) && vv.Valid() && Sound(ViewOf(g, vv)) && Sound(ViewOf(h, vv))
    requires BlocksRight(g, vv, n.held, n.table, n.blocks)
    ensures BlocksRight(h, vv, n.held, n.table, n.blocks)
  {
    hide Sound, ViewOf, IsAtropos, DecidedFrom;
    forall i | 0 <= i < |n.blocks|
      ensures IsAtropos(ViewOf(h, vv), i + 1, n.blocks[i]) && DecidedFrom(ViewOf(h, vv), n.table, i + 1, n.blocks[i])
    {
      AtroposGrows(g, h, vv, i + 1, n.blocks[i]);
      DecidedFromGrows(g, h, vv, n.table, i + 1, n.blocks[i]);
    }
  }

  /** An honest graph has honest parts only. */
  lemma HonestPart(g: Dag, h: Dag, vv: Group)
    requires Extends(g, h) && Honest(h, vv)
    ensures Honest(g, vv)
  {
    hide FewCheaters;
    FewCheatersIn(g, h, vv);
  }

  /** What a node knows of its own graph holds in every honest graph around it. */
  lemma GoingGrows(g: Dag, h: Dag, vv: Group, n: Node)
    requires Extends(g, h) && Honest(h, vv) && Going(g, vv, n)
    ensures Going(h, vv, n) && (Settled(g, vv, n) ==> Settled(h, vv, n))
  {
    hide *;
    HonestPart(g, h, vv);
    HonestParts(g, vv);
    HonestParts(h, vv);
    ViewIsSound(g, vv);
    ViewIsSound(h, vv);
    GoingParts(g, vv, n);
    HeldIn(g, vv, n.held);
    HeldStable(g, h, vv, n.held, n.table);
    BlocksGrowWith(g, h, vv, n);
    InvGrows(g, h, vv, n.st, n.processed);
    GoingFrom(h, vv, n);
    SettledIs(g, vv, n);
    SettledIs(h, vv, n);
  }

  lemma HeldIn(g: Dag, vv: Group, held: set<EventId>)
    requires Held(g, vv, held)
    ensures held <= g.Keys
  {
    hide Accepted;
  }

  lemma GoingFrom(g: Dag, vv: Group, n: Node)
    requires Held(g, vv, n.held) && TableOf(g, n.held, n.table) && n.st.frameToDecide == n.last + 1
    requires |n.blocks| == n.last && BlocksRight(g, vv, n.held, n.table, n.blocks)
    requires Inv(ViewOf(g, vv), n.st, n.processed) && n.processed <= Above(n.table, n.last + 1)
    ensures Going(g, vv, n)
  {
    hide Held, TableOf, BlocksRight, Inv, Above;
  }
}
