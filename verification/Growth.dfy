/** What a node computes depends on the past of its events only: nothing changes when the graph grows. */
module Growth {
  import opened Validators
  import opened Dags
  import opened Causality
  import opened Vectors
  import opened VecState
  import opened Frames

  // ---------------------------------------------------------------- frames and roots

  lemma PastStable(g: Dag, h: Dag, a: EventId, x: EventId)
    requires Extends(g, h) && a in g && Observes(h, a, x)
    ensures x in g && Observes(g, a, x)
  {
    ObservesStable(g, h, a, x);
    ObservesOlder(g, a, x);
  }

  lemma SelfParentStable(g: Dag, h: Dag, e: EventId)
    requires Extends(g, h) && e in g
    ensures SelfParentFrame(g, g[e]) == SelfParentFrame(h, h[e])
  {
    if g[e].HasSelfParent() {
      assert g[e].SelfParent() in g[e].parents;
    }
  }

  lemma VouchesStable(g: Dag, h: Dag, vv: Group, e: EventId, f: nat, r: EventId)
    requires Extends(g, h) && e in g && vv.Valid()
    ensures Vouches(g, vv, e, f, r) <==> Vouches(h, vv, e, f, r)
  {
    hide ForklessCause, Observes;
    if Vouches(h, vv, e, f, r) {
      CauseIsObserved(h, vv, e, r);
      PastStable(g, h, e, r);
    }
    if r in g {
      SelfParentStable(g, h, r);
      ForklessCauseStable(g, h, vv, e, r);
    }
  }

  lemma QuorumOnStable(g: Dag, h: Dag, vv: Group, e: EventId, f: nat)
    requires Extends(g, h) && e in g && vv.Valid()
    ensures QuorumOn(g, vv, e, f) <==> QuorumOn(h, vv, e, f)
  {
    hide Vouches;
    forall r ensures Vouches(g, vv, e, f, r) <==> Vouches(h, vv, e, f, r)
      ensures Vouches(g, vv, e, f, r) ==> r in g && r in h && g[r].creator == h[r].creator
    {
      VouchesStable(g, h, vv, e, f, r);
      if Vouches(g, vv, e, f, r) {
        VoucherIn(g, h, vv, e, f, r);
      }
    }
    assert Vouchers(g, vv, e, f) == Vouchers(h, vv, e, f);
  }

  lemma VoucherIn(g: Dag, h: Dag, vv: Group, e: EventId, f: nat, r: EventId)
    requires Extends(g, h) && e in g && Vouches(g, vv, e, f, r)
    ensures r in g && r in h && g[r].creator == h[r].creator
  {
    hide ForklessCause;
  }

  /** The frame check gives the same verdict on every graph that holds the event's past. */
  lemma FrameOkStable(g: Dag, h: Dag, vv: Group, e: EventId)
    requires Extends(g, h) && e in g && vv.Valid()
    ensures FrameOk(g, vv, e) <==> FrameOk(h, vv, e)
  {
    hide QuorumOn;
    SelfParentStable(g, h, e);
    forall f ensures QuorumOn(g, vv, e, f) <==> QuorumOn(h, vv, e, f) {
      QuorumOnStable(g, h, vv, e, f);
    }
  }

  lemma {:induction false} AcceptedStable(g: Dag, h: Dag, vv: Group, e: EventId)
    requires Extends(g, h) && e in g && vv.Valid()
    ensures Accepted(g, vv, e) <==> Accepted(h, vv, e)
    decreases g[e].lamport
  {
    hide FrameOk;
    FrameOkStable(g, h, vv, e);
    forall p | p in g[e].parents ensures Accepted(g, vv, p) <==> Accepted(h, vv, p) {
      AcceptedStable(g, h, vv, p);
    }
  }

  /** Few cheaters in a graph are few in every part of it. */
  lemma FewCheatersIn(g: Dag, h: Dag, vv: Group)
    requires Extends(g, h) && vv.Valid() && FewCheaters(h, vv)
    ensures FewCheaters(g, vv)
  {
    forall v | v in Cheaters(g, vv) ensures v in Cheaters(h, vv) {
      var x, y :| ForkPair(g, x, y) && g[x].creator == v;
      assert ForkPair(h, x, y);
    }
    WeightMono(vv, Cheaters(g, vv), Cheaters(h, vv));
  }

  // ---------------------------------------------------------------- the vector tables

  /** The part of a graph that a closed set of events spans. */
  function Part(g: map<EventId, Event>, held: set<EventId>): map<EventId, Event> {
    map x | x in held && x in g :: g[x]
  }

  lemma PartIsDag(g: Dag, held: set<EventId>)
    requires Closed(g, held)
    ensures IsDag(Part(g, held)) && Extends(Part(g, held), g) && Part(g, held).Keys == held
  {
  }

  lemma {:induction false} SelfAtStable(g: Dag, h: Dag, a: EventId, n: nat)
    requires Extends(g, h) && a in g && 1 <= n <= g[a].seqno
    ensures SelfAt(g, a, n) == SelfAt(h, a, n)
    decreases g[a].seqno
  {
    if n < g[a].seqno {
      assert g[a].SelfParent() in g[a].parents;
      SelfAtStable(g, h, g[a].SelfParent(), n);
    }
  }

  lemma SelfAncestorStable(g: Dag, h: Dag, a: EventId, b: EventId)
    requires Extends(g, h) && a in g && b in g
    ensures SelfAncestor(g, a, b) <==> SelfAncestor(h, a, b)
  {
    if 1 <= g[b].seqno <= g[a].seqno {
      SelfAtStable(g, h, a, g[b].seqno);
    }
  }

  lemma ChainsStable(g: Dag, h: Dag, t: map<EventId, nat>, lastSeq: seq<nat>)
    requires Extends(g, h) && t.Keys <= g.Keys
    ensures Chains(g, t, lastSeq) <==> Chains(h, t, lastSeq)
  {
    hide SelfAncestor;
    forall x, y | SameBranch(t, x, y) ensures SelfAncestor(g, y, x) <==> SelfAncestor(h, y, x) {
      SelfAncestorStable(g, h, y, x);
    }
  }

  lemma PastSame(g: Dag, h: Dag, t: map<EventId, nat>, a: EventId)
    requires Extends(g, h) && a in g
    ensures Past(g, t, a) == Past(h, t, a)
  {
    hide Observes;
    forall x ensures x in Past(g, t, a) <==> x in Past(h, t, a) {
      ObservesStable(g, h, a, x);
    }
  }

  lemma InRangeSame(g: Dag, h: Dag, t: map<EventId, nat>, past: set<EventId>, b: nat, x: EventId)
    requires past <= g.Keys && past <= h.Keys && (forall y :: y in past ==> g[y] == h[y])
    ensures InRange(g, t, past, b, x) <==> InRange(h, t, past, b, x)
    ensures InRange(g, t, past, b, x) ==> x in g && x in h && g[x].seqno == h[x].seqno
  {
  }

  lemma RangeKept(g: Dag, h: Dag, t: map<EventId, nat>, past: set<EventId>, b: nat, s: BranchSeq)
    requires past <= g.Keys && past <= h.Keys && (forall y :: y in past ==> g[y] == h[y])
    requires RangeOf(g, t, past, b, s)
    ensures RangeOf(h, t, past, b, s)
  {
    hide InRange, OnBranch;
    if s != EMPTY {
      var hi, lo := RangeEnds(g, t, past, b, s);
      InRangeSame(g, h, t, past, b, hi);
      InRangeSame(g, h, t, past, b, lo);
      forall x | InRange(h, t, past, b, x) ensures x in h && s.minSeq <= h[x].seqno <= s.seqno {
        InRangeSame(g, h, t, past, b, x);
      }
    }
  }

  lemma RangeStable(g: Dag, h: Dag, t: map<EventId, nat>, past: set<EventId>, b: nat, s: BranchSeq)
    requires Extends(g, h) && past <= g.Keys
    ensures RangeOf(g, t, past, b, s) <==> RangeOf(h, t, past, b, s)
  {
    if RangeOf(g, t, past, b, s) {
      RangeKept(g, h, t, past, b, s);
    }
    if RangeOf(h, t, past, b, s) {
      RangeKept(h, g, t, past, b, s);
    }
  }

  lemma BeforeStable(g: Dag, h: Dag, t: Tables, a: EventId, b: nat, v: ValidatorId)
    requires Extends(g, h) && a in g && a in t.before && t.branchOf.Keys <= g.Keys
    ensures BeforeExact(g, t, a, b, v) <==> BeforeExact(h, t, a, b, v)
  {
    hide SeesFork, Observes, RangeOf;
    SeesForkStable(g, h, a, v);
    PastSame(g, h, t.branchOf, a);
    assert Past(h, t.branchOf, a) <= g.Keys;
    RangeStable(g, h, t.branchOf, Past(h, t.branchOf, a), b, Get(t.before[a], b, EMPTY));
  }

  lemma AfterStable(g: Dag, h: Dag, t: map<EventId, nat>, x: EventId, b: nat, s: nat)
    requires Extends(g, h) && t.Keys <= g.Keys
    ensures FirstObserver(g, t, x, b, s) <==> FirstObserver(h, t, x, b, s)
  {
    hide Observes;
    forall y ensures ObservesOn(g, t, y, x, b) <==> ObservesOn(h, t, y, x, b) {
      if y in g {
        ObservesStable(g, h, y, x);
      }
    }
  }

  lemma AllBeforeStable(g: Dag, h: Dag, vv: Group, cs: seq<nat>, t: Tables)
    requires Extends(g, h) && t.branchOf.Keys <= g.Keys && t.before.Keys == t.branchOf.Keys
    ensures AllBeforeExact(g, vv, cs, t) <==> AllBeforeExact(h, vv, cs, t)
  {
    hide BeforeExact;
    forall a, b: nat | a in t.before
      ensures a in g && a in h
              && (BeforeExact(g, t, a, b, Owner(vv, cs, b)) <==> BeforeExact(h, t, a, b, Owner(vv, cs, b)))
    {
      BeforeStable(g, h, t, a, b, Owner(vv, cs, b));
    }
  }

  lemma AllAfterStable(g: Dag, h: Dag, width: nat, t: Tables)
    requires Extends(g, h) && t.branchOf.Keys <= g.Keys
    ensures AllAfterExact(g, width, t) <==> AllAfterExact(h, width, t)
  {
    hide FirstObserver;
    forall x, b: nat, s: nat ensures FirstObserver(g, t.branchOf, x, b, s) <==> FirstObserver(h, t.branchOf, x, b, s) {
      AfterStable(g, h, t.branchOf, x, b, s);
    }
  }

  lemma WideStable(g: Dag, h: Dag, t: Tables)
    requires Extends(g, h) && t.branchOf.Keys <= g.Keys && t.before.Keys == t.branchOf.Keys
    ensures BeforeWide(g, t) <==> BeforeWide(h, t)
  {
    hide Observes;
    forall a, x | a in t.before ensures a in g && a in h && (Observes(g, a, x) <==> Observes(h, a, x)) {
      ObservesStable(g, h, a, x);
    }
  }

  lemma StoredStable(g: Dag, h: Dag, vv: Group, t: Tables)
    requires Extends(g, h) && t.branchOf.Keys <= g.Keys
    ensures Stored(g, vv, t) <==> Stored(h, vv, t)
  {
    hide BranchesOk, Shaped, IsDag;
  }

  /** Tables agree with a graph exactly when they agree with any part of it that holds their events. */
  lemma ExactStable(g: Dag, h: Dag, vv: Group, t: Tables)
    requires Extends(g, h) && t.branchOf.Keys <= g.Keys && t.before.Keys == t.branchOf.Keys
    ensures Exact(g, vv, t) <==> Exact(h, vv, t)
  {
    hide Chains, AllBeforeExact, AllAfterExact, BeforeWide, Stored;
    StoredStable(g, h, vv, t);
    ChainsStable(g, h, t.branchOf, t.bi.lastSeq);
    AllBeforeStable(g, h, vv, t.bi.creatorIdxs, t);
    AllAfterStable(g, h, |t.bi.creatorIdxs|, t);
    WideStable(g, h, t);
  }
}
