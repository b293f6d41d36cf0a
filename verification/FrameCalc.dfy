/**
 calcFrameIdx as a specification: where it stops, that it decides FrameOk, and that a built frame passes the check.
 */
module FrameCalc {
  import opened Validators
  import opened Dags
  import opened Causality
  import opened Frames
  import opened Growth

  /** The first frame, from spf on and below `max`, that no quorum vouches for; 1 instead of 0. */
  ghost predicate StopsAt(g: Dag, vv: Group, e: EventId, spf: nat, max: nat, frame: nat)
    requires e in g
  {
    exists raw :: StopsRaw(g, vv, e, spf, max, raw) && frame == if raw == 0 then FIRST_FRAME else raw
  }

  ghost predicate StopsRaw(g: Dag, vv: Group, e: EventId, spf: nat, max: nat, raw: nat)
    requires e in g
  {
    && spf <= raw && (raw > spf ==> raw <= max)
    && (forall f :: spf <= f < raw ==> QuorumOn(g, vv, e, f))
    && (raw < max ==> !QuorumOn(g, vv, e, raw))
  }

  lemma NobodyAtZero(g: Dag, vv: Group, e: EventId)
    requires vv.Valid() && e in g
    ensures !QuorumOn(g, vv, e, 0)
  {
    hide ForklessCause;
    assert Vouchers(g, vv, e, 0) == {};
    WeightDisjointUpTo(vv, {}, |vv.sorted|);
    QuorumBounds(vv);
  }

  /** In check mode the computed frame is the claimed one exactly when the claim is right. */
  lemma CheckIsFrameOk(g: Dag, vv: Group, e: EventId, frame: nat)
    requires vv.Valid() && e in g && (g[e].HasSelfParent() ==> SelfParentFrame(g, g[e]) >= 1)
    requires StopsAt(g, vv, e, SelfParentFrame(g, g[e]), g[e].frame, frame)
    ensures frame == g[e].frame <==> FrameOk(g, vv, e)
  {
    hide QuorumOn;
    var spf := SelfParentFrame(g, g[e]);
    var raw: nat :| StopsRaw(g, vv, e, spf, g[e].frame, raw) && frame == if raw == 0 then FIRST_FRAME else raw;
    NobodyAtZero(g, vv, e);
  }

  // ---------------------------------------------------------------- a draft and the final event

  /** draft and e extend the same graph and differ at most in ID and frame. */
  ghost predicate Twins(c: Dag, draft: Event, e: Event) {
    && draft.id !in c && e.id !in c
    && draft.creator == e.creator && draft.seqno == e.seqno && draft.lamport == e.lamport && draft.parents == e.parents
    && Linked(c, e) && (forall p :: p in e.parents ==> p in c)
  }

  function With(c: Dag, e: Event): map<EventId, Event> {
    c[e.id := e]
  }

  lemma TwinDag(c: Dag, draft: Event, e: Event)
    requires Twins(c, draft, e)
    ensures IsDag(With(c, draft)) && IsDag(With(c, e)) && Extends(c, With(c, draft)) && Extends(c, With(c, e))
    ensures Twins(c, e, draft)
  {
    hide IsDag;
    WithDag(c, draft);
    WithDag(c, e);
  }

  lemma WithDag(c: Dag, e: Event)
    requires e.id !in c && Linked(c, e)
    ensures IsDag(With(c, e))
  {
    var g := With(c, e);
    forall id | id in g ensures g[id].id == id && Linked(g, g[id]) {
      assert id in c ==> Linked(c, c[id]);
    }
  }

  lemma TwinObserves(c: Dag, draft: Event, e: Event, x: EventId)
    requires Twins(c, draft, e) && x in c && IsDag(With(c, draft)) && IsDag(With(c, e))
    ensures Observes(With(c, draft), draft.id, x) <==> Observes(With(c, e), e.id, x)
  {
    TwinDag(c, draft, e);
    var g: Dag, h: Dag := With(c, draft), With(c, e);
    forall p | p in e.parents ensures Observes(g, p, x) <==> Observes(h, p, x) {
      ObservesStable(c, g, p, x);
      ObservesStable(c, h, p, x);
    }
  }

  /** What the draft observes, with the final event in its own place. */
  function Image(draft: Event, e: Event, x: EventId): EventId {
    if x == draft.id then e.id else x
  }

  lemma TwinSees(c: Dag, draft: Event, e: Event, x: EventId)
    requires Twins(c, draft, e) && IsDag(With(c, draft)) && IsDag(With(c, e)) && x in With(c, draft)
    requires Observes(With(c, draft), draft.id, x)
    ensures Observes(With(c, e), e.id, Image(draft, e, x))
  {
    hide Twins;
    if x != draft.id {
      TwinObserves(c, draft, e, x);
    }
  }

  lemma TwinFork(c: Dag, draft: Event, e: Event, x: EventId, y: EventId)
    requires Twins(c, draft, e) && IsDag(With(c, draft)) && IsDag(With(c, e)) && ForkPair(With(c, draft), x, y)
    ensures ForkPair(With(c, e), Image(draft, e, x), Image(draft, e, y))
    ensures With(c, e)[Image(draft, e, x)].creator == With(c, draft)[x].creator
  {
  }

  lemma TwinSeesFork(c: Dag, draft: Event, e: Event, v: ValidatorId)
    requires Twins(c, draft, e) && IsDag(With(c, draft)) && IsDag(With(c, e)) && SeesFork(With(c, draft), draft.id, v)
    ensures SeesFork(With(c, e), e.id, v)
  {
    hide Observes, Twins, Image, IsDag;
    var g: Dag := With(c, draft);
    var x, y :| ForkPair(g, x, y) && g[x].creator == v && Observes(g, draft.id, x) && Observes(g, draft.id, y);
    TwinFork(c, draft, e, x, y);
    TwinSees(c, draft, e, x);
    TwinSees(c, draft, e, y);
  }

  lemma TwinBetween(c: Dag, draft: Event, e: Event, r: EventId, v: ValidatorId, x: EventId)
    requires Twins(c, draft, e) && IsDag(With(c, draft)) && IsDag(With(c, e)) && r in c
    requires Between(With(c, draft), draft.id, r, v, x)
    ensures Between(With(c, e), e.id, r, v, Image(draft, e, x))
  {
    var g: Dag, h: Dag := With(c, draft), With(c, e);
    TwinDag(c, draft, e);
    TwinObserves(c, draft, e, r);
    if x != draft.id {
      TwinObserves(c, draft, e, x);
      ObservesStable(c, g, x, r);
      ObservesStable(c, h, x, r);
    }
  }

  lemma TwinCause(c: Dag, vv: Group, draft: Event, e: Event, r: EventId)
    requires Twins(c, draft, e) && IsDag(With(c, draft)) && IsDag(With(c, e)) && vv.Valid() && r in c
    requires ForklessCause(With(c, draft), vv, draft.id, r)
    ensures ForklessCause(With(c, e), vv, e.id, r)
  {
    hide SeesFork, Between;
    var g: Dag, h: Dag := With(c, draft), With(c, e);
    TwinDag(c, draft, e);
    if SeesFork(h, e.id, h[r].creator) {
      TwinSeesFork(c, e, draft, h[r].creator);
    }
    forall v | v in Witnesses(g, vv, draft.id, r) ensures v in Witnesses(h, vv, e.id, r) {
      var x :| Between(g, draft.id, r, v, x);
      TwinBetween(c, draft, e, r, v, x);
      if SeesFork(h, e.id, v) {
        TwinSeesFork(c, e, draft, v);
      }
    }
    QuorumMono(vv, Witnesses(g, vv, draft.id, r), Witnesses(h, vv, e.id, r));
  }

  lemma TwinQuorum(c: Dag, vv: Group, draft: Event, e: Event, f: nat)
    requires Twins(c, draft, e) && IsDag(With(c, draft)) && IsDag(With(c, e)) && vv.Valid()
    requires QuorumOn(With(c, draft), vv, draft.id, f)
    ensures QuorumOn(With(c, e), vv, e.id, f)
  {
    hide ForklessCause;
    var g: Dag, h: Dag := With(c, draft), With(c, e);
    forall v | v in Vouchers(g, vv, draft.id, f) ensures v in Vouchers(h, vv, e.id, f) {
      var r :| Vouches(g, vv, draft.id, f, r) && g[r].creator == v;
      TwinCause(c, vv, draft, e, r);
      assert Vouches(h, vv, e.id, f, r);
    }
    QuorumMono(vv, Vouchers(g, vv, draft.id, f), Vouchers(h, vv, e.id, f));
  }

  /**
   The frame that Build computes for a draft passes the check of Process once the event has its ID and that frame,
   on every graph that has grown from the one Build saw.
   */
  lemma BuildPasses(c: Dag, vv: Group, draft: Event, e: Event, h: Dag)
    requires Twins(c, draft, e) && IsDag(With(c, draft)) && Extends(With(c, e), h) && vv.Valid()
    requires e.HasSelfParent() ==> SelfParentFrame(c, e) >= 1
    requires var spf := SelfParentFrame(c, e);
             StopsAt(With(c, draft), vv, draft.id, spf, spf + 100, e.frame)
    ensures e.id in h && FrameOk(h, vv, e.id)
  {
    hide FrameOk, StopsAt, Twins, IsDag;
    TwinDag(c, draft, e);
    assert e.id in With(c, e);
    BuildPassesNow(c, vv, draft, e);
    FrameOkStable(With(c, e), h, vv, e.id);
  }

  lemma BuildPassesNow(c: Dag, vv: Group, draft: Event, e: Event)
    requires Twins(c, draft, e) && IsDag(With(c, draft)) && IsDag(With(c, e)) && vv.Valid()
    requires e.HasSelfParent() ==> SelfParentFrame(c, e) >= 1
    requires var spf := SelfParentFrame(c, e);
             StopsAt(With(c, draft), vv, draft.id, spf, spf + 100, e.frame)
    ensures FrameOk(With(c, e), vv, e.id)
  {
    hide QuorumOn, IsDag;
    var g: Dag, h: Dag := With(c, draft), With(c, e);
    var spf := SelfParentFrame(c, e);
    assert SelfParentFrame(h, e) == spf;
    var raw: nat :| StopsRaw(g, vv, draft.id, spf, spf + 100, raw)
        && e.frame == if raw == 0 then FIRST_FRAME else raw;
    NobodyAtZero(g, vv, draft.id);
    forall f | spf <= f < raw ensures QuorumOn(h, vv, e.id, f) {
      TwinQuorum(c, vv, draft, e, f);
    }
  }
}
