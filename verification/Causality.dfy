/** The forkless-cause relation, stated on the event graph, and the properties consensus rests on (vecfc). */
module Causality {
  import opened Validators
  import opened Dags

  /** Every creator is a validator of the epoch. */
  ghost predicate CreatorsIn(g: Dag, vv: Group) {
    forall id :: id in g ==> vv.Exists(g[id].creator)
  }

  /** x is an event of v with b at or below it and a at or above it. */
  ghost predicate Between(g: Dag, a: EventId, b: EventId, v: ValidatorId, x: EventId)
    requires a in g
  {
    x in g && g[x].creator == v && Observes(g, a, x) && Observes(g, x, b)
  }

  /** Validators that a does not see forking and that have an event between b and a. */
  ghost function Witnesses(g: Dag, vv: Group, a: EventId, b: EventId): set<ValidatorId>
    requires a in g
  {
    set v | v in vv.indexes.Keys && !SeesFork(g, a, v) && exists x :: Between(g, a, b, v, x)
  }

  /** a is forkless caused by b. */
  ghost predicate ForklessCause(g: Dag, vv: Group, a: EventId, b: EventId)
    requires a in g && b in g
  {
    !SeesFork(g, a, g[b].creator) && vv.HasQuorum(Witnesses(g, vv, a, b))
  }

  ghost function Cheaters(g: Dag, vv: Group): set<ValidatorId> {
    set v | v in vv.indexes.Keys && Cheater(g, v)
  }

  /** The Byzantine assumption: validators that fork anywhere in the graph hold at most a third of the weight. */
  ghost predicate FewCheaters(g: Dag, vv: Group) {
    3 * vv.WeightOf(Cheaters(g, vv)) <= vv.totalWeight
  }

  /** A quorum of witnesses between two events is a path between them. */
  lemma QuorumObserves(g: Dag, vv: Group, a: EventId, b: EventId)
    requires vv.Valid() && a in g && vv.HasQuorum(Witnesses(g, vv, a, b))
    ensures Observes(g, a, b)
  {
    hide Observes, SeesFork;
    var i := HeavierHasOther(vv, Witnesses(g, vv, a, b), {}, |vv.sorted|) by {
      WeightDisjointUpTo(vv, {}, |vv.sorted|);
    }
    var x :| Between(g, a, b, vv.sorted[i].id, x);
    ObservesTrans(g, a, x, b);
  }

  /** Forkless cause implies observation. */
  lemma CauseIsObserved(g: Dag, vv: Group, a: EventId, b: EventId)
    requires vv.Valid() && a in g && b in g && ForklessCause(g, vv, a, b)
    ensures Observes(g, a, b)
  {
    hide Observes, SeesFork, Witnesses;
    QuorumObserves(g, vv, a, b);
  }

  /** Fork exclusivity: two sides of a fork cannot forkless-cause anything, not even two different events. */
  lemma ForkExclusive(g: Dag, vv: Group, a1: EventId, b1: EventId, a2: EventId, b2: EventId)
    requires vv.Valid() && FewCheaters(g, vv)
    requires a1 in g && a2 in g && b1 in g && b2 in g
    requires g[b1].creator == g[b2].creator
    requires ForklessCause(g, vv, a1, b1) && ForklessCause(g, vv, a2, b2)
    ensures SelfAncestor(g, b1, b2) || SelfAncestor(g, b2, b1)
  {
    if !SelfAncestor(g, b1, b2) && !SelfAncestor(g, b2, b1) {
      var v := HonestInBoth(vv, Witnesses(g, vv, a1, b1), Witnesses(g, vv, a2, b2), Cheaters(g, vv));
      var x1 :| Between(g, a1, b1, v, x1);
      var x2 :| Between(g, a2, b2, v, x2);
      if g[x1].seqno <= g[x2].seqno {
        BothSidesSeen(g, a2, x2, x1, b2, b1);
      } else {
        BothSidesSeen(g, a1, x1, x2, b1, b2);
      }
    }
  }

  /** If the later of two events of an honest validator sits under a, then a sees the fork (b, c). */
  lemma BothSidesSeen(g: Dag, a: EventId, x: EventId, y: EventId, b: EventId, c: EventId)
    requires a in g && x in g && y in g && b in g && c in g
    requires g[x].creator == g[y].creator && !Cheater(g, g[x].creator) && g[y].seqno <= g[x].seqno
    requires Observes(g, a, x) && Observes(g, x, b) && Observes(g, y, c)
    requires g[b].creator == g[c].creator && !SelfAncestor(g, b, c) && !SelfAncestor(g, c, b)
    ensures SeesFork(g, a, g[b].creator)
  {
    HonestChain(g, y, x);
    ObservesTrans(g, x, y, c);
    ObservesTrans(g, a, x, b);
    ObservesTrans(g, a, x, c);
    IncomparableSeen(g, a, b, c);
  }

  // ---------------------------------------------------------------- stability

  lemma SeesForkStable(g: Dag, h: Dag, a: EventId, v: ValidatorId)
    requires Extends(g, h) && a in g
    ensures SeesFork(g, a, v) <==> SeesFork(h, a, v)
  {
    if SeesFork(g, a, v) {
      var x, y :| ForkPair(g, x, y) && g[x].creator == v && Observes(g, a, x) && Observes(g, a, y);
      ObservesStable(g, h, a, x);
      ObservesStable(g, h, a, y);
      assert ForkPair(h, x, y);
    }
    if SeesFork(h, a, v) {
      var x, y :| ForkPair(h, x, y) && h[x].creator == v && Observes(h, a, x) && Observes(h, a, y);
      ObservesStable(g, h, a, x);
      ObservesStable(g, h, a, y);
      ObservesOlder(g, a, x);
      ObservesOlder(g, a, y);
      assert ForkPair(g, x, y);
    }
  }

  /** Adding events never changes forkless cause between events already there. */
  lemma ForklessCauseStable(g: Dag, h: Dag, vv: Group, a: EventId, b: EventId)
    requires Extends(g, h) && a in g && b in g
    ensures ForklessCause(g, vv, a, b) <==> ForklessCause(h, vv, a, b)
  {
    SeesForkStable(g, h, a, g[b].creator);
    forall v ensures v in Witnesses(g, vv, a, b) <==> v in Witnesses(h, vv, a, b) {
      SeesForkStable(g, h, a, v);
      BetweenStable(g, h, a, b, v);
    }
    assert Witnesses(g, vv, a, b) == Witnesses(h, vv, a, b);
  }

  lemma BetweenStable(g: Dag, h: Dag, a: EventId, b: EventId, v: ValidatorId)
    requires Extends(g, h) && a in g
    ensures (exists x :: Between(g, a, b, v, x)) <==> (exists x :: Between(h, a, b, v, x))
  {
    forall x ensures Between(g, a, b, v, x) <==> Between(h, a, b, v, x) {
      ObservesStable(g, h, a, x);
      if Observes(g, a, x) {
        ObservesOlder(g, a, x);
        ObservesStable(g, h, x, b);
      }
    }
  }
}
