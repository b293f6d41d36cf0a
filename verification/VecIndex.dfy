/** Forkless cause computed from the vectors, its cache, and merged clocks (package vecfc). */
module VecIndex {
  import opened Validators
  import opened Weights
  import opened Dags
  import opened Causality
  import opened Vectors
  import opened VecState
  import opened VecEngine
  import Lru

  // ---------------------------------------------------------------- reading the vectors

  /** On branch br, the highest event a observes comes at or after the first one observing b. */
  ghost predicate Coherent(t: Tables, a: EventId, b: EventId, br: nat)
    requires a in t.before && b in t.after
  {
    var lowest, highest := Get<nat>(t.after[b], br, 0), Get(t.before[a], br, EMPTY);
    lowest <= highest.seqno && lowest != 0 && highest != FORK
  }

  lemma ExactParts(g: Dag, vv: Group, t: Tables)
    requires Exact(g, vv, t)
    ensures Stored(g, vv, t) && Chains(g, t.branchOf, t.bi.lastSeq) && Closed(g, t.branchOf.Keys)
    ensures t.branchOf.Keys == t.before.Keys == t.after.Keys
  {
    hide Chains, AllBeforeExact, AllAfterExact, BeforeWide, Closed, BranchesOk;
  }

  lemma BeforeAt(g: Dag, vv: Group, t: Tables, a: EventId, br: nat)
    requires Exact(g, vv, t) && a in t.before && a in g && br < |t.bi.creatorIdxs|
    ensures BeforeExact(g, t, a, br, Owner(vv, t.bi.creatorIdxs, br))
  {
    hide Chains, AllAfterExact, BeforeWide, Stored, BeforeExact;
  }

  lemma AfterAt(g: Dag, vv: Group, t: Tables, x: EventId, br: nat)
    requires Exact(g, vv, t) && x in t.after && br < |t.bi.creatorIdxs|
    ensures FirstObserver(g, t.branchOf, x, br, Get<nat>(t.after[x], br, 0))
  {
    hide Chains, AllBeforeExact, BeforeWide, Stored, FirstObserver;
  }

  /** Where a sees no fork, its entry covers every event it observes on the branch. */
  lemma BeforeSeen(g: Dag, t: Tables, a: EventId, br: nat, v: ValidatorId, x: EventId)
    requires a in g && a in t.before && x in g && BeforeExact(g, t, a, br, v) && !SeesFork(g, a, v)
    requires OnBranch(t.branchOf, x, br) && Observes(g, a, x)
    ensures Get(t.before[a], br, EMPTY) != FORK && g[x].seqno <= Get(t.before[a], br, EMPTY).seqno
  {
    hide SeesFork, Observes, RangeOf;
    RangeCovers(g, t.branchOf, Past(g, t.branchOf, a), br, Get(t.before[a], br, EMPTY), x);
    RangeNotFork(g, t.branchOf, Past(g, t.branchOf, a), br, Get(t.before[a], br, EMPTY));
  }

  /** A non-empty, unmarked entry comes from an event a observes on the branch; marks are where a sees forks. */
  lemma BeforeHighest(g: Dag, t: Tables, a: EventId, br: nat, v: ValidatorId) returns (hi: EventId)
    requires a in g && a in t.before && BeforeExact(g, t, a, br, v)
    requires Get(t.before[a], br, EMPTY) != FORK && Get(t.before[a], br, EMPTY).seqno != 0
    ensures !SeesFork(g, a, v)
    ensures OnBranch(t.branchOf, hi, br) && hi in g && Observes(g, a, hi)
    ensures g[hi].seqno == Get(t.before[a], br, EMPTY).seqno
  {
    hide SeesFork, Observes, RangeOf;
    var lo;
    hi, lo := RangeEnds(g, t.branchOf, Past(g, t.branchOf, a), br, Get(t.before[a], br, EMPTY));
  }

  lemma AfterSeen(g: Dag, t: map<EventId, nat>, x: EventId, br: nat, s: nat, y: EventId)
    requires FirstObserver(g, t, x, br, s) && y in g && OnBranch(t, y, br) && Observes(g, y, x)
    ensures s != 0 && s <= g[y].seqno
  {
    hide Observes;
    assert ObservesOn(g, t, y, x, br);
  }

  lemma AfterFirst(g: Dag, t: map<EventId, nat>, x: EventId, br: nat, s: nat) returns (y: EventId)
    requires FirstObserver(g, t, x, br, s) && s != 0
    ensures y in g && OnBranch(t, y, br) && Observes(g, y, x) && g[y].seqno == s
  {
    hide Observes;
    y :| ObservesOn(g, t, y, x, br) && g[y].seqno == s;
  }

  lemma CoherentDef(t: Tables, a: EventId, b: EventId, br: nat)
    requires a in t.before && b in t.after
    ensures Coherent(t, a, b, br) <==>
            Get<nat>(t.after[b], br, 0) <= Get(t.before[a], br, EMPTY).seqno && Get<nat>(t.after[b], br, 0) != 0
            && Get(t.before[a], br, EMPTY) != FORK
  {
  }

  lemma BetweenDef(g: Dag, a: EventId, b: EventId, v: ValidatorId, x: EventId)
    requires a in g
    ensures Between(g, a, b, v, x) <==> x in g && g[x].creator == v && Observes(g, a, x) && Observes(g, x, b)
  {
    hide Observes;
  }

  lemma SameBranchObserves(g: Dag, t: map<EventId, nat>, lastSeq: seq<nat>, x: EventId, y: EventId, br: nat)
    requires Chains(g, t, lastSeq) && x in g && y in g && OnBranch(t, x, br) && OnBranch(t, y, br)
    requires g[x].seqno <= g[y].seqno
    ensures Observes(g, y, x)
  {
    hide Observes;
    assert SameBranch(t, x, y);
    SelfAtObserved(g, y, g[x].seqno);
  }

  /** A coherent branch shows an event of its owner between b and a. */
  lemma CoherentBetween(g: Dag, vv: Group, t: Tables, a: EventId, b: EventId, br: nat) returns (x: EventId)
    requires Exact(g, vv, t) && vv.Valid() && CreatorsIn(g, vv) && a in t.before && b in t.after && a in g
    requires br < |t.bi.creatorIdxs| && Coherent(t, a, b, br)
    ensures Between(g, a, b, Owner(vv, t.bi.creatorIdxs, br), x) && !SeesFork(g, a, Owner(vv, t.bi.creatorIdxs, br))
  {
    hide *;
    ExactParts(g, vv, t);
    CoherentDef(t, a, b, br);
    BeforeAt(g, vv, t, a, br);
    AfterAt(g, vv, t, b, br);
    var hi := BeforeHighest(g, t, a, br, Owner(vv, t.bi.creatorIdxs, br));
    x := AfterFirst(g, t.branchOf, b, br, Get<nat>(t.after[b], br, 0));
    SameBranchObserves(g, t.branchOf, t.bi.lastSeq, x, hi, br);
    ObservesTrans(g, a, hi, x);
    OnBranchOwner(g, vv, t, x, br);
    BetweenDef(g, a, b, Owner(vv, t.bi.creatorIdxs, br), x);
  }

  lemma OnBranchOwner(g: Dag, vv: Group, t: Tables, x: EventId, br: nat)
    requires Stored(g, vv, t) && vv.Valid() && CreatorsIn(g, vv) && OnBranch(t.branchOf, x, br)
    ensures x in g && br < |t.bi.creatorIdxs| && Owner(vv, t.bi.creatorIdxs, br) == g[x].creator
  {
    OwnerIsCreator(g, vv, t, x);
  }

  lemma OwnerIsCreator(g: Dag, vv: Group, t: Tables, x: EventId)
    requires Stored(g, vv, t) && vv.Valid() && CreatorsIn(g, vv) && x in t.branchOf
    ensures x in g && t.branchOf[x] < |t.bi.creatorIdxs| && OnBranch(t.branchOf, x, t.branchOf[x])
    ensures Owner(vv, t.bi.creatorIdxs, t.branchOf[x]) == g[x].creator
  {
    hide BranchesOk;
    assert vv.Exists(g[x].creator);
  }

  /** An event between b and a, of a validator a does not see forking, makes its branch coherent. */
  lemma BetweenCoherent(g: Dag, vv: Group, t: Tables, a: EventId, b: EventId, x: EventId)
    requires Exact(g, vv, t) && vv.Valid() && CreatorsIn(g, vv) && a in t.before && b in t.after && a in g && x in g
    requires Between(g, a, b, g[x].creator, x) && !SeesFork(g, a, g[x].creator)
    ensures x in t.branchOf && t.branchOf[x] < |t.bi.creatorIdxs|
    ensures Owner(vv, t.bi.creatorIdxs, t.branchOf[x]) == g[x].creator && Coherent(t, a, b, t.branchOf[x])
  {
    hide *;
    ExactParts(g, vv, t);
    BetweenDef(g, a, b, g[x].creator, x);
    ClosedObserves(g, t.branchOf.Keys, a, x);
    OwnerIsCreator(g, vv, t, x);
    var br := t.branchOf[x];
    BeforeAt(g, vv, t, a, br);
    BeforeSeen(g, t, a, br, g[x].creator, x);
    AfterAt(g, vv, t, b, br);
    AfterSeen(g, t.branchOf, b, br, Get<nat>(t.after[b], br, 0), x);
    CoherentDef(t, a, b, br);
  }

  /** Owners of coherent branches among the first n. */
  ghost function CoherentOwners(vv: Group, t: Tables, a: EventId, b: EventId, n: nat): set<ValidatorId>
    requires a in t.before && b in t.after
  {
    set br | 0 <= br < n && Coherent(t, a, b, br) :: Owner(vv, t.bi.creatorIdxs, br)
  }

  lemma OwnersAreWitnesses(g: Dag, vv: Group, t: Tables, a: EventId, b: EventId)
    requires Exact(g, vv, t) && vv.Valid() && CreatorsIn(g, vv) && a in t.before && b in t.after && a in g
    ensures CoherentOwners(vv, t, a, b, |t.bi.creatorIdxs|) == Witnesses(g, vv, a, b)
  {
    hide Exact, Coherent, SeesFork, Observes, CreatorsIn;
    forall v | v in CoherentOwners(vv, t, a, b, |t.bi.creatorIdxs|) ensures v in Witnesses(g, vv, a, b) {
      var br :| 0 <= br < |t.bi.creatorIdxs| && Coherent(t, a, b, br) && Owner(vv, t.bi.creatorIdxs, br) == v;
      var x := CoherentBetween(g, vv, t, a, b, br);
      CreatorListed(g, vv, x);
    }
    forall v | v in Witnesses(g, vv, a, b) ensures v in CoherentOwners(vv, t, a, b, |t.bi.creatorIdxs|) {
      var x :| Between(g, a, b, v, x);
      BetweenCoherent(g, vv, t, a, b, x);
    }
  }

  lemma CreatorListed(g: Dag, vv: Group, x: EventId)
    requires CreatorsIn(g, vv) && x in g
    ensures g[x].creator in vv.indexes
  {
  }

  /** When a observes b, the mark on b's branch says whether a sees b's creator fork. */
  lemma MarkIsFork(g: Dag, vv: Group, t: Tables, a: EventId, b: EventId)
    requires Exact(g, vv, t) && vv.Valid() && CreatorsIn(g, vv) && a in t.before && b in t.branchOf && a in g && b in g
    requires Observes(g, a, b)
    ensures Get(t.before[a], t.branchOf[b], EMPTY) == FORK <==> SeesFork(g, a, g[b].creator)
  {
    hide *;
    ExactParts(g, vv, t);
    OwnerIsCreator(g, vv, t, b);
    BeforeAt(g, vv, t, a, t.branchOf[b]);
    if SeesFork(g, a, g[b].creator) {
      WideEnough(g, vv, t, a, b);
      MarkedEntry(g, t, a, t.branchOf[b], g[b].creator);
    } else {
      BeforeSeen(g, t, a, t.branchOf[b], g[b].creator, b);
    }
  }

  lemma WideEnough(g: Dag, vv: Group, t: Tables, a: EventId, b: EventId)
    requires Exact(g, vv, t) && a in t.before && b in t.branchOf && a in g && Observes(g, a, b)
    ensures t.branchOf[b] < |t.before[a]|
  {
    hide Stored, Chains, AllBeforeExact, AllAfterExact, Observes;
  }

  lemma MarkedEntry(g: Dag, t: Tables, a: EventId, br: nat, v: ValidatorId)
    requires a in g && a in t.before && BeforeExact(g, t, a, br, v) && SeesFork(g, a, v) && br < |t.before[a]|
    ensures Get(t.before[a], br, EMPTY) == FORK
  {
    hide SeesFork, RangeOf;
  }

  /** Without extra branches nobody sees a fork. */
  lemma NoForkSeen(g: Dag, vv: Group, t: Tables, a: EventId, v: ValidatorId)
    requires Exact(g, vv, t) && vv.Valid() && CreatorsIn(g, vv) && a in t.branchOf && a in g
    requires |t.bi.creatorIdxs| == vv.Len()
    ensures !SeesFork(g, a, v)
  {
    hide Exact, Observes, Stored, Chains, Closed, CreatorsIn;
    ExactParts(g, vv, t);
    if SeesFork(g, a, v) {
      var x, y :| ForkPair(g, x, y) && g[x].creator == v && Observes(g, a, x) && Observes(g, a, y);
      ClosedObserves(g, t.branchOf.Keys, a, x);
      ClosedObserves(g, t.branchOf.Keys, a, y);
      ForkOnTwoBranches(g, t.branchOf, t.bi.lastSeq, x, y);
      SingleBranch(g, vv, t, x, y);
    }
  }

  lemma SingleBranch(g: Dag, vv: Group, t: Tables, x: EventId, y: EventId)
    requires Stored(g, vv, t) && x in t.branchOf && y in t.branchOf && g[x].creator == g[y].creator
    requires |t.bi.creatorIdxs| == vv.Len()
    ensures t.branchOf[x] == t.branchOf[y]
  {
    hide Closed;
  }

  /** The verdict of the two checks of forklessCause is the graph relation. */
  lemma VerdictIsCause(g: Dag, vv: Group, t: Tables, a: EventId, b: EventId, marked: bool)
    requires Exact(g, vv, t) && vv.Valid() && CreatorsIn(g, vv) && a in t.before && b in t.branchOf && a in g && b in g
    requires marked <==> |t.bi.creatorIdxs| > vv.Len() && Get(t.before[a], t.branchOf[b], EMPTY) == FORK
    ensures ForklessCause(g, vv, a, b) <==> !marked && vv.HasQuorum(Witnesses(g, vv, a, b))
  {
    hide Exact, Observes, SeesFork, Witnesses, CreatorsIn;
    if vv.HasQuorum(Witnesses(g, vv, a, b)) {
      QuorumObserves(g, vv, a, b);
      ExactShape(g, vv, t, a);
      if |t.bi.creatorIdxs| > vv.Len() {
        MarkIsFork(g, vv, t, a, b);
      } else {
        NoForkSeen(g, vv, t, a, g[b].creator);
      }
    }
  }

  lemma ExactShape(g: Dag, vv: Group, t: Tables, a: EventId)
    requires Exact(g, vv, t)
    ensures |t.bi.creatorIdxs| >= vv.Len() && t.branchOf.Keys == t.before.Keys == t.after.Keys
    ensures |t.bi.creatorIdxs| == |t.bi.lastSeq|
    ensures forall x :: x in t.branchOf ==> x in g && t.branchOf[x] < |t.bi.creatorIdxs|
    ensures forall br :: 0 <= br < |t.bi.creatorIdxs| ==> t.bi.creatorIdxs[br] < vv.Len()
  {
    hide Chains, AllBeforeExact, AllAfterExact, BeforeWide;
  }

  /** The merged clock of `a` for validator v: the fork marker, or the highest sequence number a observes. */
  ghost predicate MergedExact(g: Dag, t: map<EventId, nat>, a: EventId, v: ValidatorId, s: BranchSeq)
    requires a in g
  {
    if SeesFork(g, a, v) then s == FORK
    else
      && s != FORK
      && (forall x :: x in t && x in g && g[x].creator == v && Observes(g, a, x) ==> g[x].seqno <= s.seqno)
      && (s.seqno == 0 || exists x :: x in g && g[x].creator == v && Observes(g, a, x) && g[x].seqno == s.seqno)
  }

  lemma MergedHolds(g: Dag, vv: Group, t: Tables, a: EventId, c: nat, s: BranchSeq)
    requires Exact(g, vv, t) && vv.Valid() && CreatorsIn(g, vv) && a in t.before && a in g
    requires c < |vv.sorted| == vv.Len() == |t.bi.byCreators|
    requires s == FORK <==> exists b :: b in t.bi.byCreators[c] && Get(t.before[a], b, EMPTY) == FORK
    requires s != FORK ==> forall b :: b in t.bi.byCreators[c] ==> Get(t.before[a], b, EMPTY).seqno <= s.seqno
    requires s == EMPTY || exists b :: b in t.bi.byCreators[c] && Get(t.before[a], b, EMPTY) == s
    ensures MergedExact(g, t.branchOf, a, vv.sorted[c].id, s)
  {
    hide *;
    var v := vv.sorted[c].id;
    ExactParts(g, vv, t);
    BranchesOfCreator(g, vv, t, c);
    if SeesFork(g, a, v) {
      BeforeWidth(g, vv, t, a);
      BeforeAt(g, vv, t, a, c);
      MarkedEntry(g, t, a, c, v);
      MergedFork(g, t.branchOf, a, v, s);
    } else {
      forall b | b in t.bi.byCreators[c]
        ensures BeforeExact(g, t, a, b, v) && Owner(vv, t.bi.creatorIdxs, b) == v && b < |t.bi.creatorIdxs|
      {
        BeforeAt(g, vv, t, a, b);
      }
      MergedRange(g, vv, t, a, c, s);
    }
  }

  lemma BranchesOfCreator(g: Dag, vv: Group, t: Tables, c: nat)
    requires Stored(g, vv, t) && c < vv.Len() == |t.bi.byCreators|
    ensures c in t.bi.byCreators[c] && c < |t.bi.creatorIdxs|
    ensures forall b :: b in t.bi.byCreators[c] ==>
              b < |t.bi.creatorIdxs| && Owner(vv, t.bi.creatorIdxs, b) == vv.sorted[c].id
  {
    hide Owned, Shaped;
    assert t.bi.creatorIdxs[c] == c;
  }

  lemma MergedFork(g: Dag, t: map<EventId, nat>, a: EventId, v: ValidatorId, s: BranchSeq)
    requires a in g && SeesFork(g, a, v) && s == FORK
    ensures MergedExact(g, t, a, v, s)
  {
    hide SeesFork;
  }

  lemma MergedRange(g: Dag, vv: Group, t: Tables, a: EventId, c: nat, s: BranchSeq)
    requires Stored(g, vv, t) && vv.Valid() && CreatorsIn(g, vv) && a in t.before && a in g
    requires c < vv.Len() == |t.bi.byCreators|
    requires !SeesFork(g, a, vv.sorted[c].id)
    requires forall b :: b in t.bi.byCreators[c] ==> BeforeExact(g, t, a, b, vv.sorted[c].id)
    requires forall b :: b in t.bi.byCreators[c] ==>
               b < |t.bi.creatorIdxs| && Owner(vv, t.bi.creatorIdxs, b) == vv.sorted[c].id
    requires s == FORK <==> exists b :: b in t.bi.byCreators[c] && Get(t.before[a], b, EMPTY) == FORK
    requires s != FORK ==> forall b :: b in t.bi.byCreators[c] ==> Get(t.before[a], b, EMPTY).seqno <= s.seqno
    requires s == EMPTY || exists b :: b in t.bi.byCreators[c] && Get(t.before[a], b, EMPTY) == s
    ensures MergedExact(g, t.branchOf, a, vv.sorted[c].id, s)
  {
    hide Observes, SeesFork, BeforeExact, Stored, CreatorsIn, Owner;
    var v := vv.sorted[c].id;
    forall b | b in t.bi.byCreators[c] ensures Get(t.before[a], b, EMPTY) != FORK {
      UnmarkedEntry(g, t, a, b, v);
    }
    forall x | x in t.branchOf && x in g && g[x].creator == v && Observes(g, a, x) ensures g[x].seqno <= s.seqno {
      CreatorIndex(g, vv, t, x, c);
      OwnerIsCreator(g, vv, t, x);
      BeforeSeen(g, t, a, t.branchOf[x], v, x);
    }
    if s.seqno != 0 {
      var b :| b in t.bi.byCreators[c] && Get(t.before[a], b, EMPTY) == s;
      var hi := BeforeHighest(g, t, a, b, v);
      OnBranchOwner(g, vv, t, hi, b);
    }
  }

  lemma UnmarkedEntry(g: Dag, t: Tables, a: EventId, br: nat, v: ValidatorId)
    requires a in g && a in t.before && BeforeExact(g, t, a, br, v) && !SeesFork(g, a, v)
    ensures Get(t.before[a], br, EMPTY) != FORK
  {
    hide SeesFork, Observes;
  }

  lemma CreatorIndex(g: Dag, vv: Group, t: Tables, x: EventId, c: nat)
    requires Stored(g, vv, t) && vv.Valid() && x in t.branchOf && x in g && c < vv.Len()
    requires g[x].creator == vv.sorted[c].id
    ensures t.branchOf[x] in t.bi.byCreators[c]
  {
  }

  // ---------------------------------------------------------------- the index

  /** Every cached answer is right. */
  ghost predicate AnswersRight(g: Dag, vv: Group, items: map<(EventId, EventId), Lru.Entry<bool>>) {
    forall k :: k in items ==> k.0 in g && k.1 in g && (items[k].value <==> ForklessCause(g, vv, k.0, k.1))
  }

  lemma AnswerIs(g: Dag, vv: Group, cache: Lru.Cache<(EventId, EventId), bool>, k: (EventId, EventId))
    requires AnswersRight(g, vv, cache.items)
    ensures cache.Peek(k).Some? ==> k.0 in g && k.1 in g && (cache.Peek(k).value <==> ForklessCause(g, vv, k.0, k.1))
  {
    hide ForklessCause;
  }

  lemma AnswersMore(
    g: Dag, vv: Group, items: map<(EventId, EventId), Lru.Entry<bool>>, key: (EventId, EventId), r: bool,
    next: map<(EventId, EventId), Lru.Entry<bool>>)
    requires AnswersRight(g, vv, items) && key.0 in g && key.1 in g && (r <==> ForklessCause(g, vv, key.0, key.1))
    requires forall k :: k in next ==> k in items[key := Lru.Entry(r, 1)] && next[k] == items[key := Lru.Entry(r, 1)][k]
    ensures AnswersRight(g, vv, next)
  {
    hide ForklessCause;
  }

  class Index {
    const engine: Engine
    const cache: Lru.Cache<(EventId, EventId), bool>

    /** The cache is only purged on reset, so each of its answers must be right for good. */
    ghost predicate Valid()
      reads this, engine, cache
    {
      engine.Valid() && engine.IsExact() && cache.Valid() && AnswersRight(engine.input, engine.vv, cache.items)
    }

    lemma ValidIs()
      ensures Valid() <==>
              engine.Valid() && engine.IsExact() && cache.Valid() && AnswersRight(engine.input, engine.vv, cache.items)
    {
      hide engine.Valid, engine.IsExact, cache.Valid, AnswersRight;
    }

    constructor (vv: Group, input: Dag, cacheSize: nat)
      requires vv.Valid() && CreatorsIn(input, vv)
      ensures Valid() && fresh(engine) && fresh(cache) && engine.vv == vv && engine.input == input
      ensures engine.t.branchOf == map[] && engine.flushed == engine.t
    {
      engine := new Engine(vv, input);
      cache := new Lru.Cache(cacheSize, cacheSize);
    }

    /** An index that starts from given tables, with an empty cache. */
    constructor Over(vv: Group, input: Dag, t: Tables, cacheSize: nat)
      requires vv.Valid() && CreatorsIn(input, vv) && Exact(input, vv, t)
      ensures Valid() && fresh(engine) && fresh(cache) && engine.vv == vv && engine.input == input
      ensures engine.t == t && engine.flushed == t
    {
      hide Exact, CreatorsIn, ForklessCause, Stored;
      engine := new Engine.Over(vv, input, t);
      cache := new Lru.Cache(cacheSize, cacheSize);
    }

    /** forklessCause: the vectors give exactly the relation of the graph. */
    method ComputeForklessCause(a: EventId, b: EventId) returns (r: bool)
      requires engine.Valid() && engine.IsExact() && a in engine.t.branchOf && b in engine.t.branchOf
      ensures a in engine.input && b in engine.input
      ensures r <==> ForklessCause(engine.input, engine.vv, a, b)
    {
      hide *;
      engine.FromValid();
      engine.ToValid();
      ExactShape(engine.input, engine.vv, engine.t, a);
      var t, vv := engine.t, engine.vv;
      var aVec, bVec := t.before[a], t.after[b];
      ghost var marked := |t.bi.creatorIdxs| > vv.Len() && Get(aVec, t.branchOf[b], EMPTY) == FORK;
      VerdictIsCause(engine.input, vv, t, a, b, marked);
      OwnersAreWitnesses(engine.input, vv, t, a, b);
      ForkTest(engine, aVec, t.branchOf[b]);
      if engine.AtLeastOneFork() && Get(aVec, t.branchOf[b], EMPTY).IsForkDetected() {
        return false;
      }
      var yes := new WeightCounter(vv);
      OwnersStart(vv, t, a, b);
      for br := 0 to |t.bi.creatorIdxs|
        invariant yes.Valid() && yes.group == vv && fresh(yes) && |yes.already| == yes.group.Len()
        invariant yes.Counted() == CoherentOwners(vv, t, a, b, br)
      {
        var lowest, highest := Get<nat>(bVec, br, 0), Get(aVec, br, EMPTY);
        OwnersStep(vv, t, a, b, br);
        CounterIndex(yes);
        MarkTest(highest);
        if lowest <= highest.seqno && lowest != 0 && !highest.IsForkDetected() {
          var _ := yes.CountByIdx(t.bi.creatorIdxs[br]);
          CounterIndex(yes);
        }
      }
      r := yes.HasQuorum();
    }

    /** ForklessCause: the cached answer always equals what would be computed now. */
    method ForklessCauseOf(a: EventId, b: EventId) returns (r: bool)
      requires Valid() && a in engine.t.branchOf && b in engine.t.branchOf
      modifies cache
      ensures Valid() && a in engine.input && b in engine.input
      ensures r <==> ForklessCause(engine.input, engine.vv, a, b)
    {
      hide *;
      ValidIs();
      var key := (a, b);
      AnswerIs(engine.input, engine.vv, cache, key);
      var found := cache.Get(key);
      if found.Some? {
        AnswerIs(engine.input, engine.vv, cache, key);
        ValidIs();
        return found.value;
      }
      r := ComputeForklessCause(a, b);
      ghost var before := cache.items;
      var _ := cache.Add(key, r, 1);
      AnswersMore(engine.input, engine.vv, before, key, r, cache.items);
      ValidIs();
    }

    /** GetMergedHighestBefore: per validator, whether `id` sees it fork and otherwise how far it sees it. */
    method GetMergedHighestBefore(id: EventId) returns (r: seq<BranchSeq>)
      requires engine.Valid() && engine.IsExact() && id in engine.t.branchOf
      ensures id in engine.input && |r| >= engine.vv.Len()
      ensures forall c :: 0 <= c < engine.vv.Len() ==>
                MergedExact(engine.input, engine.t.branchOf, id, engine.vv.sorted[c].id, r[c])
    {
      hide MergedExact, Exact, Stored, CreatorsIn;
      engine.FromValid();
      ExactShape(engine.input, engine.vv, engine.t, id);
      ExactBranches(engine.input, engine.vv, engine.t);
      var t, vv := engine.t, engine.vv;
      if engine.AtLeastOneFork() {
        r := [];
        for c := 0 to vv.Len()
          invariant |r| == c
          invariant forall k :: 0 <= k < c ==> MergedExact(engine.input, t.branchOf, id, vv.sorted[k].id, r[k])
        {
          var s := GatherFrom(t.before[id], t.bi.byCreators[c]);
          GatheredMerged(engine.input, vv, t, id, c, s);
          r := r + [s];
        }
      } else {
        r := t.before[id];
        forall c | 0 <= c < vv.Len()
            ensures |r| >= vv.Len() && MergedExact(engine.input, t.branchOf, id, vv.sorted[c].id, r[c]) {
          PlainMerged(engine.input, vv, t, id, c);
        }
        BeforeWidth(engine.input, vv, t, id);
      }
    }

    /** The cheaters reported with a block: exactly the validators the Atropos sees forking, in validator order. */
    method CheatersSeenBy(atropos: EventId) returns (r: seq<ValidatorId>)
      requires engine.Valid() && engine.IsExact() && atropos in engine.t.branchOf
      ensures atropos in engine.input
      ensures forall c :: 0 <= c < engine.vv.Len() ==>
                (engine.vv.sorted[c].id in r <==> SeesFork(engine.input, atropos, engine.vv.sorted[c].id))
      ensures forall v :: v in r ==> engine.vv.Exists(v)
      ensures forall i, j :: 0 <= i < j < |r| ==> engine.vv.GetIdx(r[i]) < engine.vv.GetIdx(r[j])
    {
      hide *;
      engine.FromValid();
      var clock := GetMergedHighestBefore(atropos);
      var vv := engine.vv;
      r := [];
      NoCheatersYet(engine.input, vv, atropos);
      LenIs(vv);
      for c := 0 to vv.Len()
        invariant CheatersUpTo(engine.input, vv, atropos, r, c)
      {
        MergedMark(engine.input, engine.t.branchOf, atropos, vv.sorted[c].id, clock[c]);
        MarkTest(clock[c]);
        CheatersNext(engine.input, vv, atropos, r, c);
        if clock[c].IsForkDetected() {
          r := r + [vv.sorted[c].id];
        }
      }
      CheatersAll(engine.input, vv, atropos, r);
    }
  }

  /** The validators among the first c that `atropos` sees forking, in order. */
  ghost predicate CheatersUpTo(g: Dag, vv: Group, atropos: EventId, r: seq<ValidatorId>, c: nat)
    requires atropos in g
  {
    && c <= |vv.sorted|
    && (forall k :: 0 <= k < c ==> (vv.sorted[k].id in r <==> SeesFork(g, atropos, vv.sorted[k].id)))
    && (forall v :: v in r ==> vv.Exists(v) && vv.GetIdx(v) < c)
    && (forall i, j :: 0 <= i < j < |r| ==> vv.GetIdx(r[i]) < vv.GetIdx(r[j]))
  }

  lemma LenIs(vv: Group)
    ensures vv.Len() == |vv.sorted|
  {
  }

  lemma NoCheatersYet(g: Dag, vv: Group, atropos: EventId)
    requires atropos in g
    ensures CheatersUpTo(g, vv, atropos, [], 0)
  {
  }

  lemma IndexAt(vv: Group, k: nat)
    requires vv.Valid() && k < |vv.sorted|
    ensures vv.Exists(vv.sorted[k].id) && vv.GetIdx(vv.sorted[k].id) == k
  {
    hide Ascending, SumUpTo;
  }

  lemma CheatersNext(g: Dag, vv: Group, atropos: EventId, r: seq<ValidatorId>, c: nat)
    requires atropos in g && vv.Valid() && CheatersUpTo(g, vv, atropos, r, c) && c < |vv.sorted|
    ensures CheatersUpTo(g, vv, atropos, if SeesFork(g, atropos, vv.sorted[c].id) then r + [vv.sorted[c].id]
            else r, c + 1)
  {
    hide vv.Valid, SeesFork, vv.GetIdx, vv.Exists;
    var last := vv.sorted[c].id;
    var next := if SeesFork(g, atropos, last) then r + [last] else r;
    IndexAt(vv, c);
    forall k | 0 <= k <= c ensures vv.sorted[k].id in next <==> SeesFork(g, atropos, vv.sorted[k].id) {
      IndexAt(vv, k);
    }
    forall i, j | 0 <= i < j < |next| ensures vv.GetIdx(next[i]) < vv.GetIdx(next[j]) {
      assert next[i] in r;
    }
  }

  lemma CheatersAll(g: Dag, vv: Group, atropos: EventId, r: seq<ValidatorId>)
    requires atropos in g && vv.Valid() && CheatersUpTo(g, vv, atropos, r, vv.Len())
    ensures forall c :: 0 <= c < vv.Len() ==> (vv.sorted[c].id in r <==> SeesFork(g, atropos, vv.sorted[c].id))
    ensures forall v :: v in r ==> vv.Exists(v)
    ensures forall i, j :: 0 <= i < j < |r| ==> vv.GetIdx(r[i]) < vv.GetIdx(r[j])
  {
    hide SeesFork;
  }

  lemma MergedMark(g: Dag, t: map<EventId, nat>, a: EventId, v: ValidatorId, s: BranchSeq)
    requires a in g && MergedExact(g, t, a, v, s)
    ensures s == FORK <==> SeesFork(g, a, v)
  {
    hide SeesFork, Observes;
  }

  lemma ExactBranches(g: Dag, vv: Group, t: Tables)
    requires Exact(g, vv, t)
    ensures |t.bi.byCreators| == vv.Len()
  {
    hide Chains, AllBeforeExact, AllAfterExact, BeforeWide;
  }

  lemma BeforeWidth(g: Dag, vv: Group, t: Tables, a: EventId)
    requires Exact(g, vv, t) && a in t.before
    ensures |t.before[a]| >= vv.Len()
  {
    hide Chains, AllBeforeExact, AllAfterExact, BeforeWide;
  }

  lemma GatheredMerged(g: Dag, vv: Group, t: Tables, a: EventId, c: nat, s: BranchSeq)
    requires Exact(g, vv, t) && vv.Valid() && CreatorsIn(g, vv) && a in t.before && a in g && c < vv.Len()
    requires |t.bi.byCreators| == vv.Len()
    requires var from := t.bi.byCreators[c];
             && (s == FORK <==> exists i :: 0 <= i < |from| && Get(t.before[a], from[i], EMPTY) == FORK)
             && (s != FORK ==> forall i :: 0 <= i < |from| ==> Get(t.before[a], from[i], EMPTY).seqno <= s.seqno)
             && (s == EMPTY || exists i :: 0 <= i < |from| && Get(t.before[a], from[i], EMPTY) == s)
    ensures MergedExact(g, t.branchOf, a, vv.sorted[c].id, s)
  {
    hide MergedExact, Exact, CreatorsIn;
    var from := t.bi.byCreators[c];
    assert forall i :: 0 <= i < |from| ==> from[i] in from;
    MergedHolds(g, vv, t, a, c, s);
  }

  lemma PlainMerged(g: Dag, vv: Group, t: Tables, a: EventId, c: nat)
    requires Exact(g, vv, t) && vv.Valid() && CreatorsIn(g, vv) && a in t.before && a in g && c < vv.Len()
    requires |t.bi.creatorIdxs| == vv.Len()
    ensures |t.before[a]| >= vv.Len()
    ensures MergedExact(g, t.branchOf, a, vv.sorted[c].id, t.before[a][c])
  {
    hide MergedExact, CreatorsIn, AllBeforeExact, AllAfterExact, BeforeWide, Chains;
    assert t.bi.creatorIdxs[c] == c;
    assert forall b :: b in t.bi.byCreators[c] ==> b == c;
    assert c in t.bi.byCreators[c];
    MergedHolds(g, vv, t, a, c, t.before[a][c]);
  }

  lemma OwnersStart(vv: Group, t: Tables, a: EventId, b: EventId)
    requires a in t.before && b in t.after
    ensures CoherentOwners(vv, t, a, b, 0) == {}
  {
  }

  lemma OwnersStep(vv: Group, t: Tables, a: EventId, b: EventId, br: nat)
    requires a in t.before && b in t.after && br < |t.bi.creatorIdxs| && t.bi.creatorIdxs[br] < vv.Len()
    ensures var lowest, highest := Get<nat>(t.after[b], br, 0), Get(t.before[a], br, EMPTY);
            CoherentOwners(vv, t, a, b, br + 1) ==
            CoherentOwners(vv, t, a, b, br)
            + if lowest <= highest.seqno && lowest != 0 && highest != FORK then {vv.GetID(t.bi.creatorIdxs[br])} else {}
  {
    assert Coherent(t, a, b, br) ==> Owner(vv, t.bi.creatorIdxs, br) in CoherentOwners(vv, t, a, b, br + 1);
  }

  lemma ForkTest(engine: Engine, vec: seq<BranchSeq>, i: nat)
    ensures engine.AtLeastOneFork() <==> |engine.t.bi.creatorIdxs| > engine.vv.Len()
    ensures Get(vec, i, EMPTY).IsForkDetected() <==> Get(vec, i, EMPTY) == FORK
  {
  }

  lemma MarkTest(s: BranchSeq)
    ensures s.IsForkDetected() <==> s == FORK
  {
  }

  lemma CounterIndex(c: WeightCounter)
    requires c.Valid()
    ensures |c.already| == c.group.Len()
  {
  }
}
