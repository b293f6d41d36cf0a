/** Past the branch cap the index can miss a fork: a run that shows it. */
module VecCap {
  import opened Validators
  import opened Dags
  import opened Causality
  import opened Vectors
  import opened VecState
  import opened VecAdd
  import opened VecEngine

  const FORKER: ValidatorId := 1
  const OTHER: ValidatorId := 2

  function TwoValidators(): Group {
    Group([Validator(FORKER, 1), Validator(OTHER, 1)], map[FORKER := 0, OTHER := 1], 2)
  }

  /** A parentless event of the forking validator. */
  function Side(i: nat): Event {
    Event(i, 1, FORKER, 1, 1, 1, [])
  }

  /** The first event of the other validator, on the two sides past the cap. */
  function Watcher(): Event {
    Event(MAX_BRANCHES_PER_VALIDATOR + 2, 1, OTHER, 1, 2, 1,
        [MAX_BRANCHES_PER_VALIDATOR, MAX_BRANCHES_PER_VALIDATOR + 1])
  }

  /** One parentless event more than the cap, twice, and an event that observes the last two of them only. */
  function ManySides(): map<EventId, Event> {
    (map i: EventId | 0 <= i < MAX_BRANCHES_PER_VALIDATOR + 2 :: Side(i))[Watcher().id := Watcher()]
  }

  lemma ManySidesDag()
    ensures IsDag(ManySides()) && TwoValidators().Valid() && CreatorsIn(ManySides(), TwoValidators())
  {
    hide TwoValidators;
    var g := ManySides();
    forall id | id in g ensures g[id].id == id && Linked(g, g[id]) {
      assert id != Watcher().id ==> g[id] == Side(id);
    }
    TwoValidatorsOk();
  }

  lemma TwoValidatorsOk()
    ensures TwoValidators().Valid() && TwoValidators().Exists(FORKER) && TwoValidators().Exists(OTHER)
  {
    assert SumUpTo(TwoValidators().sorted, 0) == 0;
    assert SumUpTo(TwoValidators().sorted, 1) == 1;
  }

  lemma WatcherSeesFork()
    requires IsDag(ManySides())
    ensures SeesFork(ManySides(), Watcher().id, FORKER)
  {
    var g: Dag := ManySides();
    var x, y := MAX_BRANCHES_PER_VALIDATOR, MAX_BRANCHES_PER_VALIDATOR + 1;
    assert x in g[Watcher().id].parents && y in g[Watcher().id].parents;
    assert Observes(g, x, x) && Observes(g, y, y);
    assert ForkPair(g, x, y);
  }

  /** How far the run is: n sides are in, each on a branch of its own up to the cap. */
  ghost predicate SidesIn(t: Tables, n: nat) {
    && |t.bi.byCreators| == 2 && |t.bi.lastSeq| >= 2 && t.bi.lastSeq[1] == 0 && |t.bi.byCreators[1]| == 1
    && (t.bi.lastSeq[0] == 0 <==> n == 0)
    && |t.bi.byCreators[0]| ==
        (if n == 0 then 1 else if n < MAX_BRANCHES_PER_VALIDATOR then n else MAX_BRANCHES_PER_VALIDATOR)
    && (forall i :: i in t.branchOf <==> 0 <= i < n)
  }

  /** The vector holds (1, 1) on the given branches and nothing else. */
  ghost predicate OnesOn(vec: seq<BranchSeq>, branches: set<nat>) {
    forall b :: Get(vec, b, EMPTY) == if b in branches then BranchSeq(1, 1) else EMPTY
  }

  /** No validator has two of the branches. */
  ghost predicate Spread(bi: BranchesInfo, branches: set<nat>) {
    forall c, x, y ::
      (0 <= c < |bi.byCreators| && x in branches && y in branches && x in bi.byCreators[c]
          && y in bi.byCreators[c]) ==> x == y
  }

  /** A validator with at most one branch in the vector is not detected. */
  lemma OneBranchUnseen(bi: BranchesInfo, vec: seq<BranchSeq>, branches: set<nat>, c: nat)
    requires c < |bi.byCreators| && OnesOn(vec, branches) && Spread(bi, branches)
    ensures !Detected(bi, vec, c)
  {
    assert forall b :: 0 <= b < |vec| ==> vec[b] == Get(vec, b, EMPTY);
  }

  lemma MarkedOnes(vv: Group, bi: BranchesInfo, vec: seq<BranchSeq>, branches: set<nat>, r: seq<BranchSeq>)
    requires BranchesOk(vv, bi) && OnesOn(vec, branches) && Marked(bi, vec, r) && |vec| == |bi.creatorIdxs|
    requires Spread(bi, branches)
    ensures OnesOn(r, branches)
  {
    hide Detected, Spread;
    forall b: nat ensures Get(r, b, EMPTY) == Get(vec, b, EMPTY) {
      if b < |r| {
        OneBranchUnseen(bi, vec, branches, bi.creatorIdxs[b]);
      }
    }
  }

  lemma MergedOnes(vec: seq<BranchSeq>, his: seq<BranchSeq>, branches: set<nat>, more: set<nat>)
    requires OnesOn(vec, branches) && OnesOn(his, more) && forall b :: b in more ==> b < |vec|
    ensures OnesOn(MergedWith(vec, his), branches + more)
  {
    var r := MergedWith(vec, his);
    forall b: nat ensures Get(r, b, EMPTY) == if b in branches + more then BranchSeq(1, 1) else EMPTY {
      assert b < |vec| ==> r[b] == Merge(vec[b], Get(his, b, EMPTY)) && vec[b] == Get(vec, b, EMPTY);
      assert b >= |vec| ==> Get(vec, b, EMPTY) == EMPTY;
    }
  }

  /** One more side: a branch of its own below the cap, the last branch past it. */
  lemma SideEnters(vv: Group, t: Tables, t': Tables, n: nat)
    requires vv == TwoValidators() && Placeable(vv, t, Side(n)) && SidesIn(t, n) && Entered(vv, t, t', Side(n))
    requires BranchesOk(vv, t'.bi)
    ensures SidesIn(t', n + 1)
    ensures n >= MAX_BRANCHES_PER_VALIDATOR ==>
              && t'.bi.byCreators == t.bi.byCreators && t'.bi.creatorIdxs == t.bi.creatorIdxs
              && t'.branchOf[n] == t.bi.byCreators[0][MAX_BRANCHES_PER_VALIDATOR - 1]
              && OnesOn(t'.before[n], {t'.branchOf[n]})
  {
    hide Marked, OnesOn, GatheredUpTo;
    var (bi, mb) := Placed(vv, t, Side(n));
    assert vv.GetIdx(FORKER) == 0;
    if n >= MAX_BRANCHES_PER_VALIDATOR {
      assert AtCap(vv, t, Side(n)) && mb in t.bi.byCreators[0] && mb != 1;
      SideFills(vv, t, t', n);
    }
  }

  lemma PlacedAt(vv: Group, t: Tables, e: Event)
    requires Placeable(vv, t, e)
    ensures Placed(vv, t, e).1 < |Placed(vv, t, e).0.creatorIdxs|
  {
    PlacedShape(vv, t, e);
  }

  lemma SideFills(vv: Group, t: Tables, t': Tables, n: nat)
    requires vv == TwoValidators() && Placeable(vv, t, Side(n)) && Entered(vv, t, t', Side(n)) && BranchesOk(vv, t'.bi)
    requires |t'.bi.creatorIdxs| == |t.bi.creatorIdxs|
    ensures OnesOn(t'.before[n], {t'.branchOf[n]})
  {
    var mb, w := Placed(vv, t, Side(n)).1, |t.bi.creatorIdxs|;
    PlacedAt(vv, t, Side(n));
    var vec := GatheredUpTo(t.before, Side(n), mb, w, 0);
    assert OnesOn(vec, {mb});
    MarkedOnes(vv, t'.bi, vec, {mb}, t'.before[n]);
  }

  /** The watcher's vector: its own branch and the one both sides share, both unmarked. */
  lemma WatcherEnters(vv: Group, t: Tables, t': Tables, shared: nat)
    requires vv == TwoValidators() && Placeable(vv, t, Watcher()) && SidesIn(t, MAX_BRANCHES_PER_VALIDATOR + 2)
    requires (forall p :: p in Watcher().parents ==> p in t.before) && Entered(vv, t, t', Watcher())
    requires BranchesOk(vv, t'.bi)
    requires shared in t.bi.byCreators[0]
    requires forall p :: p in Watcher().parents ==> OnesOn(t.before[p], {shared})
    ensures OnesOn(t'.before[Watcher().id], {1, shared}) && t'.bi.byCreators == t.bi.byCreators && shared != 1
  {
    hide OnesOn, Marked;
    var e, w := Watcher(), |t.bi.creatorIdxs|;
    assert vv.GetIdx(OTHER) == 1 && !StartsBranch(vv, t, e);
    assert shared < w && shared != 1;
    assert e.parents[0] in e.parents && e.parents[1] in e.parents;
    var v0, v1 := GatheredUpTo(t.before, e, 1, w, 0), GatheredUpTo(t.before, e, 1, w, 1);
    assert OnesOn(v0, {1}) by { OwnEntry(e, w); }
    MergedOnes(v0, t.before[e.parents[0]], {1}, {shared});
    MergedOnes(v1, t.before[e.parents[1]], {1} + {shared}, {shared});
    assert {1} + {shared} + {shared} == {1, shared};
    MarkedOnes(vv, t'.bi, GatheredUpTo(t.before, e, 1, w, 2), {1, shared}, t'.before[e.id]);
  }

  lemma OwnEntry(e: Event, w: nat)
    requires e.seqno == 1
    ensures OnesOn(Set(Zeros(w, EMPTY), 1, BranchSeq(e.seqno, e.seqno), EMPTY), {1})
  {
  }

  ghost predicate Running(engine: Engine, n: nat)
    reads engine
  {
    engine.Valid() && engine.vv == TwoValidators() && engine.input == ManySides() && SidesIn(engine.t, n)
  }

  /** An event past the cap sits on the branch that all of them share. */
  ghost predicate Sharing(t: Tables, i: nat) {
    && |t.bi.byCreators| == 2 && |t.bi.byCreators[0]| == MAX_BRANCHES_PER_VALIDATOR
    && i in t.before && OnesOn(t.before[i], {t.bi.byCreators[0][MAX_BRANCHES_PER_VALIDATOR - 1]})
  }

  method AddSide(engine: Engine, n: nat)
    requires Running(engine, n) && n < MAX_BRANCHES_PER_VALIDATOR + 2
    modifies engine`t
    ensures Running(engine, n + 1)
    ensures n >= MAX_BRANCHES_PER_VALIDATOR ==> Sharing(engine.t, n)
    ensures forall i :: n >= MAX_BRANCHES_PER_VALIDATOR && i != n && old(Sharing(engine.t, i)) ==> Sharing(engine.t, i)
  {
    hide engine.Valid, OnesOn, Marked, CreatorsIn, Placed, GatheredUpTo;
    SideIs(n);
    var _ := engine.Add(Side(n));
    BranchesNow(engine);
    SideEnters(engine.vv, old(engine.t), engine.t, n);
  }

  lemma BranchesNow(engine: Engine)
    requires engine.Valid()
    ensures BranchesOk(engine.vv, engine.t.bi) && engine.t.before.Keys == engine.t.branchOf.Keys
  {
  }

  lemma SideIs(n: nat)
    requires n < MAX_BRANCHES_PER_VALIDATOR + 2
    ensures n in ManySides() && ManySides()[n] == Side(n) && Side(n).id == n && !Side(n).HasSelfParent()
    ensures Side(n).parents == []
  {
  }

  lemma WatcherIs()
    ensures Watcher().id in ManySides() && ManySides()[Watcher().id] == Watcher() && !Watcher().HasSelfParent()
    ensures Watcher().id == MAX_BRANCHES_PER_VALIDATOR + 2
    ensures Watcher().parents == [MAX_BRANCHES_PER_VALIDATOR, MAX_BRANCHES_PER_VALIDATOR + 1]
  {
  }

  lemma RunStart(engine: Engine)
    requires engine.Valid() && engine.vv == TwoValidators() && engine.input == ManySides()
    requires engine.t == Tables(InitialBranches(TwoValidators().Len()), map[], map[], map[])
    ensures Running(engine, 0)
  {
    hide engine.Valid;
  }

  /**
   The run: the watcher observes a fork by the forking validator, and its stored vector has no mark on any of that
   validator's branches.
   */
  method CapHidesFork() returns (engine: Engine)
    ensures fresh(engine) && engine.Valid() && engine.vv == TwoValidators() && engine.input == ManySides()
    ensures Watcher().id in engine.t.before && Watcher().id in engine.input
    ensures SeesFork(engine.input, Watcher().id, FORKER)
    ensures |engine.t.bi.byCreators| == 2
    ensures forall b :: b in engine.t.bi.byCreators[0] ==> Get(engine.t.before[Watcher().id], b, EMPTY) != FORK
  {
    hide *;
    ManySidesDag();
    engine := new Engine(TwoValidators(), ManySides());
    RunStart(engine);
    var last := MAX_BRANCHES_PER_VALIDATOR;
    for n := 0 to last
      invariant Running(engine, n) && fresh(engine)
    {
      AddSide(engine, n);
    }
    AddSide(engine, last);
    AddSide(engine, last + 1);
    AddWatcher(engine);
    WatcherSeesFork();
  }

  method AddWatcher(engine: Engine)
    requires Running(engine, MAX_BRANCHES_PER_VALIDATOR + 2)
    requires Sharing(engine.t, MAX_BRANCHES_PER_VALIDATOR) && Sharing(engine.t, MAX_BRANCHES_PER_VALIDATOR + 1)
    modifies engine`t
    ensures engine.Valid() && engine.vv == TwoValidators() && engine.input == ManySides()
    ensures Watcher().id in engine.t.before && Watcher().id in engine.input && |engine.t.bi.byCreators| == 2
    ensures forall b :: b in engine.t.bi.byCreators[0] ==> Get(engine.t.before[Watcher().id], b, EMPTY) != FORK
  {
    hide engine.Valid, Marked, CreatorsIn, Placed, GatheredUpTo;
    WatcherIs();
    BranchesNow(engine);
    var _ := engine.Add(Watcher());
    BranchesNow(engine);
    WatcherEnters(engine.vv, old(engine.t), engine.t, old(engine.t).bi.byCreators[0][MAX_BRANCHES_PER_VALIDATOR - 1]);
  }
}
