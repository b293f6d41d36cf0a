/** Why adding one event keeps the vector index exact: branch chains, collected ranges, fork marks, first observers. */
module VecAdd {
  import opened Validators
  import opened Dags
  import opened Causality
  import opened Vectors
  import opened VecState

  /** e continues branch mb: all that is there lies below it, ending at its self-parent. */
  ghost predicate ExtendsBranch(g: Dag, t: map<EventId, nat>, e: EventId, mb: nat)
    requires e in g
  {
    forall x :: OnBranch(t, x, mb) ==>
      && x in g && g[x].seqno < g[e].seqno && SelfAncestor(g, e, x)
      && g[e].HasSelfParent() && OnBranch(t, g[e].SelfParent(), mb)
  }

  /** Last sequence numbers never decrease, and branch mb reaches the new event. */
  ghost predicate LastSeqGrows(prev: seq<nat>, next: seq<nat>, mb: nat, seqno: nat) {
    && |prev| <= |next| && (forall b :: 0 <= b < |prev| ==> prev[b] <= next[b])
    && mb < |next| && seqno <= next[mb]
  }

  /** Branch owners never change; at most one branch is new, and it is mb. */
  ghost predicate OwnersGrow(cs: seq<nat>, cs': seq<nat>, mb: nat, me: nat) {
    && |cs| <= |cs'| <= |cs| + 1 && (|cs| < |cs'| ==> mb == |cs|)
    && (forall b :: 0 <= b < |cs| ==> cs'[b] == cs[b])
    && mb < |cs'| && cs'[mb] == me
  }

  /** One event is about to join the tables, on branch mb; branch owners go from cs to cs'. */
  ghost predicate Joins(g: Dag, vv: Group, t: Tables, cs: seq<nat>, e: EventId, cs': seq<nat>, mb: nat) {
    && Owned(g, vv, cs, t.branchOf) && Shaped(vv, |cs|, t)
    && e in g && e !in t.branchOf && (forall p :: p in g[e].parents ==> p in t.branchOf)
    && OwnersGrow(cs, cs', mb, vv.GetIdx(g[e].creator))
  }

  lemma NotObservedYet(g: Dag, t: map<EventId, nat>, a: EventId, e: EventId)
    requires Closed(g, t.Keys) && a in t && e !in t
    ensures !Observes(g, a, e)
  {
    if Observes(g, a, e) {
      ClosedObserves(g, t.Keys, a, e);
    }
  }

  lemma ChainsAdd(g: Dag, t: map<EventId, nat>, lastSeq: seq<nat>, e: EventId, mb: nat, lastSeq': seq<nat>)
    requires e in g && e !in t && Chains(g, t, lastSeq) && ExtendsBranch(g, t, e, mb)
    requires LastSeqGrows(lastSeq, lastSeq', mb, g[e].seqno)
    ensures Chains(g, t[e := mb], lastSeq')
  {
    var t' := t[e := mb];
    forall x | x in t' ensures x in g && t'[x] < |lastSeq'| && g[x].seqno <= lastSeq'[t'[x]] {
      if x != e {
        assert g[x].seqno <= lastSeq[t[x]];
      }
    }
    forall x, y | SameBranch(t', x, y) && g[x].seqno <= g[y].seqno ensures SelfAncestor(g, y, x) {
      ChainPair(g, t, lastSeq, e, mb, x, y);
    }
    forall x, y | SameBranch(t', x, y) && g[x].seqno < g[y].seqno
      ensures g[y].HasSelfParent() && OnBranch(t', g[y].SelfParent(), t'[y])
    {
      ChainPair(g, t, lastSeq, e, mb, x, y);
    }
  }

  lemma ChainPair(g: Dag, t: map<EventId, nat>, lastSeq: seq<nat>, e: EventId, mb: nat, x: EventId, y: EventId)
    requires e in g && e !in t && Chains(g, t, lastSeq) && ExtendsBranch(g, t, e, mb)
    requires x in g && y in g && SameBranch(t[e := mb], x, y) && g[x].seqno <= g[y].seqno
    ensures SelfAncestor(g, y, x)
    ensures g[x].seqno < g[y].seqno ==> g[y].HasSelfParent() && OnBranch(t[e := mb], g[y].SelfParent(), t[e := mb][y])
  {
    if x != e && y != e {
      assert SameBranch(t, x, y);
    } else if x != e {
      assert OnBranch(t, x, mb);
    } else if y != e {
      assert OnBranch(t, y, mb);
    }
  }

  // ---------------------------------------------------------------- HighestBefore

  lemma PastUnchanged(g: Dag, t: map<EventId, nat>, a: EventId, e: EventId, mb: nat)
    requires Closed(g, t.Keys) && a in t && e !in t
    ensures a in g && Past(g, t[e := mb], a) == Past(g, t, a)
  {
    NotObservedYet(g, t, a, e);
  }

  lemma RangeUnchanged(g: Dag, t: map<EventId, nat>, past: set<EventId>, b: nat, s: BranchSeq, e: EventId, mb: nat)
    requires RangeOf(g, t, past, b, s) && e !in past
    ensures RangeOf(g, t[e := mb], past, b, s)
  {
    forall x ensures InRange(g, t[e := mb], past, b, x) <==> InRange(g, t, past, b, x) {}
  }

  /** Vectors of earlier events stay exact on the branches there were. */
  lemma OldBranchExact(g: Dag, t: Tables, t': Tables, a: EventId, b: nat, v: ValidatorId, e: EventId, mb: nat)
    requires Closed(g, t.branchOf.Keys) && a in t.branchOf && e !in t.branchOf
    requires t'.branchOf == t.branchOf[e := mb] && a in t.before && a in t'.before && t'.before[a] == t.before[a]
    requires BeforeExact(g, t, a, b, v)
    ensures BeforeExact(g, t', a, b, v)
  {
    if !SeesFork(g, a, v) {
      PastUnchanged(g, t.branchOf, a, e, mb);
      RangeUnchanged(g, t.branchOf, Past(g, t.branchOf, a), b, Get(t.before[a], b, EMPTY), e, mb);
    }
  }

  /** ... and on a branch that is only now created. */
  lemma NewBranchExact(g: Dag, t: Tables, t': Tables, a: EventId, b: nat, v: ValidatorId, e: EventId, mb: nat)
    requires Closed(g, t.branchOf.Keys) && a in t.branchOf && e !in t.branchOf
    requires t'.branchOf == t.branchOf[e := mb] && a in t.before && a in t'.before && t'.before[a] == t.before[a]
    requires |t.before[a]| <= b && forall x :: x in t.branchOf ==> t.branchOf[x] != b
    ensures BeforeExact(g, t', a, b, v)
  {
    if !SeesFork(g, a, v) {
      PastUnchanged(g, t.branchOf, a, e, mb);
      assert RangeOf(g, t.branchOf, Past(g, t.branchOf, a), b, EMPTY);
      RangeUnchanged(g, t.branchOf, Past(g, t.branchOf, a), b, EMPTY, e, mb);
    }
  }

  lemma OldBeforeExact(
    g: Dag, vv: Group, t: Tables, cs: seq<nat>, e: EventId, cs': seq<nat>, mb: nat, t': Tables, a: EventId, b: nat)
    requires Joins(g, vv, t, cs, e, cs', mb) && AllBeforeExact(g, vv, cs, t)
    requires t'.branchOf == t.branchOf[e := mb] && a in t'.before && a in t.before && t'.before[a] == t.before[a]
    requires 0 <= b < |cs'|
    ensures a in g && BeforeExact(g, t', a, b, Owner(vv, cs', b))
  {
    if b < |cs| {
      assert BeforeExact(g, t, a, b, Owner(vv, cs, b));
      OldBranchExact(g, t, t', a, b, Owner(vv, cs, b), e, mb);
    } else {
      NewBranchExact(g, t, t', a, b, Owner(vv, cs', b), e, mb);
    }
  }

  ghost function MergedWith(vec: seq<BranchSeq>, his: seq<BranchSeq>): seq<BranchSeq> {
    seq(|vec|, b requires 0 <= b < |vec| => Merge(vec[b], Get(his, b, EMPTY)))
  }

  /** The vector of e as it is computed: its own entry, then its first k parents one after the other. */
  ghost function GatheredUpTo(
    before: map<EventId, seq<BranchSeq>>, e: Event, mb: nat, width: nat, k: nat): seq<BranchSeq>
    requires k <= |e.parents| && forall p :: p in e.parents ==> p in before
  {
    if k == 0 then Set(Zeros(width, EMPTY), mb, BranchSeq(e.seqno, e.seqno), EMPTY)
    else MergedWith(GatheredUpTo(before, e, mb, width, k - 1), before[e.parents[k - 1]])
  }

  /** Events observed through the first k parents of e, and e itself. */
  ghost function PastUpTo(g: Dag, t: map<EventId, nat>, e: EventId, k: nat): set<EventId>
    requires e in g && k <= |g[e].parents|
  {
    if k == 0 then {e} else PastUpTo(g, t, e, k - 1) + Past(g, t, g[e].parents[k - 1])
  }

  ghost predicate ParentSeesFork(g: Dag, e: EventId, k: nat, v: ValidatorId)
    requires e in g && k <= |g[e].parents|
  {
    exists j :: 0 <= j < k && SeesFork(g, g[e].parents[j], v)
  }

  /** The vector after collecting the first k parents: a marked first branch, or the exact range so far. */
  ghost predicate Collected(
    g: Dag, vv: Group, cs: seq<nat>, t: map<EventId, nat>, e: EventId, k: nat, vec: seq<BranchSeq>)
    requires e in g && k <= |g[e].parents|
  {
    |vec| == |cs| && forall b :: 0 <= b < |vec| ==> CollectedAt(g, vv, cs, t, e, k, vec, b)
  }

  ghost predicate CollectedAt(
    g: Dag, vv: Group, cs: seq<nat>, t: map<EventId, nat>, e: EventId, k: nat, vec: seq<BranchSeq>, b: nat)
    requires e in g && k <= |g[e].parents| && b < |vec| == |cs|
  {
    if ParentSeesFork(g, e, k, Owner(vv, cs, b)) then Get(vec, cs[b], EMPTY) == FORK
    else RangeOf(g, t, PastUpTo(g, t, e, k), b, vec[b])
  }

  lemma {:induction false} PastUpToIn(g: Dag, t: map<EventId, nat>, e: EventId, k: nat)
    requires e in g && k <= |g[e].parents|
    ensures forall x :: x in PastUpTo(g, t, e, k) <==>
              x == e || (x in t && exists j :: 0 <= j < k && Observes(g, g[e].parents[j], x))
  {
    if k > 0 {
      PastUpToIn(g, t, e, k - 1);
    }
  }

  lemma PastUpToAll(g: Dag, t: map<EventId, nat>, e: EventId)
    requires e in g && e in t
    ensures PastUpTo(g, t, e, |g[e].parents|) == Past(g, t, e)
  {
    PastUpToIn(g, t, e, |g[e].parents|);
    forall x | x in t ensures x in PastUpTo(g, t, e, |g[e].parents|) <==> Observes(g, e, x) {
      if Observes(g, e, x) && x != e {
        var p :| p in g[e].parents && Observes(g, p, x);
        var j :| 0 <= j < |g[e].parents| && g[e].parents[j] == p;
      }
    }
  }

  lemma CollectStart(
    g: Dag, vv: Group, t: Tables, cs: seq<nat>, e: EventId, cs': seq<nat>, mb: nat, vec: seq<BranchSeq>)
    requires Joins(g, vv, t, cs, e, cs', mb)
    requires vec == Set(Zeros(|cs|, EMPTY), mb, BranchSeq(g[e].seqno, g[e].seqno), EMPTY)
    ensures Collected(g, vv, cs', t.branchOf[e := mb], e, 0, vec)
  {
    var t' := t.branchOf[e := mb];
    forall b | 0 <= b < |vec| ensures CollectedAt(g, vv, cs', t', e, 0, vec, b) {
      assert vec[b] == Get(vec, b, EMPTY);
      RangeSingle(g, t', e, b);
    }
  }

  /** A parent that sees v fork has marked v's first branch. */
  lemma ParentMark(g: Dag, vv: Group, bi: BranchesInfo, t: Tables, p: EventId, c: nat)
    requires BranchesOk(vv, bi) && Shaped(vv, |bi.creatorIdxs|, t) && AllBeforeExact(g, vv, bi.creatorIdxs, t)
    requires p in t.before && 0 <= c < vv.Len() && p in g && SeesFork(g, p, vv.sorted[c].id)
    ensures Get(t.before[p], c, EMPTY) == FORK
  {
    assert bi.creatorIdxs[c] == c;
    assert BeforeExact(g, t, p, c, Owner(vv, bi.creatorIdxs, c));
  }

  /** What a parent's stored vector says about a branch. */
  ghost predicate ParentSays(
    g: Dag, vv: Group, cs: seq<nat>, t: map<EventId, nat>, p: EventId, his: seq<BranchSeq>, b: nat)
    requires p in g && b < |cs|
  {
    if SeesFork(g, p, Owner(vv, cs, b)) then Get(his, cs[b], EMPTY) == FORK
    else RangeOf(g, t, Past(g, t, p), b, Get(his, b, EMPTY))
  }

  lemma ParentVector(
    g: Dag, vv: Group, bi: BranchesInfo, t: Tables, e: EventId, cs': seq<nat>, mb: nat, p: EventId, b: nat)
    requires BranchesOk(vv, bi) && Joins(g, vv, t, bi.creatorIdxs, e, cs', mb)
    requires AllBeforeExact(g, vv, bi.creatorIdxs, t)
    requires p in g[e].parents && 0 <= b < |cs'| && cs'[b] < vv.Len()
    ensures ParentSays(g, vv, cs', t.branchOf[e := mb], p, t.before[p], b)
  {
    if SeesFork(g, p, Owner(vv, cs', b)) {
      ParentMark(g, vv, bi, t, p, cs'[b]);
    } else {
      OldBeforeExact(g, vv, t, bi.creatorIdxs, e, cs', mb, Tables(bi, t.branchOf[e := mb], t.before, t.after), p, b);
    }
  }

  /** Collecting one more parent, on one branch. */
  lemma CollectStepAt(
    g: Dag, vv: Group, cs: seq<nat>, t: map<EventId, nat>, e: EventId, k: nat, vec: seq<BranchSeq>,
    his: seq<BranchSeq>, vec': seq<BranchSeq>, b: nat)
    requires e in g && k < |g[e].parents| && b < |vec| == |vec'| == |cs| && cs[b] < |vec|
    requires CollectedAt(g, vv, cs, t, e, k, vec, b)
    requires ParentSays(g, vv, cs, t, g[e].parents[k], his, b)
    requires forall x :: x in t ==> x in g
    requires forall b :: 0 <= b < |vec| ==> vec'[b] == Merge(vec[b], Get(his, b, EMPTY))
    ensures CollectedAt(g, vv, cs, t, e, k + 1, vec', b)
  {
    var p, v := g[e].parents[k], Owner(vv, cs, b);
    if ParentSeesFork(g, e, k, v) {
      assert ParentSeesFork(g, e, k + 1, v);
      assert vec'[cs[b]] == FORK;
    } else if SeesFork(g, p, v) {
      assert vec'[cs[b]] == FORK;
    } else {
      PastUpToIn(g, t, e, k);
      RangeMerge(g, t, PastUpTo(g, t, e, k), Past(g, t, p), b, vec[b], Get(his, b, EMPTY));
    }
  }

  /** Collecting one more parent. */
  lemma CollectStep(
    g: Dag, vv: Group, bi: BranchesInfo, t: Tables, e: EventId, cs': seq<nat>, mb: nat, k: nat, vec: seq<BranchSeq>,
    vec': seq<BranchSeq>)
    requires BranchesOk(vv, bi) && Joins(g, vv, t, bi.creatorIdxs, e, cs', mb)
    requires AllBeforeExact(g, vv, bi.creatorIdxs, t)
    requires forall b :: 0 <= b < |cs'| ==> cs'[b] < vv.Len()
    requires k < |g[e].parents| && Collected(g, vv, cs', t.branchOf[e := mb], e, k, vec)
    requires |vec'| == |vec|
    requires forall b :: 0 <= b < |vec| ==> vec'[b] == Merge(vec[b], Get(t.before[g[e].parents[k]], b, EMPTY))
    ensures Collected(g, vv, cs', t.branchOf[e := mb], e, k + 1, vec')
  {
    var t', k', p := t.branchOf[e := mb], k + 1, g[e].parents[k];
    forall b | 0 <= b < |vec'| ensures CollectedAt(g, vv, cs', t', e, k', vec', b) {
      ParentVector(g, vv, bi, t, e, cs', mb, p, b);
      CollectStepAt(g, vv, cs', t', e, k, vec, t.before[p], vec', b);
    }
  }

  // ---------------------------------------------------------------- fork marks

  ghost predicate Overlaps(vec: seq<BranchSeq>, x: nat, y: nat)
    requires x < |vec| && y < |vec|
  {
    && x != y && !vec[x].IsEmpty() && !vec[y].IsEmpty()
    && vec[x].minSeq <= vec[y].seqno && vec[y].minSeq <= vec[x].seqno
  }

  ghost predicate AnyMarked(bi: BranchesInfo, vec: seq<BranchSeq>, c: nat)
    requires c < |bi.byCreators|
  {
    |bi.byCreators[c]| > 1 && exists b :: b in bi.byCreators[c] && b < |vec| && vec[b] == FORK
  }

  ghost predicate AnyOverlap(bi: BranchesInfo, vec: seq<BranchSeq>, c: nat)
    requires c < |bi.byCreators|
  {
    exists x, y :: x in bi.byCreators[c] && y in bi.byCreators[c] && x < |vec| && y < |vec| && Overlaps(vec, x, y)
  }

  /** Looking at the collected vector alone, validator c has forked. */
  ghost predicate Detected(bi: BranchesInfo, vec: seq<BranchSeq>, c: nat)
    requires c < |bi.byCreators|
  {
    AnyMarked(bi, vec, c) || AnyOverlap(bi, vec, c)
  }

  lemma OwnerOfBranch(g: Dag, vv: Group, bi: BranchesInfo, t: map<EventId, nat>, x: EventId)
    requires vv.Valid() && CreatorsIn(g, vv) && BranchesOk(vv, bi) && Owned(g, vv, bi.creatorIdxs, t) && x in t
    ensures vv.sorted[bi.creatorIdxs[t[x]]].id == g[x].creator
    ensures t[x] in bi.byCreators[vv.GetIdx(g[x].creator)]
  {
    assert vv.Exists(g[x].creator);
  }

  /** The branch tables, with e just added, describe chains of the graph. */
  ghost predicate Branched(g: Dag, vv: Group, bi: BranchesInfo, t: map<EventId, nat>) {
    && vv.Valid() && CreatorsIn(g, vv) && BranchesOk(vv, bi) && Owned(g, vv, bi.creatorIdxs, t)
    && Chains(g, t, bi.lastSeq)
  }

  /** An observed fork occupies two branches of its creator. */
  lemma SeenForkBranches(g: Dag, vv: Group, bi: BranchesInfo, t: map<EventId, nat>, a: EventId, c: nat)
    returns (x: EventId, y: EventId)
    requires Branched(g, vv, bi, t) && a in t && c < vv.Len() && SeesFork(g, a, vv.sorted[c].id)
    ensures x in t && y in t && ForkPair(g, x, y) && Observes(g, a, x) && Observes(g, a, y)
    ensures t[x] in bi.byCreators[c] && t[y] in bi.byCreators[c] && t[x] != t[y]
  {
    x, y :| ForkPair(g, x, y) && g[x].creator == vv.sorted[c].id && Observes(g, a, x) && Observes(g, a, y);
    ClosedObserves(g, t.Keys, a, x);
    ClosedObserves(g, t.Keys, a, y);
    ForkOnTwoBranches(g, t, bi.lastSeq, x, y);
    OwnerOfBranch(g, vv, bi, t, x);
    OwnerOfBranch(g, vv, bi, t, y);
  }

  lemma TwoMembers(s: seq<nat>, x: nat, y: nat)
    requires x in s && y in s && x != y
    ensures |s| > 1
  {
  }

  /** A fork seen through a parent needs two branches, and its first branch is marked. */
  lemma ParentForkMarked(
    g: Dag, vv: Group, bi: BranchesInfo, t: map<EventId, nat>, e: EventId, vec: seq<BranchSeq>, c: nat)
    requires Branched(g, vv, bi, t) && e in t && c < vv.Len()
    requires Collected(g, vv, bi.creatorIdxs, t, e, |g[e].parents|, vec)
    requires ParentSeesFork(g, e, |g[e].parents|, vv.sorted[c].id)
    ensures AnyMarked(bi, vec, c)
  {
    var j :| 0 <= j < |g[e].parents| && SeesFork(g, g[e].parents[j], vv.sorted[c].id);
    assert g[e].parents[j] in g[e].parents;
    var x, y := SeenForkBranches(g, vv, bi, t, g[e].parents[j], c);
    TwoMembers(bi.byCreators[c], t[x], t[y]);
    assert bi.creatorIdxs[c] == c && c in bi.byCreators[c];
    assert CollectedAt(g, vv, bi.creatorIdxs, t, e, |g[e].parents|, vec, c);
  }

  lemma ParentForkSeen(g: Dag, e: EventId, v: ValidatorId)
    requires e in g && ParentSeesFork(g, e, |g[e].parents|, v)
    ensures SeesFork(g, e, v)
  {
    var j :| 0 <= j < |g[e].parents| && SeesFork(g, g[e].parents[j], v);
    assert Observes(g, e, g[e].parents[j]);
    SeesForkTrans(g, e, g[e].parents[j], v);
  }

  /** Every branch of validator c carries its exact observed range. */
  ghost predicate AllRanges(g: Dag, bi: BranchesInfo, t: map<EventId, nat>, e: EventId, vec: seq<BranchSeq>, c: nat)
    requires c < |bi.byCreators| && e in g
  {
    forall b :: b in bi.byCreators[c] ==> b < |vec| && RangeOf(g, t, Past(g, t, e), b, vec[b])
  }

  lemma RangesOf(g: Dag, vv: Group, bi: BranchesInfo, t: map<EventId, nat>, e: EventId, vec: seq<BranchSeq>, c: nat)
    requires BranchesOk(vv, bi) && e in g && e in t && c < vv.Len()
    requires Collected(g, vv, bi.creatorIdxs, t, e, |g[e].parents|, vec)
    requires !ParentSeesFork(g, e, |g[e].parents|, vv.sorted[c].id)
    ensures AllRanges(g, bi, t, e, vec, c)
  {
    PastUpToAll(g, t, e);
    forall b | b in bi.byCreators[c] ensures b < |vec| && RangeOf(g, t, Past(g, t, e), b, vec[b]) {
      assert b < |vec|;
      assert CollectedAt(g, vv, bi.creatorIdxs, t, e, |g[e].parents|, vec, b);
    }
  }

  lemma RangesUnmarked(g: Dag, bi: BranchesInfo, t: map<EventId, nat>, e: EventId, vec: seq<BranchSeq>, c: nat)
    requires c < |bi.byCreators| && e in g && AllRanges(g, bi, t, e, vec, c)
    ensures forall b :: b in bi.byCreators[c] ==> vec[b] != FORK && (vec[b].IsEmpty() <==> vec[b] == EMPTY)
  {
    forall b | b in bi.byCreators[c] ensures vec[b] != FORK && (vec[b].IsEmpty() <==> vec[b] == EMPTY) {
      RangeNotFork(g, t, Past(g, t, e), b, vec[b]);
    }
  }

  lemma OverlapSeen(g: Dag, vv: Group, bi: BranchesInfo, t: map<EventId, nat>, e: EventId, vec: seq<BranchSeq>, c: nat)
    requires Branched(g, vv, bi, t) && e in t && c < vv.Len() && AllRanges(g, bi, t, e, vec, c)
    requires AnyOverlap(bi, vec, c)
    ensures SeesFork(g, e, vv.sorted[c].id)
  {
    RangesUnmarked(g, bi, t, e, vec, c);
    var x, y :| x in bi.byCreators[c] && y in bi.byCreators[c] && x < |vec| && y < |vec| && Overlaps(vec, x, y);
    forall z | z in t && (t[z] == x || t[z] == y) ensures g[z].creator == vv.sorted[c].id {
      OwnerOfBranch(g, vv, bi, t, z);
    }
    OverlapIsFork(g, t, bi.lastSeq, e, x, vec[x], y, vec[y], vv.sorted[c].id);
  }

  lemma SeenOverlap(g: Dag, vv: Group, bi: BranchesInfo, t: map<EventId, nat>, e: EventId, vec: seq<BranchSeq>, c: nat)
    requires Branched(g, vv, bi, t) && e in t && c < vv.Len() && AllRanges(g, bi, t, e, vec, c)
    requires SeesFork(g, e, vv.sorted[c].id)
    ensures AnyOverlap(bi, vec, c)
  {
    RangesUnmarked(g, bi, t, e, vec, c);
    var x, y := SeenForkBranches(g, vv, bi, t, e, c);
    ForkIsOverlap(g, t, bi.lastSeq, e, x, y, vec[t[x]], vec[t[y]]);
    assert Overlaps(vec, t[x], t[y]);
  }

  /** The collected vector reveals exactly the forks that e observes. */
  lemma DetectedIsSeen(
    g: Dag, vv: Group, bi: BranchesInfo, t: map<EventId, nat>, e: EventId, vec: seq<BranchSeq>, c: nat)
    requires Branched(g, vv, bi, t) && e in t && c < vv.Len()
    requires Collected(g, vv, bi.creatorIdxs, t, e, |g[e].parents|, vec)
    ensures Detected(bi, vec, c) <==> SeesFork(g, e, vv.sorted[c].id)
  {
    var v := vv.sorted[c].id;
    if ParentSeesFork(g, e, |g[e].parents|, v) {
      ParentForkMarked(g, vv, bi, t, e, vec, c);
      ParentForkSeen(g, e, v);
    } else {
      RangesOf(g, vv, bi, t, e, vec, c);
      RangesUnmarked(g, bi, t, e, vec, c);
      assert !AnyMarked(bi, vec, c);
      if AnyOverlap(bi, vec, c) {
        OverlapSeen(g, vv, bi, t, e, vec, c);
      } else if SeesFork(g, e, v) {
        SeenOverlap(g, vv, bi, t, e, vec, c);
      }
    }
  }

  /** The vector with the detected forks marked is the exact HighestBefore of e. */
  lemma NewBeforeExact(
    g: Dag, vv: Group, t': Tables, e: EventId, vec: seq<BranchSeq>, b: nat)
    requires Branched(g, vv, t'.bi, t'.branchOf) && e in t'.branchOf && e in t'.before
    requires Collected(g, vv, t'.bi.creatorIdxs, t'.branchOf, e, |g[e].parents|, vec)
    requires |t'.before[e]| == |vec| && b < |vec|
    requires t'.before[e][b] == if Detected(t'.bi, vec, t'.bi.creatorIdxs[b]) then FORK else vec[b]
    ensures BeforeExact(g, t', e, b, Owner(vv, t'.bi.creatorIdxs, b))
  {
    var c := t'.bi.creatorIdxs[b];
    DetectedIsSeen(g, vv, t'.bi, t'.branchOf, e, vec, c);
    if !SeesFork(g, e, vv.sorted[c].id) {
      if ParentSeesFork(g, e, |g[e].parents|, vv.sorted[c].id) {
        ParentForkSeen(g, e, vv.sorted[c].id);
        assert false;
      }
      RangesOf(g, vv, t'.bi, t'.branchOf, e, vec, c);
    }
  }

  // ---------------------------------------------------------------- LowestAfter

  /** The entry of x for branch mb, after the walk of e has passed. */
  ghost predicate Visited(before: seq<nat>, now: seq<nat>, mb: nat, seqno: nat, observed: bool) {
    forall j :: Get<nat>(now, j, 0) == if j == mb && Get<nat>(before, mb, 0) == 0
        && observed then seqno else Get<nat>(before, j, 0)
  }

  lemma OldAfterExact(
    g: Dag, t: map<EventId, nat>, x: EventId, b: nat, s: nat, e: EventId, mb: nat, s': nat)
    requires e in g && e !in t && Closed(g, t.Keys) && x in t
    requires FirstObserver(g, t, x, b, s) && (b == mb ==> ExtendsBranch(g, t, e, mb))
    requires s' == if b == mb && s == 0 && Observes(g, e, x) then g[e].seqno else s
    ensures FirstObserver(g, t[e := mb], x, b, s')
  {
    hide Observes, SelfAncestor, ObservesOn, Closed;
    var t' := t[e := mb];
    forall y ensures ObservesOn(g, t', y, x, b) <==>
                     ObservesOn(g, t, y, x, b) || (y == e && b == mb && Observes(g, e, x)) {
      ObservesOnAdd(g, t, y, x, b, e, mb);
    }
    forall y | ObservesOn(g, t, y, x, b) ensures y in g && (b == mb ==> g[y].seqno < g[e].seqno) {
      ObservesOnOlder(g, t, y, x, e, b, mb);
    }
    if s != 0 {
      var y :| ObservesOn(g, t, y, x, b) && g[y].seqno == s;
      assert ObservesOn(g, t', y, x, b);
    } else if s' != 0 {
      assert ObservesOn(g, t', e, x, b);
    }
  }

  lemma ObservesOnAdd(g: Dag, t: map<EventId, nat>, y: EventId, x: EventId, b: nat, e: EventId, mb: nat)
    requires e in g && e !in t
    ensures ObservesOn(g, t[e := mb], y, x, b) <==>
            ObservesOn(g, t, y, x, b) || (y == e && b == mb && Observes(g, e, x))
  {
    hide Observes;
  }

  lemma ObservesOnOlder(g: Dag, t: map<EventId, nat>, y: EventId, x: EventId, e: EventId, b: nat, mb: nat)
    requires e in g && (b == mb ==> ExtendsBranch(g, t, e, mb)) && ObservesOn(g, t, y, x, b)
    ensures y in g && (b == mb ==> g[y].seqno < g[e].seqno)
  {
    hide Observes, SelfAncestor;
  }

  lemma NewAfterExact(g: Dag, t: map<EventId, nat>, e: EventId, mb: nat, b: nat)
    requires e in g && e !in t && Closed(g, t.Keys)
    ensures FirstObserver(g, t[e := mb], e, b, if b == mb then g[e].seqno else 0)
  {
    var t' := t[e := mb];
    forall y ensures ObservesOn(g, t', y, e, b) <==> y == e && b == mb {
      if y in t && ObservesOn(g, t', y, e, b) {
        NotObservedYet(g, t, y, e);
      }
    }
    if b == mb {
      assert ObservesOn(g, t', e, e, b);
    }
  }

  /** Marks of one branch are inherited by ancestors, which is why the walk may stop at a marked event. */
  lemma MarksClosed(g: Dag, vv: Group, t: Tables, cs: seq<nat>, mb: nat, x: EventId, p: EventId)
    requires Owned(g, vv, cs, t.branchOf) && Shaped(vv, |cs|, t) && AllAfterExact(g, |cs|, t)
    requires x in t.after && p in g[x].parents && Get<nat>(t.after[x], mb, 0) != 0
    ensures Get<nat>(t.after[p], mb, 0) != 0
  {
    assert FirstObserver(g, t.branchOf, x, mb, Get<nat>(t.after[x], mb, 0));
    var y :| ObservesOn(g, t.branchOf, y, x, mb);
    assert Observes(g, x, p);
    ObservesTrans(g, y, x, p);
    assert FirstObserver(g, t.branchOf, p, mb, Get<nat>(t.after[p], mb, 0));
    assert ObservesOn(g, t.branchOf, y, p, mb);
  }

  // ---------------------------------------------------------------- the whole step

  /** HighestBefore of e: the collected vector with every detected fork marked on all its branches. */
  ghost predicate Marked(bi: BranchesInfo, vec: seq<BranchSeq>, r: seq<BranchSeq>) {
    && |r| == |vec|
    && forall b :: 0 <= b < |r| && b < |bi.creatorIdxs| && bi.creatorIdxs[b] < |bi.byCreators| ==>
         r[b] == if Detected(bi, vec, bi.creatorIdxs[b]) then FORK else vec[b]
  }

  /** LowestAfter tables once e's walk is over. */
  ghost predicate Walked(g: Dag, after: map<EventId, seq<nat>>, now: map<EventId, seq<nat>>, e: EventId, mb: nat)
    requires e in g
  {
    && now.Keys == after.Keys + {e}
    && (forall x :: x in after ==> Visited(after[x], now[x], mb, g[e].seqno, Observes(g, e, x)))
    && (forall j :: Get<nat>(now[e], j, 0) == if j == mb then g[e].seqno else 0)
  }

  ghost function Added(
    t: Tables, e: EventId, bi: BranchesInfo, mb: nat, r: seq<BranchSeq>, now: map<EventId, seq<nat>>): Tables {
    Tables(bi, t.branchOf[e := mb], t.before[e := r], now)
  }

  lemma OwnedAdd(g: Dag, vv: Group, t: Tables, cs: seq<nat>, e: EventId, cs': seq<nat>, mb: nat)
    requires Joins(g, vv, t, cs, e, cs', mb)
    ensures Owned(g, vv, cs', t.branchOf[e := mb])
  {
    assert t.branchOf[e := mb].Keys == t.branchOf.Keys + {e};
  }

  lemma ShapedAdd(
    vv: Group, width: nat, t: Tables, e: EventId, bi: BranchesInfo, mb: nat, r: seq<BranchSeq>, now: map<EventId,
        seq<nat>>)
    requires Shaped(vv, width, t) && width <= |bi.creatorIdxs|
    requires vv.Len() <= |r| == |bi.creatorIdxs| && now.Keys == t.after.Keys + {e}
    requires forall x :: x in now ==> |now[x]| <= |bi.creatorIdxs|
    ensures Shaped(vv, |bi.creatorIdxs|, Added(t, e, bi, mb, r, now))
  {
    var t' := Added(t, e, bi, mb, r, now);
    assert t'.branchOf.Keys == t.branchOf.Keys + {e};
    assert t'.before.Keys == t.before.Keys + {e};
  }

  lemma BeforeAdd(
    g: Dag, vv: Group, t: Tables, cs: seq<nat>, e: EventId, mb: nat, vec: seq<BranchSeq>, r: seq<BranchSeq>, t': Tables)
    requires Joins(g, vv, t, cs, e, t'.bi.creatorIdxs, mb) && AllBeforeExact(g, vv, cs, t)
    requires t'.branchOf == t.branchOf[e := mb] && t'.before == t.before[e := r]
    requires Branched(g, vv, t'.bi, t'.branchOf)
    requires Collected(g, vv, t'.bi.creatorIdxs, t'.branchOf, e, |g[e].parents|, vec) && Marked(t'.bi, vec, r)
    ensures AllBeforeExact(g, vv, t'.bi.creatorIdxs, t')
  {
    forall a, b | a in t'.before && a in g && 0 <= b < |t'.bi.creatorIdxs|
      ensures BeforeExact(g, t', a, b, Owner(vv, t'.bi.creatorIdxs, b))
    {
      if a == e {
        NewBeforeExact(g, vv, t', e, vec, b);
      } else {
        OldBeforeExact(g, vv, t, cs, e, t'.bi.creatorIdxs, mb, t', a, b);
      }
    }
  }

  lemma BeforeWideAdd(g: Dag, vv: Group, t: Tables, cs: seq<nat>, e: EventId, mb: nat, r: seq<BranchSeq>, t': Tables)
    requires Joins(g, vv, t, cs, e, t'.bi.creatorIdxs, mb) && BeforeWide(g, t)
    requires t'.branchOf == t.branchOf[e := mb] && t'.before == t.before[e := r] && |r| == |t'.bi.creatorIdxs|
    ensures BeforeWide(g, t')
  {
    forall a, x | a in t'.before && a in g && x in t'.branchOf && Observes(g, a, x)
        ensures t'.branchOf[x] < |t'.before[a]| {
      if a != e {
        NotObservedYet(g, t.branchOf, a, e);
      }
    }
  }

  lemma OldAfterStep(
    g: Dag, vv: Group, t: Tables, cs: seq<nat>, e: EventId, mb: nat, x: EventId, b: nat, now: seq<nat>)
    requires Owned(g, vv, cs, t.branchOf) && Shaped(vv, |cs|, t) && AllAfterExact(g, |cs|, t) && x in t.after
    requires e in g && e !in t.branchOf && ExtendsBranch(g, t.branchOf, e, mb)
    requires Visited(t.after[x], now, mb, g[e].seqno, Observes(g, e, x))
    ensures FirstObserver(g, t.branchOf[e := mb], x, b, Get<nat>(now, b, 0))
  {
    OldAfterAt(g, vv, t, cs, x, b);
    OldAfterExact(g, t.branchOf, x, b, Get<nat>(t.after[x], b, 0), e, mb, Get<nat>(now, b, 0));
  }

  lemma AfterAdd(g: Dag, vv: Group, t: Tables, cs: seq<nat>, e: EventId, mb: nat, t': Tables, width: nat)
    requires Owned(g, vv, cs, t.branchOf) && Shaped(vv, |cs|, t) && AllAfterExact(g, |cs|, t)
    requires e in g && e !in t.branchOf && ExtendsBranch(g, t.branchOf, e, mb)
    requires t'.branchOf == t.branchOf[e := mb] && Walked(g, t.after, t'.after, e, mb)
    ensures AllAfterExact(g, width, t')
  {
    forall x, b | x in t'.after && 0 <= b < width
      ensures FirstObserver(g, t'.branchOf, x, b, Get<nat>(t'.after[x], b, 0))
    {
      if x == e {
        NewAfterExact(g, t.branchOf, e, mb, b);
      } else {
        OldAfterStep(g, vv, t, cs, e, mb, x, b, t'.after[x]);
      }
    }
  }

  lemma OldAfterAt(g: Dag, vv: Group, t: Tables, cs: seq<nat>, x: EventId, b: nat)
    requires Owned(g, vv, cs, t.branchOf) && Shaped(vv, |cs|, t) && AllAfterExact(g, |cs|, t) && x in t.after
    ensures FirstObserver(g, t.branchOf, x, b, Get<nat>(t.after[x], b, 0))
  {
    if b >= |cs| {
      assert Get<nat>(t.after[x], b, 0) == 0;
      assert forall y :: !OnBranch(t.branchOf, y, b);
    }
  }

  /** Adding an event below the branch cap keeps every table exact. */
  lemma AddKeepsExact(
    g: Dag, vv: Group, t: Tables, e: EventId, bi: BranchesInfo, mb: nat, vec: seq<BranchSeq>, r: seq<BranchSeq>,
    now: map<EventId, seq<nat>>)
    requires vv.Valid() && CreatorsIn(g, vv) && Exact(g, vv, t)
    requires Joins(g, vv, t, t.bi.creatorIdxs, e, bi.creatorIdxs, mb)
    requires LastSeqGrows(t.bi.lastSeq, bi.lastSeq, mb, g[e].seqno) && ExtendsBranch(g, t.branchOf, e, mb)
    requires Collected(g, vv, bi.creatorIdxs, t.branchOf[e := mb], e, |g[e].parents|, vec) && Marked(bi, vec, r)
    requires Walked(g, t.after, now, e, mb) && Stored(g, vv, Added(t, e, bi, mb, r, now))
    ensures Exact(g, vv, Added(t, e, bi, mb, r, now))
  {
    var t', cs := Added(t, e, bi, mb, r, now), t.bi.creatorIdxs;
    assert Chains(g, t'.branchOf, bi.lastSeq) by {
      ChainsAdd(g, t.branchOf, t.bi.lastSeq, e, mb, bi.lastSeq);
    }
    assert AllBeforeExact(g, vv, bi.creatorIdxs, t') by {
      BeforeAdd(g, vv, t, cs, e, mb, vec, r, t');
    }
    assert BeforeWide(g, t') by {
      BeforeWideAdd(g, vv, t, cs, e, mb, r, t');
    }
    assert AllAfterExact(g, |bi.creatorIdxs|, t') by {
      AfterAdd(g, vv, t, cs, e, mb, t', |bi.creatorIdxs|);
    }
  }
}
