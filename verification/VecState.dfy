/** What the vector index stores and what it means for the stored tables to agree with the event graph. */
module VecState {
  import opened Basics
  import opened Validators
  import opened Dags
  import opened Vectors

  const MAX_BRANCHES_PER_VALIDATOR: nat := 1024

  /** Global branches: a branch is a stretch of one validator's self-parent chain. */
  datatype BranchesInfo = BranchesInfo(lastSeq: seq<nat>, creatorIdxs: seq<nat>, byCreators: seq<seq<nat>>)

  datatype Tables = Tables(
    bi: BranchesInfo, branchOf: map<EventId, nat>, before: map<EventId, seq<BranchSeq>>, after: map<EventId, seq<nat>>)

  ghost predicate BranchesOk(vv: Group, bi: BranchesInfo) {
    && |bi.creatorIdxs| == |bi.lastSeq| >= vv.Len() == |bi.byCreators|
    && (forall b :: 0 <= b < |bi.creatorIdxs| ==> bi.creatorIdxs[b] < vv.Len())
    && (forall b :: 0 <= b < vv.Len() ==> bi.creatorIdxs[b] == b)
    && (forall c, b {:trigger b in bi.byCreators[c]} :: 0 <= c < vv.Len() && b in bi.byCreators[c] ==>
          b < |bi.creatorIdxs| && bi.creatorIdxs[b] == c)
    && (forall b :: 0 <= b < |bi.creatorIdxs| ==> b in bi.byCreators[bi.creatorIdxs[b]])
    && (forall c :: 0 <= c < vv.Len() ==> |bi.byCreators[c]| <= MAX_BRANCHES_PER_VALIDATOR && NoDup(bi.byCreators[c]))
  }

  /** The owner of a branch. */
  ghost function Owner(vv: Group, cs: seq<nat>, b: nat): ValidatorId {
    if b < |cs| && cs[b] < |vv.sorted| then vv.sorted[cs[b]].id else 0
  }

  /** Every event added, in an ancestor-closed part of the graph, sits on a branch of its creator. */
  ghost predicate Owned(g: Dag, vv: Group, cs: seq<nat>, t: map<EventId, nat>) {
    && Closed(g, t.Keys)
    && forall x :: x in t ==> t[x] < |cs| && cs[t[x]] == vv.GetIdx(g[x].creator)
  }

  /** The tables have the same events, and vectors no wider than the branches there are. */
  ghost predicate Shaped(vv: Group, width: nat, t: Tables) {
    && t.branchOf.Keys == t.before.Keys == t.after.Keys
    && (forall x :: x in t.before ==> vv.Len() <= |t.before[x]| <= width)
    && (forall x :: x in t.after ==> |t.after[x]| <= width)
  }

  ghost predicate Stored(g: Dag, vv: Group, t: Tables) {
    BranchesOk(vv, t.bi) && Owned(g, vv, t.bi.creatorIdxs, t.branchOf) && Shaped(vv, |t.bi.creatorIdxs|, t)
  }

  ghost predicate OnBranch(t: map<EventId, nat>, x: EventId, b: nat) {
    x in t && t[x] == b
  }

  ghost predicate SameBranch(t: map<EventId, nat>, x: EventId, y: EventId) {
    x in t && y in t && t[x] == t[y]
  }

  /** A branch is a self-parent chain with consecutive sequence numbers, none above lastSeq. */
  ghost predicate Chains(g: Dag, t: map<EventId, nat>, lastSeq: seq<nat>) {
    && (forall x :: x in t ==> x in g && t[x] < |lastSeq| && g[x].seqno <= lastSeq[t[x]])
    && (forall x, y :: SameBranch(t, x, y) && g[x].seqno <= g[y].seqno ==> SelfAncestor(g, y, x))
    && (forall x, y :: SameBranch(t, x, y) && g[x].seqno < g[y].seqno ==>
          g[y].HasSelfParent() && OnBranch(t, g[y].SelfParent(), t[y]))
  }

  /** The highest event of a branch has this sequence number. */
  ghost predicate TipAt(g: Dag, t: map<EventId, nat>, b: nat, seqno: nat) {
    exists x :: x in g && OnBranch(t, x, b) && g[x].seqno == seqno
  }

  /** Every last sequence number is that of an event, and only first branches may be unused. */
  ghost predicate TipsReached(g: Dag, vv: Group, t: map<EventId, nat>, bi: BranchesInfo) {
    && (forall c :: 0 <= c < vv.Len() && c < |bi.byCreators| ==> |bi.byCreators[c]| > 0 && bi.byCreators[c][0] == c)
    && (forall b :: vv.Len() <= b < |bi.lastSeq| ==> bi.lastSeq[b] > 0)
    && (forall b :: 0 <= b < |bi.lastSeq| && bi.lastSeq[b] > 0 ==> TipAt(g, t, b, bi.lastSeq[b]))
  }

  /** Two stored events are a fork by v. */
  ghost predicate ForksIn(g: Dag, t: map<EventId, nat>, v: ValidatorId) {
    exists x, y :: x in t && y in t && ForkPair(g, x, y) && g[x].creator == v
  }

  /** Only a validator that has forked has more than one branch. */
  ghost predicate SplitByForks(g: Dag, vv: Group, t: map<EventId, nat>, bi: BranchesInfo) {
    forall c :: 0 <= c < |vv.sorted| && c < |bi.byCreators| && |bi.byCreators[c]| > 1 ==> ForksIn(g, t, vv.sorted[c].id)
  }

  /** Events of the tables that a observes. */
  ghost function Past(g: Dag, t: map<EventId, nat>, a: EventId): set<EventId>
    requires a in g
  {
    set x | x in t && Observes(g, a, x)
  }

  /** s is the lowest and highest sequence number of the events of `past` on branch b, EMPTY if there are none. */
  ghost predicate RangeOf(g: Dag, t: map<EventId, nat>, past: set<EventId>, b: nat, s: BranchSeq) {
    if s == EMPTY then forall x :: x in past ==> !OnBranch(t, x, b)
    else
      && s.seqno >= 1
      && (exists hi :: InRange(g, t, past, b, hi) && g[hi].seqno == s.seqno)
      && (exists lo :: InRange(g, t, past, b, lo) && g[lo].seqno == s.minSeq)
      && (forall x :: InRange(g, t, past, b, x) ==> s.minSeq <= g[x].seqno <= s.seqno)
  }

  ghost predicate InRange(g: Dag, t: map<EventId, nat>, past: set<EventId>, b: nat, x: EventId) {
    x in past && x in g && OnBranch(t, x, b)
  }

  /** HighestBefore of a on branch b of validator v: the fork marker, or the exact observed range. */
  ghost predicate BeforeExact(g: Dag, t: Tables, a: EventId, b: nat, v: ValidatorId)
    requires a in g && a in t.before
  {
    if SeesFork(g, a, v) then b < |t.before[a]| ==> t.before[a][b] == FORK
    else RangeOf(g, t.branchOf, Past(g, t.branchOf, a), b, Get(t.before[a], b, EMPTY))
  }

  /** LowestAfter of x on branch b: sequence number of the first event there that observes x, 0 if none. */
  ghost predicate FirstObserver(g: Dag, t: map<EventId, nat>, x: EventId, b: nat, s: nat) {
    if s == 0 then forall y :: ObservesOn(g, t, y, x, b) ==> false
    else
      && (exists y :: ObservesOn(g, t, y, x, b) && g[y].seqno == s)
      && (forall y :: ObservesOn(g, t, y, x, b) ==> s <= g[y].seqno)
  }

  ghost predicate ObservesOn(g: Dag, t: map<EventId, nat>, y: EventId, x: EventId, b: nat) {
    y in g && OnBranch(t, y, b) && Observes(g, y, x)
  }

  /** The tables agree with reachability in the graph. */
  ghost predicate Exact(g: Dag, vv: Group, t: Tables) {
    && Stored(g, vv, t)
    && Chains(g, t.branchOf, t.bi.lastSeq)
    && AllBeforeExact(g, vv, t.bi.creatorIdxs, t)
    && BeforeWide(g, t)
    && AllAfterExact(g, |t.bi.creatorIdxs|, t)
  }

  ghost predicate AllBeforeExact(g: Dag, vv: Group, cs: seq<nat>, t: Tables) {
    forall a, b :: a in t.before && a in g && 0 <= b < |cs| ==> BeforeExact(g, t, a, b, Owner(vv, cs, b))
  }

  ghost predicate BeforeWide(g: Dag, t: Tables) {
    forall a, x :: a in t.before && a in g && x in t.branchOf && Observes(g, a, x) ==> t.branchOf[x] < |t.before[a]|
  }

  ghost predicate AllAfterExact(g: Dag, width: nat, t: Tables) {
    forall x, b :: x in t.after && 0 <= b < width ==> FirstObserver(g, t.branchOf, x, b, Get<nat>(t.after[x], b, 0))
  }

  // ---------------------------------------------------------------- forks and branches

  /** The two sides of a fork sit on different branches. */
  lemma ForkOnTwoBranches(g: Dag, t: map<EventId, nat>, lastSeq: seq<nat>, x: EventId, y: EventId)
    requires Chains(g, t, lastSeq) && ForkPair(g, x, y) && x in t && y in t
    ensures t[x] != t[y]
  {
    if t[x] == t[y] {
      assert SameBranch(t, x, y);
    }
  }

  /** A branch holds every event of its chain between two of its events. */
  lemma {:induction false} BranchConvex(g: Dag, t: map<EventId, nat>, lastSeq: seq<nat>, x: EventId, y: EventId, n: nat)
    requires Chains(g, t, lastSeq) && x in t && y in t && t[x] == t[y]
    requires g[x].seqno <= n <= g[y].seqno
    ensures OnBranch(t, SelfAt(g, y, n), t[y])
    decreases g[y].seqno
  {
    if n < g[y].seqno {
      assert SameBranch(t, x, y);
      BranchConvex(g, t, lastSeq, x, g[y].SelfParent(), n);
    }
  }

  /** Overlapping observed ranges on two branches of one validator reveal a fork. */
  lemma OverlapIsFork(
    g: Dag, t: map<EventId, nat>, lastSeq: seq<nat>, a: EventId, b1: nat, s1: BranchSeq, b2: nat, s2: BranchSeq,
    v: ValidatorId)
    requires Chains(g, t, lastSeq) && a in g && b1 != b2
    requires forall x :: x in t && (t[x] == b1 || t[x] == b2) ==> g[x].creator == v
    requires RangeOf(g, t, Past(g, t, a), b1, s1) && RangeOf(g, t, Past(g, t, a), b2, s2)
    requires s1 != EMPTY && s2 != EMPTY && s1.minSeq <= s2.seqno && s2.minSeq <= s1.seqno
    ensures SeesFork(g, a, v)
  {
    var past := Past(g, t, a);
    var n := if s1.minSeq <= s2.minSeq then s2.minSeq else s1.minSeq;
    var x := EventAt(g, t, lastSeq, a, b1, s1, n);
    var y := EventAt(g, t, lastSeq, a, b2, s2, n);
    assert ForkPair(g, x, y);
  }

  /** The observed event with sequence number n on branch b. */
  lemma EventAt(g: Dag, t: map<EventId, nat>, lastSeq: seq<nat>, a: EventId, b: nat, s: BranchSeq, n: nat)
    returns (x: EventId)
    requires Chains(g, t, lastSeq) && a in g && s != EMPTY && RangeOf(g, t, Past(g, t, a), b, s)
    requires s.minSeq <= n <= s.seqno
    ensures OnBranch(t, x, b) && x in g && g[x].seqno == n && Observes(g, a, x)
  {
    var past := Past(g, t, a);
    var hi :| InRange(g, t, past, b, hi) && g[hi].seqno == s.seqno;
    var lo :| InRange(g, t, past, b, lo) && g[lo].seqno == s.minSeq;
    x := SelfAt(g, hi, n);
    BranchConvex(g, t, lastSeq, lo, hi, n);
    SelfAtObserved(g, hi, n);
    ObservesTrans(g, a, hi, x);
  }

  lemma RangeCovers(g: Dag, t: map<EventId, nat>, past: set<EventId>, b: nat, s: BranchSeq, x: EventId)
    requires RangeOf(g, t, past, b, s) && InRange(g, t, past, b, x)
    ensures x in g && s != EMPTY && s.minSeq <= g[x].seqno <= s.seqno
  {
  }

  /** An observed fork shows as overlapping ranges on two branches. */
  lemma ForkIsOverlap(
    g: Dag, t: map<EventId, nat>, lastSeq: seq<nat>, a: EventId, x: EventId, y: EventId, s1: BranchSeq, s2: BranchSeq)
    requires Chains(g, t, lastSeq) && a in g && x in t && y in t
    requires ForkPair(g, x, y) && Observes(g, a, x) && Observes(g, a, y)
    requires RangeOf(g, t, Past(g, t, a), t[x], s1) && RangeOf(g, t, Past(g, t, a), t[y], s2)
    ensures t[x] != t[y] && s1 != EMPTY && s2 != EMPTY && s1.minSeq <= s2.seqno && s2.minSeq <= s1.seqno
  {
    ForkOnTwoBranches(g, t, lastSeq, x, y);
    RangeCovers(g, t, Past(g, t, a), t[x], s1, x);
    RangeCovers(g, t, Past(g, t, a), t[y], s2, y);
  }

  // ---------------------------------------------------------------- merging parents

  lemma RangeMerge(
    g: Dag, t: map<EventId, nat>, p: set<EventId>, q: set<EventId>, b: nat, s1: BranchSeq, s2: BranchSeq)
    requires RangeOf(g, t, p, b, s1) && RangeOf(g, t, q, b, s2)
    requires forall x :: x in p || x in q ==> x in g
    ensures RangeOf(g, t, p + q, b, Merge(s1, s2))
    ensures s1 != FORK && s2 != FORK
  {
    forall x ensures InRange(g, t, p + q, b, x) <==> InRange(g, t, p, b, x) || InRange(g, t, q, b, x) {}
    if s2 == EMPTY {
      assert forall x :: !InRange(g, t, q, b, x);
    } else if s1 == EMPTY {
      assert forall x :: !InRange(g, t, p, b, x);
    } else {
      RangeMergeBoth(g, t, p, q, b, s1, s2);
    }
  }

  lemma RangeMergeBoth(
    g: Dag, t: map<EventId, nat>, p: set<EventId>, q: set<EventId>, b: nat, s1: BranchSeq, s2: BranchSeq)
    requires RangeOf(g, t, p, b, s1) && RangeOf(g, t, q, b, s2) && s1 != EMPTY && s2 != EMPTY
    requires forall x :: InRange(g, t, p + q, b, x) <==> InRange(g, t, p, b, x) || InRange(g, t, q, b, x)
    ensures RangeOf(g, t, p + q, b, Merge(s1, s2))
  {
    hide InRange, RangeOf;
    var hi1, lo1 := RangeEnds(g, t, p, b, s1);
    var hi2, lo2 := RangeEnds(g, t, q, b, s2);
    var hi, lo := if s1.seqno < s2.seqno then hi2 else hi1, if s1.minSeq > s2.minSeq then lo2 else lo1;
    forall x | InRange(g, t, p + q, b, x) ensures x in g && g[lo].seqno <= g[x].seqno <= g[hi].seqno {
      if InRange(g, t, p, b, x) {
        RangeCovers(g, t, p, b, s1, x);
      } else {
        RangeCovers(g, t, q, b, s2, x);
      }
    }
    RangeIs(g, t, p + q, b, hi, lo);
  }

  lemma RangeEnds(
    g: Dag, t: map<EventId, nat>, p: set<EventId>, b: nat, s: BranchSeq) returns (hi: EventId, lo: EventId)
    requires RangeOf(g, t, p, b, s) && s != EMPTY
    ensures InRange(g, t, p, b, hi) && hi in g && g[hi].seqno == s.seqno >= 1
    ensures InRange(g, t, p, b, lo) && lo in g && g[lo].seqno == s.minSeq
    ensures s != FORK
  {
    hi :| InRange(g, t, p, b, hi) && g[hi].seqno == s.seqno;
    lo :| InRange(g, t, p, b, lo) && g[lo].seqno == s.minSeq;
  }

  lemma RangeIs(g: Dag, t: map<EventId, nat>, p: set<EventId>, b: nat, hi: EventId, lo: EventId)
    requires hi in g && lo in g && InRange(g, t, p, b, hi) && InRange(g, t, p, b, lo)
    requires forall x :: InRange(g, t, p, b, x) ==> x in g && g[lo].seqno <= g[x].seqno <= g[hi].seqno
    ensures RangeOf(g, t, p, b, BranchSeq(g[hi].seqno, g[lo].seqno))
  {
  }

  lemma RangeNotFork(g: Dag, t: map<EventId, nat>, p: set<EventId>, b: nat, s: BranchSeq)
    requires RangeOf(g, t, p, b, s)
    ensures s != FORK && (s.IsEmpty() <==> s == EMPTY)
  {
  }

  lemma RangeSingle(g: Dag, t: map<EventId, nat>, e: EventId, b: nat)
    requires e in g && e in t
    ensures RangeOf(g, t, {e}, b, if t[e] == b then BranchSeq(g[e].seqno, g[e].seqno) else EMPTY)
  {
    assert InRange(g, t, {e}, t[e], e);
  }
}
