/** The vector engine: global branches, HighestBefore and LowestAfter of every event (package vecengine). */
module VecEngine {
  import opened Basics
  import opened Validators
  import opened Dags
  import opened Causality
  import opened Vectors
  import opened VecState
  import opened VecAdd

  /** newInitialBranchesInfo: branch i belongs to validator i. */
  function InitialBranches(n: nat): BranchesInfo {
    BranchesInfo(Zeros<nat>(n, 0), seq(n, i => i), seq(n, i => [i]))
  }

  lemma InitialBranchesOk(vv: Group)
    ensures BranchesOk(vv, InitialBranches(vv.Len()))
  {
  }

  /** A new branch for validator me. */
  function AppendBranch(bi: BranchesInfo, me: nat, seqno: nat): BranchesInfo
    requires me < |bi.byCreators|
  {
    BranchesInfo(bi.lastSeq + [seqno], bi.creatorIdxs + [me],
                 bi.byCreators[me := bi.byCreators[me] + [|bi.lastSeq|]])
  }

  /** The branch tables after an event of validator me was put on branch mb. */
  ghost predicate Grown(vv: Group, bi: BranchesInfo, bi': BranchesInfo, mb: nat, me: nat, seqno: nat) {
    && BranchesOk(vv, bi') && OwnersGrow(bi.creatorIdxs, bi'.creatorIdxs, mb, me)
    && LastSeqGrows(bi.lastSeq, bi'.lastSeq, mb, seqno)
  }

  lemma BumpGrows(vv: Group, bi: BranchesInfo, mb: nat, seqno: nat)
    requires BranchesOk(vv, bi) && mb < |bi.lastSeq| && bi.lastSeq[mb] <= seqno
    ensures Grown(vv, bi, bi.(lastSeq := bi.lastSeq[mb := seqno]), mb, bi.creatorIdxs[mb], seqno)
  {
  }

  lemma AppendBranchGrows(vv: Group, bi: BranchesInfo, me: nat, seqno: nat)
    requires BranchesOk(vv, bi) && me < vv.Len() && |bi.byCreators[me]| < MAX_BRANCHES_PER_VALIDATOR
    ensures Grown(vv, bi, AppendBranch(bi, me, seqno), |bi.lastSeq|, me, seqno)
  {
    AppendBranchOk(vv, bi, me, seqno);
  }

  lemma AppendBranchOk(vv: Group, bi: BranchesInfo, me: nat, seqno: nat)
    requires BranchesOk(vv, bi) && me < vv.Len() && |bi.byCreators[me]| < MAX_BRANCHES_PER_VALIDATOR
    ensures BranchesOk(vv, AppendBranch(bi, me, seqno))
  {
    var next := AppendBranch(bi, me, seqno);
    var nb := |bi.lastSeq|;
    forall c, b | 0 <= c < vv.Len() && b in next.byCreators[c]
        ensures b < |next.creatorIdxs| && next.creatorIdxs[b] == c {
      if c != me || b != nb {
        assert b in bi.byCreators[c];
      }
    }
    forall b | 0 <= b < |next.creatorIdxs| ensures b in next.byCreators[next.creatorIdxs[b]] {
      if b < nb {
        assert b in bi.byCreators[bi.creatorIdxs[b]];
      }
    }
    assert NoDup(next.byCreators[me]) by {
      assert forall i :: 0 <= i < |bi.byCreators[me]| ==> bi.byCreators[me][i] in bi.byCreators[me];
    }
  }

  /** What placing e needs: a known creator and a self-parent with a branch. */
  ghost predicate Placeable(vv: Group, t: Tables, e: Event) {
    && BranchesOk(vv, t.bi) && vv.GetIdx(e.creator) < vv.Len()
    && (e.HasSelfParent() ==> e.SelfParent() in t.branchOf && t.branchOf[e.SelfParent()] < |t.bi.lastSeq|)
  }

  /** e is not the successor of a branch tip (or the first event of its creator). */
  ghost predicate StartsBranch(vv: Group, t: Tables, e: Event)
    requires Placeable(vv, t, e)
  {
    if e.HasSelfParent() then t.bi.lastSeq[t.branchOf[e.SelfParent()]] + 1 != e.seqno
    else t.bi.lastSeq[vv.GetIdx(e.creator)] != 0
  }

  /** e would need one branch more than its creator may have. */
  ghost predicate AtCap(vv: Group, t: Tables, e: Event)
    requires Placeable(vv, t, e)
  {
    StartsBranch(vv, t, e) && |t.bi.byCreators[vv.GetIdx(e.creator)]| >= 1024
  }

  /**
   The branch tables after e and its branch: a tip moves up, a branch is new, or past the cap the last one is shared.
   */
  ghost function Placed(vv: Group, t: Tables, e: Event): (BranchesInfo, nat)
    requires Placeable(vv, t, e)
  {
    var bi, me := t.bi, vv.GetIdx(e.creator);
    if !StartsBranch(vv, t, e) then
      var b := if e.HasSelfParent() then t.branchOf[e.SelfParent()] else me;
      (bi.(lastSeq := bi.lastSeq[b := e.seqno]), b)
    else if AtCap(vv, t, e) then
      var b := bi.byCreators[me][|bi.byCreators[me]| - 1];
      assert b in bi.byCreators[me];
      (if e.seqno > bi.lastSeq[b] then bi.(lastSeq := bi.lastSeq[b := e.seqno]) else bi, b)
    else (AppendBranch(bi, me, e.seqno), |bi.lastSeq|)
  }

  /** The tables after e: its place, and its vector computed from those of its parents, forks marked. */
  ghost predicate Entered(vv: Group, t: Tables, t': Tables, e: Event)
    requires Placeable(vv, t, e) && forall p :: p in e.parents ==> p in t.before
  {
    var mb := Placed(vv, t, e).1;
    && t'.bi == Placed(vv, t, e).0 && t'.branchOf == t.branchOf[e.id := mb] && t'.before.Keys == t.before.Keys + {e.id}
    && (forall x :: x in t.before && x != e.id ==> t'.before[x] == t.before[x])
    && Marked(t'.bi, GatheredUpTo(t.before, e, mb, |t.bi.creatorIdxs|, |e.parents|), t'.before[e.id])
  }

  lemma EmptyExact(g: Dag, vv: Group, t: Tables)
    requires BranchesOk(vv, t.bi) && t.branchOf == map[] && t.before == map[] && t.after == map[]
    ensures Exact(g, vv, t)
  {
  }

  /** e continues its self-parent's branch when the self-parent is the tip. */
  lemma TipExtends(g: Dag, t: map<EventId, nat>, lastSeq: seq<nat>, e: EventId)
    requires Chains(g, t, lastSeq) && e in g && g[e].HasSelfParent() && g[e].SelfParent() in t
    requires lastSeq[t[g[e].SelfParent()]] + 1 == g[e].seqno
    ensures ExtendsBranch(g, t, e, t[g[e].SelfParent()])
  {
    var p := g[e].SelfParent();
    forall x | OnBranch(t, x, t[p]) ensures g[x].seqno < g[e].seqno && SelfAncestor(g, e, x) {
      assert SameBranch(t, x, p);
    }
  }

  lemma UnusedBranchExtends(g: Dag, t: map<EventId, nat>, e: EventId, b: nat)
    requires e in g && forall x :: x in t ==> t[x] != b
    ensures ExtendsBranch(g, t, e, b)
  {
  }

  /** Marked events closed under parents and covering e's parents cover all that e observes. */
  lemma MarkedCovers(g: Dag, marked: set<EventId>, e: EventId, x: EventId)
    requires e in g && Closed(g, marked) && (forall p :: p in g[e].parents ==> p in marked)
    requires Observes(g, e, x) && x != e
    ensures x in marked
  {
    var p :| p in g[e].parents && Observes(g, p, x);
    ClosedObserves(g, marked, p, x);
  }

  class Engine {
    const vv: Group
    const input: Dag            // the event source
    var t: Tables               // branches and vectors, with what is not flushed yet
    var flushed: Tables         // what the database holds

    ghost predicate Valid()
      reads this
    {
      vv.Valid() && CreatorsIn(input, vv) && Stored(input, vv, t) && Stored(input, vv, flushed)
    }

    /** Every vector agrees with the graph. */
    ghost predicate IsExact()
      reads this
    {
      Exact(input, vv, t) && Exact(input, vv, flushed)
    }

    constructor (vv: Group, input: Dag)
      requires vv.Valid() && CreatorsIn(input, vv)
      ensures Valid() && IsExact() && this.vv == vv && this.input == input
      ensures t == Tables(InitialBranches(vv.Len()), map[], map[], map[]) && flushed == t
      ensures TipsReached(input, vv, t.branchOf, t.bi) && SplitByForks(input, vv, t.branchOf, t.bi)
    {
      this.vv, this.input := vv, input;
      t := Tables(InitialBranches(vv.Len()), map[], map[], map[]);
      flushed := Tables(InitialBranches(vv.Len()), map[], map[], map[]);
      new;
      InitialBranchesOk(vv);
      EmptyExact(input, vv, t);
    }

    /** An engine that starts from given tables. */
    constructor Over(vv: Group, input: Dag, t: Tables)
      requires vv.Valid() && CreatorsIn(input, vv) && Exact(input, vv, t)
      ensures Valid() && IsExact() && this.vv == vv && this.input == input && this.t == t && flushed == t
    {
      hide Exact, CreatorsIn;
      this.vv, this.input, this.t, flushed := vv, input, t, t;
      new;
      ExactStored(input, vv, t);
    }

    predicate AtLeastOneFork()
      reads this
    {
      |t.bi.creatorIdxs| > vv.Len()
    }

    /** Flush: the tables reach the database. */
    method Flush()
      requires Valid()
      modifies this`flushed
      ensures Valid() && flushed == t
      ensures Exact(input, vv, t) ==> IsExact()
    {
      flushed := t;
    }

    /** DropNotFlushed: back to what the database holds. */
    method DropNotFlushed()
      requires Valid()
      modifies this`t
      ensures Valid() && t == flushed
      ensures old(IsExact()) ==> IsExact()
    {
      t := flushed;
    }

    lemma IsPlaceable(e: Event)
      requires Valid() && e.id in input && input[e.id] == e && (e.HasSelfParent() ==> e.SelfParent() in t.branchOf)
      ensures Placeable(vv, t, e) && vv.Exists(e.creator)
      ensures e.HasSelfParent() ==> t.bi.creatorIdxs[t.branchOf[e.SelfParent()]] == vv.GetIdx(e.creator)
    {
    }

    /** fillGlobalBranchID never reports an error, and below the cap e continues the branch it is given. */
    method FillGlobalBranchID(e: Event, me: nat) returns (mb: nat, ok: bool)
      requires Valid() && e.id in input && input[e.id] == e && e.id !in t.branchOf && me == vv.GetIdx(e.creator)
      requires e.HasSelfParent() ==> e.SelfParent() in t.branchOf
      modifies this`t
      ensures ok && t == old(t).(bi := t.bi) && Grown(vv, old(t.bi), t.bi, mb, me, e.seqno)
      ensures Placeable(vv, old(t), e) && (t.bi, mb) == Placed(vv, old(t), e)
      ensures old(Chains(input, t.branchOf, t.bi.lastSeq)) && !AtCap(vv, old(t), e) ==>
                ExtendsBranch(input, t.branchOf, e.id, mb)
    {
      hide Grown, Chains, ExtendsBranch, Owned, Shaped, CreatorsIn;
      IsPlaceable(e);
      PlacedGrown(vv, t, e);
      PlacedExtends(input, vv, t, e);
      var bi := t.bi;
      mb, ok := 0, false;
      if |bi.creatorIdxs| != |bi.lastSeq| || |bi.creatorIdxs| < vv.Len() {
        return;
      }
      if !e.HasSelfParent() {
        if bi.lastSeq[me] == 0 {
          t := t.(bi := bi.(lastSeq := bi.lastSeq[me := e.seqno]));
          return me, true;
        }
      } else {
        var spb := t.branchOf[e.SelfParent()];
        if bi.lastSeq[spb] + 1 == e.seqno {
          t := t.(bi := bi.(lastSeq := bi.lastSeq[spb := e.seqno]));
          return spb, true;
        }
      }
      if |bi.byCreators[me]| >= MAX_BRANCHES_PER_VALIDATOR {
        mb := bi.byCreators[me][|bi.byCreators[me]| - 1];
        assert mb in bi.byCreators[me];
        if e.seqno > bi.lastSeq[mb] {
          t := t.(bi := bi.(lastSeq := bi.lastSeq[mb := e.seqno]));
        }
        return mb, true;
      }
      t := t.(bi := AppendBranch(bi, me, e.seqno));
      return |bi.lastSeq|, true;
    }

    /** HighestBefore before fork marking: e itself and what its parents collected. */
    method CollectParents(e: Event, mb: nat, width: nat, ghost bi0: BranchesInfo) returns (vec: seq<BranchSeq>)
      requires e.id in input && input[e.id] == e && BranchesOk(vv, bi0) && width == |bi0.creatorIdxs|
      requires Joins(input, vv, t, bi0.creatorIdxs, e.id, t.bi.creatorIdxs, mb)
      requires forall b :: 0 <= b < |t.bi.creatorIdxs| ==> t.bi.creatorIdxs[b] < vv.Len()
      ensures |vec| == |t.bi.creatorIdxs|
      ensures (forall p :: p in e.parents ==> p in t.before) && vec == GatheredUpTo(t.before, e, mb, width, |e.parents|)
      ensures AllBeforeExact(input, vv, bi0.creatorIdxs, t) ==>
                Collected(input, vv, t.bi.creatorIdxs, t.branchOf[e.id := mb], e.id, |e.parents|, vec)
    {
      hide *;
      ghost var exact := AllBeforeExact(input, vv, bi0.creatorIdxs, t);
      ParentsHaveVectors(input, vv, t, bi0.creatorIdxs, e.id, t.bi.creatorIdxs, mb);
      vec := Set(Zeros(width, EMPTY), mb, BranchSeq(e.seqno, e.seqno), EMPTY);
      CollectStart(input, vv, t, bi0.creatorIdxs, e.id, t.bi.creatorIdxs, mb, vec);
      CollectedWidth(input, vv, t.bi.creatorIdxs, t.branchOf[e.id := mb], e.id, 0, vec);
      GatherStart(t.before, e, mb, width);
      for i := 0 to |e.parents|
        invariant |vec| == |t.bi.creatorIdxs| && vec == GatheredUpTo(t.before, e, mb, width, i)
        invariant exact ==> Collected(input, vv, t.bi.creatorIdxs, t.branchOf[e.id := mb], e.id, i, vec)
      {
        ghost var prev := vec;
        assert e.parents[i] in e.parents;
        vec := CollectFrom(vec, t.before[e.parents[i]], |t.bi.creatorIdxs|);
        GatherStep(t.before, e, mb, width, i, prev, vec);
        if exact {
          CollectStep(input, vv, bi0, t, e.id, t.bi.creatorIdxs, mb, i, prev, vec);
        }
      }
    }

    /** One branch of the list carries the fork marker. */
    method AnyForkDetected(vec: seq<BranchSeq>, branches: seq<nat>) returns (r: bool)
      requires forall b :: b in branches ==> b < |vec|
      ensures r <==> exists b :: b in branches && vec[b] == FORK
    {
      assert forall i :: 0 <= i < |branches| ==> branches[i] in branches;
      for i := 0 to |branches|
        invariant forall j :: 0 <= j < i ==> vec[branches[j]] != FORK
      {
        if vec[branches[i]].IsForkDetected() {
          return true;
        }
      }
      return false;
    }

    /** Two branches of the list have overlapping observed ranges. */
    method AnyOverlapping(vec: seq<BranchSeq>, branches: seq<nat>) returns (r: bool)
      requires forall b :: b in branches ==> b < |vec|
      ensures r <==> exists x, y :: x in branches && y in branches && Overlaps(vec, x, y)
    {
      assert forall i :: 0 <= i < |branches| ==> branches[i] in branches;
      for i := 0 to |branches|
        invariant forall k, l :: 0 <= k < i && 0 <= l < |branches| ==> !Overlaps(vec, branches[k], branches[l])
      {
        for j := 0 to |branches|
          invariant forall l :: 0 <= l < j ==> !Overlaps(vec, branches[i], branches[l])
        {
          var a, b := branches[i], branches[j];
          if a == b {
            continue;
          }
          if vec[a].IsEmpty() || vec[b].IsEmpty() {
            continue;
          }
          if vec[a].minSeq <= vec[b].seqno && vec[b].minSeq <= vec[a].seqno {
            assert Overlaps(vec, a, b);
            return true;
          }
        }
      }
      return false;
    }

    /** setForkDetected: marks every branch of the owner of branch n. */
    method SetForkDetected(vec: seq<BranchSeq>, n: nat) returns (r: seq<BranchSeq>)
      requires BranchesOk(vv, t.bi) && |vec| == |t.bi.creatorIdxs| && n < vv.Len()
      ensures |r| == |vec|
      ensures forall b :: 0 <= b < |vec| ==> r[b] == if t.bi.creatorIdxs[b] == n then FORK else vec[b]
    {
      r := vec;
      var branches := t.bi.byCreators[t.bi.creatorIdxs[n]];
      for i := 0 to |branches|
        invariant |r| == |vec|
        invariant forall b :: 0 <= b < |vec| ==> r[b] == if b in branches[..i] then FORK else vec[b]
      {
        assert branches[i] in branches;
        assert branches[..i + 1] == branches[..i] + [branches[i]];
        r := Set(r, branches[i], FORK, EMPTY);
      }
      assert branches[..|branches|] == branches;
    }

    /** Marks, on all branches of their creator, exactly the forks the collected vector reveals. */
    method DetectForks(vec: seq<BranchSeq>) returns (r: seq<BranchSeq>)
      requires BranchesOk(vv, t.bi) && |vec| == |t.bi.creatorIdxs|
      ensures Marked(t.bi, vec, r)
    {
      hide Detected, AnyMarked, AnyOverlap, Marked, FirstPass, SecondPass;
      r := vec;
      if !AtLeastOneFork() {
        NoForkDetected(vv, t.bi, vec);
        return;
      }
      FirstPassStart(t.bi, vec);
      for n := 0 to vv.Len()
        invariant |r| == |vec| && FirstPass(t.bi, vec, r, n)
      {
        ghost var prev := r;
        FirstPassKeeps(vv, t.bi, vec, r, n);
        if |t.bi.byCreators[n]| <= 1 {
          FirstPassNone(vv, t.bi, vec, r, n);
          continue;
        }
        var marked := AnyForkDetected(r, t.bi.byCreators[n]);
        if marked {
          r := SetForkDetected(r, n);
          FirstPassSome(vv, t.bi, vec, prev, r, n);
        } else {
          FirstPassNone(vv, t.bi, vec, r, n);
        }
      }
      SecondPassStart(vv, t.bi, vec, r);
      for n := 0 to vv.Len()
        invariant |r| == |vec| && SecondPass(t.bi, vec, r, n)
      {
        ghost var prev := r;
        SecondPassKeeps(vv, t.bi, vec, r, n);
        if r[n].IsForkDetected() {
          SecondPassSkip(vv, t.bi, vec, r, n);
          continue;
        }
        var overlap := AnyOverlapping(r, t.bi.byCreators[n]);
        OverlapIs(vv, t.bi, r, n);
        if overlap {
          r := SetForkDetected(r, n);
          SecondPassSome(vv, t.bi, vec, prev, r, n);
        } else {
          SecondPassNone(vv, t.bi, vec, r, n);
        }
      }
      SecondPassDone(vv, t.bi, vec, r);
    }

    /** DfsSubgraph with LowestAfter.Visit: stamps branch mb on every ancestor of e that lacks it. */
    method WalkAncestors(e: Event, mb: nat)
      requires e.id in input && input[e.id] == e && Closed(input, t.after.Keys) && e.id !in t.after
      requires forall p :: p in e.parents ==> p in t.after
      modifies this`t
      ensures t == old(t).(after := t.after) && Walks(input, old(t.after), t.after, e, mb)
    {
      hide *;
      ghost var was, inherited := t.after, MarksInherited(input, t.after, mb);
      var stack := e.parents;
      WalkStart(input, was, e, mb);
      while stack != []
        invariant t == old(t).(after := t.after) && WalkInv(input, was, t.after, e, mb, stack)
        invariant inherited ==> Frontier(input, t.after, mb, stack)
        decreases Unstamped(t.after, mb), |stack|
      {
        var curr := stack[|stack| - 1];
        ghost var prev := stack;
        stack := stack[..|stack| - 1];
        assert prev == stack + [curr];
        WalkTop(input, was, t.after, e, mb, stack, curr);
        var w := t.after[curr];
        if Get<nat>(w, mb, 0) != 0 {
          WalkSkip(input, was, t.after, e, mb, stack, curr);
          continue;
        }
        WalkStamp(input, was, t.after, e, mb, stack, curr);
        t := t.(after := t.after[curr := Set<nat>(w, mb, e.seqno, 0)]);
        stack := stack + input[curr].parents;
      }
      if inherited {
        WalkDone(input, was, t.after, e, mb);
      }
      WalksIs(input, was, t.after, e, mb);
    }

    /** Every parent has its vectors. */
    method ParentsStored(e: Event) returns (r: bool)
      ensures r <==> forall p :: p in e.parents ==> p in t.before
    {
      for i := 0 to |e.parents|
        invariant forall j :: 0 <= j < i ==> e.parents[j] in t.before
      {
        if e.parents[i] !in t.before {
          assert e.parents[i] in e.parents;
          return false;
        }
      }
      return true;
    }

    /** fillEventVectors once the branch of e is known: fills, walks and stores. */
    method FillVectors(e: Event, mb: nat, width: nat, ghost bi0: BranchesInfo)
      requires e.id in input && input[e.id] == e && vv.Valid() && CreatorsIn(input, vv) && width == |bi0.creatorIdxs|
      requires BranchesOk(vv, bi0) && BranchesOk(vv, t.bi) && LastSeqGrows(bi0.lastSeq, t.bi.lastSeq, mb, e.seqno)
      requires Joins(input, vv, t, bi0.creatorIdxs, e.id, t.bi.creatorIdxs, mb)
      modifies this`t
      ensures t.branchOf == old(t).branchOf[e.id := mb] && Stored(input, vv, t) && t.bi == old(t).bi
      ensures (forall p :: p in e.parents ==> p in old(t).before) && e.id in t.before
      ensures t.before == old(t).before[e.id := t.before[e.id]]
      ensures Marked(t.bi, GatheredUpTo(old(t).before, e, mb, width, |e.parents|), t.before[e.id])
      ensures Exact(input, vv, old(t).(bi := bi0)) && ExtendsBranch(input, old(t).branchOf, e.id, mb) ==>
                Exact(input, vv, t)
    {
      hide *;
      BranchOwners(vv, t.bi);
      var vec := CollectParents(e, mb, width, bi0);
      var r := DetectForks(vec);
      JoinsClosed(input, vv, t, bi0.creatorIdxs, e.id, t.bi.creatorIdxs, mb);
      ghost var t0 := t;
      WalkAncestors(e, mb);
      var mine := Set<nat>(Zeros<nat>(width, 0), mb, e.seqno, 0);
      FillDone(input, vv, t0, bi0, e, mb, vec, r, t.after, mine);
      t := Tables(t.bi, t.branchOf[e.id := mb], t.before[e.id := r], t.after[e.id := mine]);
    }

    lemma FromValid()
      requires Valid()
      ensures vv.Valid() && CreatorsIn(input, vv) && Stored(input, vv, t) && Stored(input, vv, flushed)
      ensures IsExact() <==> Exact(input, vv, t) && Exact(input, vv, flushed)
      ensures Exact(input, vv, t) ==> Chains(input, t.branchOf, t.bi.lastSeq)
    {
      hide Stored, CreatorsIn, Chains;
    }

    lemma ToValid()
      requires vv.Valid() && CreatorsIn(input, vv) && Stored(input, vv, t) && Stored(input, vv, flushed)
      ensures Valid()
      ensures IsExact() <==> Exact(input, vv, t) && Exact(input, vv, flushed)
    {
      hide Stored, Exact, CreatorsIn;
    }

    /**
     Add (fillEventVectors): false is the "parent not found" error, which leaves the vectors alone.
     Below the branch cap the tables stay exact, and only validators that have forked have more than one branch.
     */
    method Add(e: Event) returns (ok: bool)
      requires Valid() && e.id in input && input[e.id] == e && e.id !in t.branchOf
      requires e.HasSelfParent() ==> e.SelfParent() in t.branchOf
      modifies this`t
      ensures Valid()
      ensures ok <==> forall p :: p in e.parents ==> p in old(t.branchOf)
      ensures t.branchOf.Keys == if ok then old(t.branchOf.Keys) + {e.id} else old(t.branchOf.Keys)
      ensures vv.Exists(e.creator) && Placeable(vv, old(t), e)
      ensures !ok ==> t == old(t).(bi := Placed(vv, old(t), e).0)
      ensures ok ==> (forall p :: p in e.parents ==> p in old(t).before) && Entered(vv, old(t), t, e)
      ensures old(IsExact()) && !AtCap(vv, old(t), e) ==> IsExact()
      ensures ok && old(TipsReached(input, vv, t.branchOf, t.bi)) ==> TipsReached(input, vv, t.branchOf, t.bi)
      ensures ok && old(IsExact() && TipsReached(input, vv, t.branchOf, t.bi)) ==>
                (IsExact() <==> !AtCap(vv, old(t), e))
      ensures ok && old(IsExact() && TipsReached(input, vv, t.branchOf, t.bi)
                        && SplitByForks(input, vv, t.branchOf, t.bi)) ==>
                SplitByForks(input, vv, t.branchOf, t.bi)
    {
      hide *;
      FromValid();
      IsPlaceable(e);
      CreatorExists(input, vv, e);
      var me, width := vv.GetIdx(e.creator), |t.bi.creatorIdxs|;
      var mb, filled := FillGlobalBranchID(e, me);
      ghost var t0, t1 := old(t), t;
      ok := ParentsStored(e);
      ReadyToJoin(input, vv, t0, t1, e, mb, me);
      if ok {
        FillVectors(e, mb, width, t0.bi);
        assert t1.(bi := t0.bi) == t0;
        EnteredIs(vv, t0, t, e);
        if TipsReached(input, vv, t0.branchOf, t0.bi) {
          PlacedTips(input, vv, t0, e);
          if Exact(input, vv, t0) && SplitByForks(input, vv, t0.branchOf, t0.bi) {
            PlacedSplits(input, vv, t0, e);
          }
          if AtCap(vv, t0, e) && Exact(input, vv, t0) {
            CapBreaksChain(input, vv, t0, e, t.bi.lastSeq);
            ExactChains(input, vv, t);
          }
        }
      } else {
        WiderTables(input, vv, t0, t.bi, mb, me, e.seqno);
      }
      ToValid();
    }
  }

  // ---------------------------------------------------------------- lemmas about the engine's loops

  lemma GatherStart(before: map<EventId, seq<BranchSeq>>, e: Event, mb: nat, width: nat)
    requires forall p :: p in e.parents ==> p in before
    ensures GatheredUpTo(before, e, mb, width, 0) == Set(Zeros(width, EMPTY), mb, BranchSeq(e.seqno, e.seqno), EMPTY)
  {
  }

  lemma GatherStep(
    before: map<EventId, seq<BranchSeq>>, e: Event, mb: nat, width: nat, i: nat, vec: seq<BranchSeq>,
        next: seq<BranchSeq>)
    requires i < |e.parents| && (forall p :: p in e.parents ==> p in before) && |next| == |vec|
    requires vec == GatheredUpTo(before, e, mb, width, i)
    requires forall b :: 0 <= b < |vec| ==> next[b] == Merge(vec[b], Get(before[e.parents[i]], b, EMPTY))
    ensures next == GatheredUpTo(before, e, mb, width, i + 1)
  {
    hide Merge;
    assert next == MergedWith(vec, before[e.parents[i]]);
  }

  lemma EnteredIs(vv: Group, t: Tables, t': Tables, e: Event)
    requires Placeable(vv, t, e) && (forall p :: p in e.parents ==> p in t.before)
    requires (t'.bi, t'.branchOf) == (Placed(vv, t, e).0, t.branchOf[e.id := Placed(vv, t, e).1])
    requires e.id in t'.before && t'.before == t.before[e.id := t'.before[e.id]]
    requires Marked(t'.bi, GatheredUpTo(t.before, e, Placed(vv, t, e).1, |t.bi.creatorIdxs|, |e.parents|),
             t'.before[e.id])
    ensures Entered(vv, t, t', e)
  {
    hide Placed, Marked, GatheredUpTo;
    assert t'.before.Keys == t.before.Keys + {e.id};
  }

  lemma ExactStored(g: Dag, vv: Group, t: Tables)
    requires Exact(g, vv, t)
    ensures Stored(g, vv, t)
  {
    hide Chains, Stored, AllBeforeExact, AllAfterExact, BeforeWide;
  }

  lemma ExactChains(g: Dag, vv: Group, t: Tables)
    ensures Exact(g, vv, t) ==> Chains(g, t.branchOf, t.bi.lastSeq)
  {
    hide Chains, Stored, AllBeforeExact, AllAfterExact, BeforeWide;
  }

  // ---------------------------------------------------------------- the place of an event

  lemma PlacedGrown(vv: Group, t: Tables, e: Event)
    requires Placeable(vv, t, e)
    requires e.HasSelfParent() ==> t.bi.creatorIdxs[t.branchOf[e.SelfParent()]] == vv.GetIdx(e.creator)
    ensures var (bi, mb) := Placed(vv, t, e); Grown(vv, t.bi, bi, mb, vv.GetIdx(e.creator), e.seqno)
  {
    hide Grown, BranchesOk;
    var bi, me := t.bi, vv.GetIdx(e.creator);
    OwnBranches(vv, bi, me);
    if !StartsBranch(vv, t, e) {
      BumpGrows(vv, bi, if e.HasSelfParent() then t.branchOf[e.SelfParent()] else me, e.seqno);
    } else if AtCap(vv, t, e) {
      var b := bi.byCreators[me][|bi.byCreators[me]| - 1];
      assert b in bi.byCreators[me];
      if e.seqno > bi.lastSeq[b] {
        BumpGrows(vv, bi, b, e.seqno);
      } else {
        StaysGrown(vv, bi, b, e.seqno);
      }
    } else {
      AppendBranchGrows(vv, bi, me, e.seqno);
    }
  }

  lemma OwnBranches(vv: Group, bi: BranchesInfo, me: nat)
    requires BranchesOk(vv, bi) && me < vv.Len()
    ensures |bi.lastSeq| == |bi.creatorIdxs| >= vv.Len() == |bi.byCreators| && bi.creatorIdxs[me] == me
    ensures forall b :: b in bi.byCreators[me] ==> b < |bi.lastSeq| && bi.creatorIdxs[b] == me
  {
  }

  lemma StaysGrown(vv: Group, bi: BranchesInfo, mb: nat, seqno: nat)
    requires BranchesOk(vv, bi) && mb < |bi.lastSeq| && seqno <= bi.lastSeq[mb]
    ensures Grown(vv, bi, bi, mb, bi.creatorIdxs[mb], seqno)
  {
  }

  lemma PlacedExtends(g: Dag, vv: Group, t: Tables, e: Event)
    requires Placeable(vv, t, e) && e.id in g && g[e.id] == e
    ensures Chains(g, t.branchOf, t.bi.lastSeq) && !AtCap(vv, t, e) ==>
              ExtendsBranch(g, t.branchOf, e.id, Placed(vv, t, e).1)
  {
    hide BranchesOk, ExtendsBranch, SelfAncestor;
    if Chains(g, t.branchOf, t.bi.lastSeq) && !AtCap(vv, t, e) {
      OwnBranches(vv, t.bi, vv.GetIdx(e.creator));
      if StartsBranch(vv, t, e) || !e.HasSelfParent() {
        UnusedBranchExtends(g, t.branchOf, e.id, Placed(vv, t, e).1) by {
          assert forall x :: x in t.branchOf ==> 1 <= g[x].seqno <= t.bi.lastSeq[t.branchOf[x]];
        }
      } else {
        TipExtends(g, t.branchOf, t.bi.lastSeq, e.id);
      }
    }
  }

  // ---------------------------------------------------------------- the branch cap

  lemma TipMoves(g: Dag, t: map<EventId, nat>, e: EventId, mb: nat, b: nat, seqno: nat)
    requires e in g && e !in t && TipAt(g, t, b, seqno)
    ensures TipAt(g, t[e := mb], b, seqno)
  {
    var x :| x in g && OnBranch(t, x, b) && g[x].seqno == seqno;
    assert OnBranch(t[e := mb], x, b);
  }

  /** Placing an event touches the tip of its own branch only. */
  lemma PlacedShape(vv: Group, t: Tables, e: Event)
    requires Placeable(vv, t, e)
    ensures var (bi, mb) := Placed(vv, t, e);
            && mb < |bi.lastSeq| == |bi.creatorIdxs| && |t.bi.lastSeq| <= |bi.lastSeq|
            && (forall b :: 0 <= b < |bi.lastSeq| && b != mb ==> b < |t.bi.lastSeq| && bi.lastSeq[b] == t.bi.lastSeq[b])
            && (bi.lastSeq[mb] == e.seqno || (mb < |t.bi.lastSeq| && bi.lastSeq[mb] == t.bi.lastSeq[mb]))
            && |bi.byCreators| == |t.bi.byCreators|
            && (forall c :: 0 <= c < |bi.byCreators| ==> t.bi.byCreators[c] <= bi.byCreators[c])
  {
    var bi, me := t.bi, vv.GetIdx(e.creator);
    if AtCap(vv, t, e) {
      assert bi.byCreators[me][|bi.byCreators[me]| - 1] in bi.byCreators[me];
    }
  }

  lemma PlacedTips(g: Dag, vv: Group, t: Tables, e: Event)
    requires Placeable(vv, t, e) && e.id in g && g[e.id] == e && e.id !in t.branchOf
    requires TipsReached(g, vv, t.branchOf, t.bi)
    ensures var (bi, mb) := Placed(vv, t, e); TipsReached(g, vv, t.branchOf[e.id := mb], bi)
  {
    hide Placed, BranchesOk, TipAt;
    var (bi, mb) := Placed(vv, t, e);
    PlacedShape(vv, t, e);
    TipNew(g, t.branchOf, e.id, mb);
    forall b | 0 <= b < |bi.lastSeq| && bi.lastSeq[b] > 0 ensures TipAt(g, t.branchOf[e.id := mb], b, bi.lastSeq[b]) {
      if b < |t.bi.lastSeq| && bi.lastSeq[b] == t.bi.lastSeq[b] {
        TipMoves(g, t.branchOf, e.id, mb, b, bi.lastSeq[b]);
      }
    }
  }

  lemma TipNew(g: Dag, t: map<EventId, nat>, e: EventId, mb: nat)
    requires e in g
    ensures TipAt(g, t[e := mb], mb, g[e].seqno)
  {
    assert OnBranch(t[e := mb], e, mb);
  }

  /** An event that does not continue a branch is a fork of an event that was there. */
  lemma StartsByFork(g: Dag, vv: Group, t: Tables, e: Event) returns (x: EventId)
    requires Placeable(vv, t, e) && StartsBranch(vv, t, e) && e.id in g && g[e.id] == e && e.id !in t.branchOf
    requires vv.Valid() && vv.Exists(e.creator) && CreatorsIn(g, vv) && TipsReached(g, vv, t.branchOf, t.bi)
    requires Owned(g, vv, t.bi.creatorIdxs, t.branchOf) && Chains(g, t.branchOf, t.bi.lastSeq)
    ensures x in t.branchOf && ForkPair(g, e.id, x)
  {
    hide SelfAncestor, Closed;
    var me := vv.GetIdx(e.creator);
    var b := if e.HasSelfParent() then t.branchOf[e.SelfParent()] else me;
    assert t.bi.lastSeq[b] >= e.seqno;
    assert TipAt(g, t.branchOf, b, t.bi.lastSeq[b]);
    var y :| y in g && OnBranch(t.branchOf, y, b) && g[y].seqno == t.bi.lastSeq[b];
    SameOwner(g, vv, y, e.id);
    x := SelfAt(g, y, e.seqno);
    SelfAtObserved(g, y, e.seqno);
    ClosedObserves(g, t.branchOf.Keys, y, x);
  }

  lemma SameOwner(g: Dag, vv: Group, x: EventId, y: EventId)
    requires vv.Valid() && CreatorsIn(g, vv) && x in g && y in g && vv.GetIdx(g[x].creator) == vv.GetIdx(g[y].creator)
    ensures g[x].creator == g[y].creator
  {
  }

  lemma PlacedSplits(g: Dag, vv: Group, t: Tables, e: Event)
    requires Placeable(vv, t, e) && e.id in g && g[e.id] == e && e.id !in t.branchOf
    requires vv.Valid() && vv.Exists(e.creator) && CreatorsIn(g, vv)
    requires Exact(g, vv, t) && TipsReached(g, vv, t.branchOf, t.bi) && SplitByForks(g, vv, t.branchOf, t.bi)
    ensures var (bi, mb) := Placed(vv, t, e); SplitByForks(g, vv, t.branchOf[e.id := mb], bi)
  {
    hide *;
    var (bi, mb) := Placed(vv, t, e);
    PlacedLists(vv, t, e);
    if StartsBranch(vv, t, e) {
      ExactStored(g, vv, t);
      StoredOwned(g, vv, t);
      ExactChains(g, vv, t);
      var x := StartsByFork(g, vv, t, e);
      ForksNow(g, t.branchOf[e.id := mb], e.id, x);
    }
    SplitMore(g, vv, t.branchOf, t.branchOf[e.id := mb], t.bi, bi, e.creator);
  }

  lemma PlacedLists(vv: Group, t: Tables, e: Event)
    requires Placeable(vv, t, e)
    ensures var bi := Placed(vv, t, e).0;
            && |bi.byCreators| == |t.bi.byCreators|
            && forall c :: 0 <= c < |bi.byCreators| && (c == vv.GetIdx(e.creator) ==> !StartsBranch(vv, t, e)) ==>
                 bi.byCreators[c] == t.bi.byCreators[c]
  {
  }

  lemma StoredOwned(g: Dag, vv: Group, t: Tables)
    requires Stored(g, vv, t)
    ensures Owned(g, vv, t.bi.creatorIdxs, t.branchOf)
  {
    hide Owned, BranchesOk, Shaped;
  }

  lemma ForksNow(g: Dag, t: map<EventId, nat>, x: EventId, y: EventId)
    requires x in t && y in t && ForkPair(g, x, y)
    ensures ForksIn(g, t, g[x].creator)
  {
  }

  lemma SplitMore(
    g: Dag, vv: Group, t: map<EventId, nat>, t': map<EventId, nat>, bi: BranchesInfo, bi': BranchesInfo, v: ValidatorId)
    requires SplitByForks(g, vv, t, bi) && t.Keys <= t'.Keys && |bi'.byCreators| == |bi.byCreators|
    requires vv.Valid() && vv.Exists(v)
    requires forall c :: 0 <= c < |bi.byCreators| && (c == vv.GetIdx(v) ==> !ForksIn(g, t', v)) ==>
               bi'.byCreators[c] == bi.byCreators[c]
    ensures SplitByForks(g, vv, t', bi')
  {
    forall c | 0 <= c < |vv.sorted| && c < |bi'.byCreators| && |bi'.byCreators[c]| > 1
      ensures ForksIn(g, t', vv.sorted[c].id)
    {
      if !(c == vv.GetIdx(v) && ForksIn(g, t', v)) {
        var x, y :| x in t && y in t && ForkPair(g, x, y) && g[x].creator == vv.sorted[c].id;
        assert x in t' && y in t';
      }
    }
  }

  /** Past the cap the event shares a branch with events off its chain: the tables cannot be exact. */
  lemma CapBreaksChain(g: Dag, vv: Group, t: Tables, e: Event, lastSeq: seq<nat>)
    requires Placeable(vv, t, e) && AtCap(vv, t, e) && Exact(g, vv, t) && TipsReached(g, vv, t.branchOf, t.bi)
    requires e.id in g && g[e.id] == e && e.id !in t.branchOf
    ensures !Chains(g, t.branchOf[e.id := Placed(vv, t, e).1], lastSeq)
  {
    hide *;
    ExactStored(g, vv, t);
    StoredOwned(g, vv, t);
    OwnedClosed(g, vv, t);
    ExactChains(g, vv, t);
    var x := CapTip(g, vv, t, e);
    SharedBranch(g, t.branchOf, t.bi.lastSeq, e.id, Placed(vv, t, e).1, x, lastSeq);
  }

  /** The branch shared at the cap has an event already. */
  lemma CapTip(g: Dag, vv: Group, t: Tables, e: Event) returns (x: EventId)
    requires Placeable(vv, t, e) && AtCap(vv, t, e) && TipsReached(g, vv, t.branchOf, t.bi)
    ensures var mb := Placed(vv, t, e).1;
            && mb < |t.bi.lastSeq| && x in g && OnBranch(t.branchOf, x, mb) && g[x].seqno == t.bi.lastSeq[mb]
            && (e.HasSelfParent() ==>
                  && e.SelfParent() in t.branchOf
                  && (t.branchOf[e.SelfParent()] == mb ==> t.bi.lastSeq[mb] + 1 != e.seqno))
  {
    var me, mb := vv.GetIdx(e.creator), Placed(vv, t, e).1;
    var mine := t.bi.byCreators[me];
    assert mine[0] == me && mb == mine[|mine| - 1] && mb in mine && mb != me && mb >= vv.Len();
    x :| x in g && OnBranch(t.branchOf, x, mb) && g[x].seqno == t.bi.lastSeq[mb];
  }

  lemma OwnedClosed(g: Dag, vv: Group, t: Tables)
    requires Owned(g, vv, t.bi.creatorIdxs, t.branchOf)
    ensures Closed(g, t.branchOf.Keys)
  {
    hide Closed;
  }

  lemma SharedBranch(
    g: Dag, t: map<EventId, nat>, lastSeq: seq<nat>, e: EventId, mb: nat, tip: EventId, lastSeq': seq<nat>)
    requires Chains(g, t, lastSeq) && Closed(g, t.Keys) && e in g && e !in t
    requires mb < |lastSeq| && tip in g && OnBranch(t, tip, mb) && g[tip].seqno == lastSeq[mb]
    requires g[e].HasSelfParent() ==>
               g[e].SelfParent() in t && (t[g[e].SelfParent()] == mb ==> lastSeq[mb] + 1 != g[e].seqno)
    ensures !Chains(g, t[e := mb], lastSeq')
  {
    hide SelfAncestor, SelfAt, Closed;
    var next := t[e := mb];
    if Chains(g, next, lastSeq') {
      assert SameBranch(next, tip, e) && SameBranch(next, e, tip);
      if g[e].seqno <= g[tip].seqno {
        SelfAtObserved(g, tip, g[e].seqno);
        NotObservedYet(g, t, tip, e);
        AncestorIs(g, tip, e);
      }
      assert false;
    }
  }

  lemma AncestorIs(g: Dag, a: EventId, b: EventId)
    requires a in g && b in g && SelfAncestor(g, a, b)
    ensures g[b].seqno <= g[a].seqno && SelfAt(g, a, g[b].seqno) == b
  {
  }

  /** Without an extra branch there is nothing to compare. */
  lemma NoForkDetected(vv: Group, bi: BranchesInfo, vec: seq<BranchSeq>)
    requires BranchesOk(vv, bi) && |vec| == |bi.creatorIdxs| == vv.Len()
    ensures Marked(bi, vec, vec)
  {
    forall c | 0 <= c < vv.Len() ensures !Detected(bi, vec, c) {
      assert forall b :: b in bi.byCreators[c] ==> b == c;
      if |bi.byCreators[c]| > 1 {
        var x, y := TwoDiffer(bi.byCreators[c]);
        assert false;
      }
    }
  }

  lemma TwoDiffer(s: seq<nat>) returns (x: nat, y: nat)
    requires NoDup(s) && |s| > 1
    ensures x in s && y in s && x != y
  {
    x, y := s[0], s[1];
  }

  /** First pass, validators below n done: a mark on one branch has spread to all branches of its owner. */
  ghost predicate FirstPass(bi: BranchesInfo, vec: seq<BranchSeq>, r: seq<BranchSeq>, n: nat)
    requires |vec| == |r|
  {
    forall b :: 0 <= b < |vec| && b < |bi.creatorIdxs| && bi.creatorIdxs[b] < |bi.byCreators| ==>
      r[b] == if bi.creatorIdxs[b] < n && AnyMarked(bi, vec, bi.creatorIdxs[b]) then FORK else vec[b]
  }

  /** Second pass: below n all detected forks are marked, from n on only the spread ones. */
  ghost predicate SecondPass(bi: BranchesInfo, vec: seq<BranchSeq>, r: seq<BranchSeq>, n: nat)
    requires |vec| == |r|
  {
    forall b :: 0 <= b < |vec| && b < |bi.creatorIdxs| && bi.creatorIdxs[b] < |bi.byCreators| ==>
      var c := bi.creatorIdxs[b];
      r[b] == if AnyMarked(bi, vec, c) || (c < n && Detected(bi, vec, c)) then FORK else vec[b]
  }

  lemma FirstPassStart(bi: BranchesInfo, vec: seq<BranchSeq>)
    ensures FirstPass(bi, vec, vec, 0)
  {
    hide AnyMarked;
  }

  lemma FirstPassKeeps(vv: Group, bi: BranchesInfo, vec: seq<BranchSeq>, r: seq<BranchSeq>, n: nat)
    requires BranchesOk(vv, bi) && |vec| == |r| == |bi.creatorIdxs| && n < vv.Len() && FirstPass(bi, vec, r, n)
    ensures forall b :: b in bi.byCreators[n] ==> b < |r| && r[b] == vec[b]
  {
    hide AnyMarked;
  }

  lemma FirstPassNone(vv: Group, bi: BranchesInfo, vec: seq<BranchSeq>, r: seq<BranchSeq>, n: nat)
    requires BranchesOk(vv, bi) && |vec| == |r| == |bi.creatorIdxs| && n < vv.Len() && FirstPass(bi, vec, r, n)
    requires |bi.byCreators[n]| <= 1 || !exists b :: b in bi.byCreators[n] && b < |r| && r[b] == FORK
    ensures FirstPass(bi, vec, r, n + 1)
  {
    FirstPassKeeps(vv, bi, vec, r, n);
    assert !AnyMarked(bi, vec, n);
  }

  lemma FirstPassSome(vv: Group, bi: BranchesInfo, vec: seq<BranchSeq>, r: seq<BranchSeq>, r': seq<BranchSeq>, n: nat)
    requires BranchesOk(vv, bi) && |vec| == |r| == |r'| == |bi.creatorIdxs| && n < vv.Len() && FirstPass(bi, vec, r, n)
    requires |bi.byCreators[n]| > 1 && exists b :: b in bi.byCreators[n] && b < |r| && r[b] == FORK
    requires forall b :: 0 <= b < |vec| ==> r'[b] == if bi.creatorIdxs[b] == n then FORK else r[b]
    ensures FirstPass(bi, vec, r', n + 1)
  {
    FirstPassKeeps(vv, bi, vec, r, n);
    assert AnyMarked(bi, vec, n);
  }

  lemma SecondPassStart(vv: Group, bi: BranchesInfo, vec: seq<BranchSeq>, r: seq<BranchSeq>)
    requires BranchesOk(vv, bi) && |vec| == |r| && FirstPass(bi, vec, r, vv.Len())
    ensures SecondPass(bi, vec, r, 0)
  {
    hide AnyMarked, Detected;
  }

  lemma SecondPassKeeps(vv: Group, bi: BranchesInfo, vec: seq<BranchSeq>, r: seq<BranchSeq>, n: nat)
    requires BranchesOk(vv, bi) && |vec| == |r| == |bi.creatorIdxs| && n < vv.Len() && SecondPass(bi, vec, r, n)
    ensures forall b :: b in bi.byCreators[n] ==> b < |r| && r[b] == if AnyMarked(bi, vec, n) then FORK else vec[b]
    ensures n in bi.byCreators[n]
  {
    hide AnyMarked, Detected;
    assert bi.creatorIdxs[n] == n;
  }

  lemma SecondPassSkip(vv: Group, bi: BranchesInfo, vec: seq<BranchSeq>, r: seq<BranchSeq>, n: nat)
    requires BranchesOk(vv, bi) && |vec| == |r| == |bi.creatorIdxs| && n < vv.Len() && SecondPass(bi, vec, r, n)
    requires r[n] == FORK
    ensures SecondPass(bi, vec, r, n + 1)
  {
    SecondPassKeeps(vv, bi, vec, r, n);
    if !AnyMarked(bi, vec, n) {
      if |bi.byCreators[n]| > 1 {
        assert false;
      }
      OneBranchNoOverlap(bi, vec, n);
    }
    hide AnyMarked, AnyOverlap;
  }

  lemma OneBranchNoOverlap(bi: BranchesInfo, vec: seq<BranchSeq>, n: nat)
    requires n < |bi.byCreators| && |bi.byCreators[n]| <= 1
    ensures !AnyOverlap(bi, vec, n)
  {
  }

  lemma OverlapIs(vv: Group, bi: BranchesInfo, r: seq<BranchSeq>, n: nat)
    requires BranchesOk(vv, bi) && n < vv.Len() && |r| == |bi.creatorIdxs|
    ensures forall b :: b in bi.byCreators[n] ==> b < |r|
    ensures AnyOverlap(bi, r, n) <==> exists x, y :: x in bi.byCreators[n] && y in bi.byCreators[n] && Overlaps(r, x, y)
  {
  }

  lemma SecondPassNone(vv: Group, bi: BranchesInfo, vec: seq<BranchSeq>, r: seq<BranchSeq>, n: nat)
    requires BranchesOk(vv, bi) && |vec| == |r| == |bi.creatorIdxs| && n < vv.Len() && SecondPass(bi, vec, r, n)
    requires r[n] != FORK && !AnyOverlap(bi, r, n)
    ensures SecondPass(bi, vec, r, n + 1)
  {
    SecondPassKeeps(vv, bi, vec, r, n);
    SameOverlaps(bi, vec, r, n);
    hide AnyMarked, AnyOverlap;
  }

  lemma SecondPassSome(vv: Group, bi: BranchesInfo, vec: seq<BranchSeq>, r: seq<BranchSeq>, r': seq<BranchSeq>, n: nat)
    requires BranchesOk(vv, bi) && |vec| == |r| == |r'| == |bi.creatorIdxs| && n < vv.Len() && SecondPass(bi, vec, r, n)
    requires r[n] != FORK && AnyOverlap(bi, r, n)
    requires forall b :: 0 <= b < |vec| ==> r'[b] == if bi.creatorIdxs[b] == n then FORK else r[b]
    ensures SecondPass(bi, vec, r', n + 1)
  {
    SecondPassKeeps(vv, bi, vec, r, n);
    SameOverlaps(bi, vec, r, n);
    hide AnyMarked, AnyOverlap;
  }

  lemma SameOverlaps(bi: BranchesInfo, vec: seq<BranchSeq>, r: seq<BranchSeq>, n: nat)
    requires n < |bi.byCreators| && |vec| == |r|
    requires forall b :: b in bi.byCreators[n] ==> b < |r| && r[b] == vec[b]
    ensures AnyOverlap(bi, vec, n) <==>
            exists x, y :: x in bi.byCreators[n] && y in bi.byCreators[n] && x < |r| && y < |r| && Overlaps(r, x, y)
  {
    forall x, y | x in bi.byCreators[n] && y in bi.byCreators[n] ensures Overlaps(r, x, y) <==> Overlaps(vec, x, y) {}
  }

  lemma SecondPassDone(vv: Group, bi: BranchesInfo, vec: seq<BranchSeq>, r: seq<BranchSeq>)
    requires BranchesOk(vv, bi) && |vec| == |r| && SecondPass(bi, vec, r, vv.Len())
    ensures Marked(bi, vec, r)
  {
    hide AnyMarked, AnyOverlap;
  }

  /** Marks of branch mb are inherited by parents. */
  ghost predicate MarksInherited(g: Dag, after: map<EventId, seq<nat>>, mb: nat) {
    forall x, p :: x in after && x in g && p in g[x].parents && Get<nat>(after[x], mb, 0) != 0 ==>
      p in after && Get<nat>(after[p], mb, 0) != 0
  }

  /** The parents of a stamped event are stamped or waiting on the stack. */
  ghost predicate Frontier(g: Dag, after: map<EventId, seq<nat>>, mb: nat, stack: seq<EventId>) {
    forall x, p :: x in after && x in g && p in g[x].parents && Get<nat>(after[x], mb, 0) != 0 ==>
      p in after && (Get<nat>(after[p], mb, 0) != 0 || p in stack)
  }

  /** An entry of the walk in progress: as before, or stamped because e observes it. */
  ghost predicate Stamped(was: seq<nat>, now: seq<nat>, mb: nat, seqno: nat, observed: bool) {
    now == was || (Get<nat>(was, mb, 0) == 0 && observed && now == Set<nat>(was, mb, seqno, 0))
  }

  ghost function Unstamped(after: map<EventId, seq<nat>>, mb: nat): set<EventId> {
    set x | x in after && Get<nat>(after[x], mb, 0) == 0
  }

  lemma ParentsObserved(g: Dag, e: EventId, x: EventId)
    requires e in g && x in g && Observes(g, e, x)
    ensures forall p :: p in g[x].parents ==> Observes(g, e, p)
  {
    forall p | p in g[x].parents ensures Observes(g, e, p) {
      assert Observes(g, x, p);
      ObservesTrans(g, e, x, p);
    }
  }

  /** The walk of e in progress: only ancestors of e are stamped, and its parents are stamped or waiting. */
  ghost predicate WalkInv(
    g: Dag, was: map<EventId, seq<nat>>, now: map<EventId, seq<nat>>, e: Event, mb: nat, stack: seq<EventId>)
  {
    && e.id in g && g[e.id] == e && Closed(g, was.Keys) && now.Keys == was.Keys
    && StackSeen(g, now.Keys, e, stack)
    && AllStamped(g, was, now, e, mb)
    && ParentsPending(now, e, mb, stack)
  }

  ghost predicate StackSeen(g: Dag, known: set<EventId>, e: Event, stack: seq<EventId>)
    requires e.id in g
  {
    forall x :: x in stack ==> x in known && Observes(g, e.id, x)
  }

  ghost predicate AllStamped(g: Dag, was: map<EventId, seq<nat>>, now: map<EventId, seq<nat>>, e: Event, mb: nat)
    requires e.id in g && now.Keys == was.Keys
  {
    forall x :: x in now ==> Stamped(was[x], now[x], mb, e.seqno, Observes(g, e.id, x))
  }

  ghost predicate ParentsPending(now: map<EventId, seq<nat>>, e: Event, mb: nat, stack: seq<EventId>) {
    forall p :: p in e.parents ==> p in now && (Get<nat>(now[p], mb, 0) != 0 || p in stack)
  }

  lemma WalkStart(g: Dag, was: map<EventId, seq<nat>>, e: Event, mb: nat)
    requires e.id in g && g[e.id] == e && Closed(g, was.Keys) && forall p :: p in e.parents ==> p in was
    ensures WalkInv(g, was, was, e, mb, e.parents)
    ensures MarksInherited(g, was, mb) ==> Frontier(g, was, mb, e.parents)
  {
    ParentsObserved(g, e.id, e.id);
    hide Observes;
  }

  lemma WalkSkip(
    g: Dag, was: map<EventId, seq<nat>>, now: map<EventId, seq<nat>>, e: Event, mb: nat, stack: seq<EventId>,
        curr: EventId)
    requires WalkInv(g, was, now, e, mb, stack + [curr]) && curr in now && Get<nat>(now[curr], mb, 0) != 0
    ensures WalkInv(g, was, now, e, mb, stack)
    ensures Frontier(g, now, mb, stack + [curr]) ==> Frontier(g, now, mb, stack)
  {
    hide Observes, AllStamped, Closed;
    assert forall x :: x in stack ==> x in stack + [curr];
  }

  lemma WalkStamp(
    g: Dag, was: map<EventId, seq<nat>>, now: map<EventId, seq<nat>>, e: Event, mb: nat, stack: seq<EventId>,
        curr: EventId)
    requires WalkInv(g, was, now, e, mb, stack + [curr]) && curr in now && Get<nat>(now[curr], mb, 0) == 0
    requires e.seqno > 0
    ensures var now' := now[curr := Set<nat>(now[curr], mb, e.seqno, 0)];
            && WalkInv(g, was, now', e, mb, stack + g[curr].parents)
            && (Frontier(g, now, mb, stack + [curr]) ==> Frontier(g, now', mb, stack + g[curr].parents))
            && Unstamped(now', mb) < Unstamped(now, mb)
  {
    hide Observes, AllStamped, ParentsPending, Frontier;
    var now' := now[curr := Set<nat>(now[curr], mb, e.seqno, 0)];
    assert curr in stack + [curr];
    ParentsObserved(g, e.id, curr);
    StampInv(g, was, now, e, mb, stack, curr, now');
    StampFrontier(g, now, mb, stack, curr, now');
    assert curr in Unstamped(now, mb) && curr !in Unstamped(now', mb);
  }

  lemma StampInv(
    g: Dag, was: map<EventId, seq<nat>>, now: map<EventId, seq<nat>>, e: Event, mb: nat, stack: seq<EventId>,
    curr: EventId, now': map<EventId, seq<nat>>)
    requires WalkInv(g, was, now, e, mb, stack + [curr]) && curr in now && Get<nat>(now[curr], mb, 0) == 0
    requires now' == now[curr := Set<nat>(now[curr], mb, e.seqno, 0)] && e.seqno > 0
    requires Observes(g, e.id, curr) && forall p :: p in g[curr].parents ==> Observes(g, e.id, p)
    ensures WalkInv(g, was, now', e, mb, stack + g[curr].parents)
  {
    hide Observes, AllStamped, StackSeen, ParentsPending;
    assert now'.Keys == now.Keys;
    StampStack(g, now.Keys, e, stack, curr);
    StampAll(g, was, now, e, mb, curr, now');
    StampParents(now, e, mb, stack, curr, now', g[curr].parents);
  }

  lemma StampStack(g: Dag, known: set<EventId>, e: Event, stack: seq<EventId>, curr: EventId)
    requires e.id in g && StackSeen(g, known, e, stack + [curr]) && curr in g
    requires forall p :: p in g[curr].parents ==> p in known && Observes(g, e.id, p)
    ensures StackSeen(g, known, e, stack + g[curr].parents)
  {
    hide Observes;
    assert forall x :: x in stack ==> x in stack + [curr];
  }

  lemma StampAll(
    g: Dag, was: map<EventId, seq<nat>>, now: map<EventId, seq<nat>>, e: Event, mb: nat, curr: EventId,
    now': map<EventId, seq<nat>>)
    requires e.id in g && now.Keys == was.Keys == now'.Keys && AllStamped(g, was, now, e, mb) && e.seqno > 0
    requires curr in now && Get<nat>(now[curr], mb, 0) == 0 && Observes(g, e.id, curr)
    requires now' == now[curr := Set<nat>(now[curr], mb, e.seqno, 0)]
    ensures AllStamped(g, was, now', e, mb)
  {
    hide Observes;
    forall x | x in now' ensures Stamped(was[x], now'[x], mb, e.seqno, Observes(g, e.id, x)) {
      assert Stamped(was[x], now[x], mb, e.seqno, Observes(g, e.id, x));
      if x == curr {
        NotStampedYet(was[x], now[x], mb, e.seqno, Observes(g, e.id, x));
      }
    }
  }

  lemma NotStampedYet(was: seq<nat>, now: seq<nat>, mb: nat, seqno: nat, observed: bool)
    requires Stamped(was, now, mb, seqno, observed) && Get<nat>(now, mb, 0) == 0 && seqno > 0
    ensures now == was
  {
  }

  lemma StampParents(
    now: map<EventId, seq<nat>>, e: Event, mb: nat, stack: seq<EventId>, curr: EventId, now': map<EventId, seq<nat>>,
    more: seq<EventId>)
    requires ParentsPending(now, e, mb, stack + [curr]) && curr in now && e.seqno > 0
    requires now' == now[curr := Set<nat>(now[curr], mb, e.seqno, 0)]
    ensures ParentsPending(now', e, mb, stack + more)
  {
    forall p | p in e.parents ensures p in now' && (Get<nat>(now'[p], mb, 0) != 0 || p in stack + more) {
      assert p != curr && p in stack + [curr] ==> p in stack;
    }
  }

  lemma StampFrontier(
    g: Dag, now: map<EventId, seq<nat>>, mb: nat, stack: seq<EventId>, curr: EventId, now': map<EventId, seq<nat>>)
    requires curr in now && curr in g && Closed(g, now.Keys)
    requires now'.Keys == now.Keys && (forall x :: x in now && x != curr ==> now'[x] == now[x])
    requires Get<nat>(now'[curr], mb, 0) != 0
    ensures Frontier(g, now, mb, stack + [curr]) ==> Frontier(g, now', mb, stack + g[curr].parents)
  {
    hide Observes;
    if Frontier(g, now, mb, stack + [curr]) {
      forall x, p | x in now' && x in g && p in g[x].parents && Get<nat>(now'[x], mb, 0) != 0
        ensures p in now' && (Get<nat>(now'[p], mb, 0) != 0 || p in stack + g[curr].parents)
      {
        if x == curr {
          assert p in stack + g[curr].parents;
        } else {
          assert p in stack + [curr] && p != curr ==> p in stack;
        }
      }
    }
  }

  /** The outcome of a walk: vectors grow only to reach mb, and (below the cap) exactly e's ancestors are stamped. */
  ghost predicate Walks(g: Dag, was: map<EventId, seq<nat>>, now: map<EventId, seq<nat>>, e: Event, mb: nat)
    requires e.id in g
  {
    && now.Keys == was.Keys
    && (forall x :: x in now ==> |now[x]| <= |was[x]| || |now[x]| == mb + 1)
    && (MarksInherited(g, was, mb) ==>
          forall x :: x in now ==> Visited(was[x], now[x], mb, e.seqno, Observes(g, e.id, x)))
  }

  lemma WalkTop(
    g: Dag, was: map<EventId, seq<nat>>, now: map<EventId, seq<nat>>, e: Event, mb: nat, stack: seq<EventId>,
        curr: EventId)
    requires WalkInv(g, was, now, e, mb, stack + [curr])
    ensures curr in now && curr in g && e.seqno > 0
  {
    hide Observes, AllStamped, ParentsPending;
    assert curr in stack + [curr];
  }

  lemma WalksIs(g: Dag, was: map<EventId, seq<nat>>, now: map<EventId, seq<nat>>, e: Event, mb: nat)
    requires WalkInv(g, was, now, e, mb, [])
    requires MarksInherited(g, was, mb) ==>
               forall x :: x in now ==> x in was && Visited(was[x], now[x], mb, e.seqno, Observes(g, e.id, x))
    ensures Walks(g, was, now, e, mb)
  {
    hide Observes, MarksInherited, Visited, Closed;
  }

  /** When the stack is empty, everything e observes is stamped. */
  lemma WalkDone(g: Dag, was: map<EventId, seq<nat>>, now: map<EventId, seq<nat>>, e: Event, mb: nat)
    requires WalkInv(g, was, now, e, mb, []) && Frontier(g, now, mb, []) && e.id !in was
    ensures forall x :: x in now ==> x in was && Visited(was[x], now[x], mb, e.seqno, Observes(g, e.id, x))
  {
    hide Observes;
    var marked := set x | x in now && Get<nat>(now[x], mb, 0) != 0;
    assert Closed(g, marked);
    forall x | x in now ensures Visited(was[x], now[x], mb, e.seqno, Observes(g, e.id, x)) {
      assert Stamped(was[x], now[x], mb, e.seqno, Observes(g, e.id, x));
      if Observes(g, e.id, x) {
        MarkedCovers(g, marked, e.id, x);
      }
      StampedIsVisited(was[x], now[x], mb, e.seqno, Observes(g, e.id, x));
    }
  }

  lemma StampedIsVisited(was: seq<nat>, now: seq<nat>, mb: nat, seqno: nat, observed: bool)
    requires Stamped(was, now, mb, seqno, observed) && (observed ==> Get<nat>(now, mb, 0) != 0)
    ensures Visited(was, now, mb, seqno, observed)
  {
  }

  lemma InheritedMarks(g: Dag, vv: Group, t: Tables, mb: nat)
    requires Exact(g, vv, t)
    ensures MarksInherited(g, t.after, mb)
  {
    forall x, p | x in t.after && x in g && p in g[x].parents && Get<nat>(t.after[x], mb, 0) != 0
      ensures p in t.after && Get<nat>(t.after[p], mb, 0) != 0
    {
      MarksClosed(g, vv, t, t.bi.creatorIdxs, mb, x, p);
    }
  }

  lemma JoinsClosed(g: Dag, vv: Group, t: Tables, cs: seq<nat>, e: EventId, cs': seq<nat>, mb: nat)
    requires Joins(g, vv, t, cs, e, cs', mb)
    ensures Closed(g, t.after.Keys) && e !in t.after && forall p :: p in g[e].parents ==> p in t.after
  {
  }

  lemma WalkStored(
    g: Dag, vv: Group, t: Tables, cs: seq<nat>, e: Event, mb: nat, walked: map<EventId, seq<nat>>, mine: seq<nat>)
    requires Joins(g, vv, t, t.bi.creatorIdxs, e.id, cs, mb) && |mine| == |cs| && Walks(g, t.after, walked, e, mb)
    ensures walked[e.id := mine].Keys == t.after.Keys + {e.id}
    ensures var now := walked[e.id := mine]; forall x :: x in now ==> |now[x]| <= |cs|
  {
  }

  lemma WalkIsWalked(
    g: Dag, after: map<EventId, seq<nat>>, walked: map<EventId, seq<nat>>, e: Event, mb: nat, mine: seq<nat>)
    requires e.id in g && g[e.id] == e && e.id !in after && Walks(g, after, walked, e, mb)
    requires MarksInherited(g, after, mb)
    requires forall j :: Get<nat>(mine, j, 0) == if j == mb then e.seqno else 0
    ensures Walked(g, after, walked[e.id := mine], e.id, mb)
  {
  }

  /** What filling, marking and walking establish together. */
  lemma FillDone(
    g: Dag, vv: Group, t: Tables, bi0: BranchesInfo, e: Event, mb: nat, vec: seq<BranchSeq>, r: seq<BranchSeq>,
    walked: map<EventId, seq<nat>>, mine: seq<nat>)
    requires vv.Valid() && CreatorsIn(g, vv) && BranchesOk(vv, t.bi) && e.id in g && g[e.id] == e
    requires Joins(g, vv, t, bi0.creatorIdxs, e.id, t.bi.creatorIdxs, mb)
    requires LastSeqGrows(bi0.lastSeq, t.bi.lastSeq, mb, e.seqno)
    requires |vec| == |t.bi.creatorIdxs| && Marked(t.bi, vec, r)
    requires AllBeforeExact(g, vv, bi0.creatorIdxs, t) ==>
               Collected(g, vv, t.bi.creatorIdxs, t.branchOf[e.id := mb], e.id, |e.parents|, vec)
    requires Walks(g, t.after, walked, e, mb)
    requires mine == Set<nat>(Zeros<nat>(|bi0.creatorIdxs|, 0), mb, e.seqno, 0)
    ensures Stored(g, vv, Tables(t.bi, t.branchOf[e.id := mb], t.before[e.id := r], walked[e.id := mine]))
    ensures Exact(g, vv, t.(bi := bi0)) && ExtendsBranch(g, t.branchOf, e.id, mb) ==>
              Exact(g, vv, Tables(t.bi, t.branchOf[e.id := mb], t.before[e.id := r], walked[e.id := mine]))
  {
    hide *;
    var t0, now := t.(bi := bi0), walked[e.id := mine];
    OtherBranches(g, vv, t, bi0, e.id, t.bi.creatorIdxs, mb);
    AddedIs(t0, e.id, t.bi, mb, r, now);
    JoinsWidth(g, vv, t, bi0.creatorIdxs, e.id, t.bi.creatorIdxs, mb);
    MineWidth(mine, |bi0.creatorIdxs|, |t.bi.creatorIdxs|, mb, e.seqno);
    MarkedWidth(t.bi, vec, r);
    WalkStored(g, vv, t0, t.bi.creatorIdxs, e, mb, walked, mine);
    AddStored(g, vv, t0, e.id, t.bi, mb, r, now);
    if Exact(g, vv, t0) && ExtendsBranch(g, t.branchOf, e.id, mb) {
      InheritedMarks(g, vv, t0, mb);
      JoinsClosed(g, vv, t, bi0.creatorIdxs, e.id, t.bi.creatorIdxs, mb);
      WalkIsWalked(g, t0.after, walked, e, mb, mine);
      ExactBefore(g, vv, t0);
      AddKeepsExact(g, vv, t0, e.id, t.bi, mb, vec, r, now);
    }
  }

  lemma CreatorExists(g: Dag, vv: Group, e: Event)
    requires CreatorsIn(g, vv) && e.id in g && g[e.id] == e
    ensures vv.Exists(e.creator)
  {
  }

  lemma ExactBefore(g: Dag, vv: Group, t: Tables)
    requires Exact(g, vv, t)
    ensures AllBeforeExact(g, vv, t.bi.creatorIdxs, t)
  {
    hide Stored, Chains, AllBeforeExact, BeforeWide, AllAfterExact;
  }

  lemma AddedIs(t: Tables, e: EventId, bi: BranchesInfo, mb: nat, r: seq<BranchSeq>, now: map<EventId, seq<nat>>)
    ensures Added(t, e, bi, mb, r, now) == Tables(bi, t.branchOf[e := mb], t.before[e := r], now)
  {
  }

  lemma MineWidth(mine: seq<nat>, width: nat, width': nat, mb: nat, seqno: nat)
    requires mine == Set<nat>(Zeros<nat>(width, 0), mb, seqno, 0) && mb < width'
    requires width <= width' <= width + 1 && (width < width' ==> mb == width)
    ensures |mine| == width'
    ensures forall j :: Get<nat>(mine, j, 0) == if j == mb then seqno else 0
  {
  }

  lemma CollectedWidth(
    g: Dag, vv: Group, cs: seq<nat>, t: map<EventId, nat>, e: EventId, k: nat, vec: seq<BranchSeq>)
    requires e in g && k <= |g[e].parents| && Collected(g, vv, cs, t, e, k, vec)
    ensures |vec| == |cs|
  {
    hide CollectedAt;
  }

  lemma ParentsHaveVectors(g: Dag, vv: Group, t: Tables, cs: seq<nat>, e: EventId, cs': seq<nat>, mb: nat)
    requires Joins(g, vv, t, cs, e, cs', mb)
    ensures e in g && (forall p :: p in g[e].parents ==> p in t.before)
    ensures |cs| <= |cs'| && mb < |cs'|
  {
    hide Owned;
  }

  lemma JoinsWidth(g: Dag, vv: Group, t: Tables, cs: seq<nat>, e: EventId, cs': seq<nat>, mb: nat)
    requires Joins(g, vv, t, cs, e, cs', mb)
    ensures mb < |cs'| && |cs| <= |cs'| <= |cs| + 1 && (|cs| < |cs'| ==> mb == |cs|)
  {
    hide Owned, Shaped;
  }

  lemma MarkedWidth(bi: BranchesInfo, vec: seq<BranchSeq>, r: seq<BranchSeq>)
    requires Marked(bi, vec, r)
    ensures |r| == |vec|
  {
    hide Detected;
  }

  lemma BranchOwners(vv: Group, bi: BranchesInfo)
    requires BranchesOk(vv, bi)
    ensures forall b :: 0 <= b < |bi.creatorIdxs| ==> bi.creatorIdxs[b] < vv.Len()
  {
  }

  /** The vectors do not depend on the branch tables, so they may be looked at with the old ones. */
  lemma OtherBranches(g: Dag, vv: Group, t: Tables, bi0: BranchesInfo, e: EventId, cs': seq<nat>, mb: nat)
    requires Joins(g, vv, t, bi0.creatorIdxs, e, cs', mb)
    ensures Joins(g, vv, t.(bi := bi0), bi0.creatorIdxs, e, cs', mb)
    ensures AllBeforeExact(g, vv, bi0.creatorIdxs, t.(bi := bi0)) ==> AllBeforeExact(g, vv, bi0.creatorIdxs, t)
  {
    hide Owned, OwnersGrow;
    var t0 := t.(bi := bi0);
    forall a, b | a in t.before && a in g && BeforeExact(g, t0, a, b, Owner(vv, bi0.creatorIdxs, b))
      ensures BeforeExact(g, t, a, b, Owner(vv, bi0.creatorIdxs, b)) {}
  }

  /** The branch of e is chosen and its parents are there: the vectors can be filled. */
  lemma ReadyToJoin(g: Dag, vv: Group, t0: Tables, t1: Tables, e: Event, mb: nat, me: nat)
    requires Stored(g, vv, t0) && t1 == t0.(bi := t1.bi) && Grown(vv, t0.bi, t1.bi, mb, me, e.seqno)
    requires e.id in g && g[e.id] == e && e.id !in t0.branchOf && me == vv.GetIdx(e.creator)
    ensures t1.branchOf == t0.branchOf && t1.before.Keys == t0.branchOf.Keys
    ensures BranchesOk(vv, t0.bi) && BranchesOk(vv, t1.bi) && LastSeqGrows(t0.bi.lastSeq, t1.bi.lastSeq, mb, e.seqno)
    ensures (forall p :: p in e.parents ==> p in t1.before) ==>
              Joins(g, vv, t1, t0.bi.creatorIdxs, e.id, t1.bi.creatorIdxs, mb)
  {
    hide BranchesOk, Owned, OwnersGrow, LastSeqGrows;
  }

  lemma AddStored(
    g: Dag, vv: Group, t: Tables, e: EventId, bi: BranchesInfo, mb: nat, r: seq<BranchSeq>, now: map<EventId, seq<nat>>)
    requires BranchesOk(vv, bi) && Joins(g, vv, t, t.bi.creatorIdxs, e, bi.creatorIdxs, mb)
    requires |r| == |bi.creatorIdxs| && now.Keys == t.after.Keys + {e}
    requires forall x :: x in now ==> |now[x]| <= |bi.creatorIdxs|
    ensures Stored(g, vv, Added(t, e, bi, mb, r, now))
  {
    OwnedAdd(g, vv, t, t.bi.creatorIdxs, e, bi.creatorIdxs, mb);
    ShapedAdd(vv, |t.bi.creatorIdxs|, t, e, bi, mb, r, now);
  }

  /** Growing the branch tables alone changes nothing for the events already there. */
  lemma WiderTables(g: Dag, vv: Group, t: Tables, bi: BranchesInfo, mb: nat, me: nat, seqno: nat)
    requires Stored(g, vv, t) && Grown(vv, t.bi, bi, mb, me, seqno)
    ensures Stored(g, vv, t.(bi := bi))
    ensures Exact(g, vv, t) ==> Exact(g, vv, t.(bi := bi))
  {
    hide AllBeforeExact, AllAfterExact, BeforeWide, Chains, Owned, Shaped, BranchesOk, LastSeqGrows;
    var t' := t.(bi := bi);
    WiderOwned(g, vv, t.bi.creatorIdxs, bi.creatorIdxs, t.branchOf);
    WiderShaped(vv, |t.bi.creatorIdxs|, |bi.creatorIdxs|, t, t');
    if Exact(g, vv, t) {
      WiderAllBefore(g, vv, t, t.bi.creatorIdxs, bi.creatorIdxs, t');
      WiderAllAfter(g, vv, t, t.bi.creatorIdxs, |bi.creatorIdxs|, t');
      WiderChains(g, t.branchOf, t.bi.lastSeq, bi.lastSeq, mb, seqno);
      WiderWide(g, t, t');
    }
  }

  lemma WiderOwned(g: Dag, vv: Group, cs: seq<nat>, cs': seq<nat>, t: map<EventId, nat>)
    requires Owned(g, vv, cs, t) && |cs| <= |cs'| && (forall b :: 0 <= b < |cs| ==> cs'[b] == cs[b])
    ensures Owned(g, vv, cs', t)
  {
  }

  lemma WiderShaped(vv: Group, n: nat, n': nat, t: Tables, t': Tables)
    requires Shaped(vv, n, t) && n <= n' && t'.branchOf == t.branchOf && t'.before == t.before && t'.after == t.after
    ensures Shaped(vv, n', t')
  {
  }

  lemma WiderChains(g: Dag, t: map<EventId, nat>, lastSeq: seq<nat>, lastSeq': seq<nat>, mb: nat, seqno: nat)
    requires Chains(g, t, lastSeq) && LastSeqGrows(lastSeq, lastSeq', mb, seqno)
    ensures Chains(g, t, lastSeq')
  {
    hide SelfAncestor;
  }

  lemma WiderWide(g: Dag, t: Tables, t': Tables)
    requires BeforeWide(g, t) && t'.branchOf == t.branchOf && t'.before == t.before
    ensures BeforeWide(g, t')
  {
    hide Observes;
  }

  lemma WiderAllBefore(g: Dag, vv: Group, t: Tables, cs: seq<nat>, cs': seq<nat>, t': Tables)
    requires Owned(g, vv, cs, t.branchOf) && Shaped(vv, |cs|, t) && AllBeforeExact(g, vv, cs, t)
    requires |cs| <= |cs'| && (forall b :: 0 <= b < |cs| ==> cs'[b] == cs[b])
    requires t'.branchOf == t.branchOf && t'.before == t.before
    ensures AllBeforeExact(g, vv, cs', t')
  {
    hide BeforeExact, Owned, Shaped;
    forall a, b | a in t'.before && a in g && 0 <= b < |cs'| ensures BeforeExact(g, t', a, b, Owner(vv, cs', b)) {
      WiderBefore(g, vv, t, cs, cs', t', a, b);
    }
  }

  lemma WiderAllAfter(g: Dag, vv: Group, t: Tables, cs: seq<nat>, width: nat, t': Tables)
    requires Owned(g, vv, cs, t.branchOf) && Shaped(vv, |cs|, t) && AllAfterExact(g, |cs|, t)
    requires t'.branchOf == t.branchOf && t'.after == t.after
    ensures AllAfterExact(g, width, t')
  {
    hide FirstObserver, Owned, Shaped;
    forall x, b | x in t'.after && 0 <= b < width
        ensures FirstObserver(g, t'.branchOf, x, b, Get<nat>(t'.after[x], b, 0)) {
      OldAfterAt(g, vv, t, cs, x, b);
    }
  }

  lemma WiderBefore(g: Dag, vv: Group, t: Tables, cs: seq<nat>, cs': seq<nat>, t': Tables, a: EventId, b: nat)
    requires Owned(g, vv, cs, t.branchOf) && Shaped(vv, |cs|, t) && AllBeforeExact(g, vv, cs, t)
    requires |cs| <= |cs'| && (forall b :: 0 <= b < |cs| ==> cs'[b] == cs[b])
    requires t'.branchOf == t.branchOf && t'.before == t.before && a in t.before && a in g && b < |cs'|
    ensures BeforeExact(g, t', a, b, Owner(vv, cs', b))
  {
    if b < |cs| {
      assert BeforeExact(g, t, a, b, Owner(vv, cs, b));
    } else {
      assert Get(t.before[a], b, EMPTY) == EMPTY;
      assert forall x :: !OnBranch(t.branchOf, x, b);
      assert RangeOf(g, t.branchOf, Past(g, t.branchOf, a), b, EMPTY);
    }
  }
}
