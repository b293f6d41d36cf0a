/**
 The orderer: frames, roots and the chain of elections (abft/event_processing.go, abft/frame_decide.go,
 abft/bootstrap.go).
 */
module Orderers {
  import opened Validators
  import opened Basics
  import opened Dags
  import opened Causality
  import opened Weights
  import opened VecState
  import opened VecEngine
  import opened VecIndex
  import opened Frames
  import opened Growth
  import opened FrameCalc
  import opened FrameCheck
  import opened ElectionSpec
  import opened ElectionProof
  import opened RootStore
  import opened Elections
  import opened Consensus
  import opened ConsensusGrowth
  import opened Confirmations

  datatype ProcessResult = Ok | ParentNotFound | WrongFrame

  /** 1 to n: decided frames are consecutive. */
  ghost function FrameNumbers(n: nat): seq<nat> {
    seq(n, i => i + 1)
  }

  lemma FrameNumbersNext(n: nat)
    ensures FrameNumbers(n + 1) == FrameNumbers(n) + [n + 1]
  {
  }

  lemma FrameNumbersPrefix(n: nat, m: nat)
    requires n <= m
    ensures FrameNumbers(n) <= FrameNumbers(m)
  {
  }

  /** The epoch is sealed exactly by the block the application says so of, and no block follows it. */
  ghost predicate SealedRight(seals: (nat, EventId) -> bool, blocks: seq<EventId>, isSealed: bool) {
    && (forall i {:trigger blocks[i]} :: 0 <= i < |blocks| - 1 ==> !seals(i + 1, blocks[i]))
    && (isSealed <==> blocks != [] && seals(|blocks|, blocks[|blocks| - 1]))
  }

  lemma SealedNext(seals: (nat, EventId) -> bool, blocks: seq<EventId>, x: EventId)
    requires SealedRight(seals, blocks, false)
    ensures SealedRight(seals, blocks + [x], seals(|blocks| + 1, x))
  {
  }

  /** Nobody applies a block past the one that seals the epoch. */
  lemma SealedEnds(seals: (nat, EventId) -> bool, blocks1: seq<EventId>, blocks2: seq<EventId>, isSealed2: bool)
    requires SealedRight(seals, blocks1, true) && SealedRight(seals, blocks2, isSealed2) && blocks1 <= blocks2
    ensures blocks2 == blocks1 && isSealed2
  {
    assert blocks2[|blocks1| - 1] == blocks1[|blocks1| - 1];
  }

  /** Every record above the frame to decide, up to frame f (exclusive), has voted. */
  ghost predicate VotedBelow(n: Node, f: nat) {
    forall r :: r in n.table && n.last + 1 < r.slot.frame < f ==> r in n.processed
  }

  /** Every record above the frame to decide has voted, except those of event e from frame f on. */
  ghost predicate VotedBut(n: Node, e: EventId, f: nat) {
    forall r :: r in n.table && r.slot.frame > n.last + 1 ==> r in n.processed || (r.id == e && r.slot.frame >= f)
  }

  ghost predicate VotedAt(n: Node, list: seq<Root>) {
    forall r :: r in list && r.slot.frame > n.last + 1 ==> r in n.processed
  }

  lemma NoneVoted(n: Node, f: nat)
    requires f == n.last + 1
    ensures VotedBelow(n, f) && VotedAt(n, [])
  {
  }

  lemma VotedPrevious(n: Node, f: nat)
    requires VotedBelow(n, f)
    ensures forall q :: q in n.table && q.slot.frame + 1 == f && q.slot.frame > n.last + 1 ==> q in n.processed
  {
  }

  lemma VotedMore(n: Node, m: Node, f: nat, roots: seq<Root>, i: nat)
    requires i < |roots| && VotedBelow(n, f) && VotedAt(n, roots[..i]) && m.table == n.table && m.last == n.last
    requires m.processed == n.processed + if roots[i].slot.frame > n.last + 1 then {roots[i]} else {}
    ensures VotedBelow(m, f) && VotedAt(m, roots[..i + 1])
  {
    assert roots[..i + 1] == roots[..i] + [roots[i]];
  }

  lemma VotedFrame(n: Node, f: nat, roots: seq<Root>)
    requires VotedBelow(n, f) && VotedAt(n, roots) && ListsFrame(n.table, f, roots)
    ensures VotedBelow(n, f + 1)
  {
    hide NoDup;
  }

  lemma VotedButNext(n: Node, m: Node, e: EventId, r: Root)
    requires VotedBut(n, e, r.slot.frame) && m.table == n.table && m.last == n.last && r in n.table && r.id == e
    requires forall q :: q in n.table && q.id == r.id && q.slot.frame == r.slot.frame ==> q == r
    requires m.processed == n.processed + if r.slot.frame > n.last + 1 then {r} else {}
    ensures VotedBut(m, e, r.slot.frame + 1)
  {
  }

  lemma OpenAtFirst(st: State)
    requires st.decidedRoots == map[] && st.vv.Valid() && st.vv.Len() > 0
    ensures ChooseAtropos(st) == Undecided
  {
  }

  lemma NoneWaiting(g: Dag, vv: Group, n: Node, f: nat)
    requires Honest(g, vv) && Going(g, vv, n) && VotedBelow(n, f) && f > n.last
    requires forall r :: r in n.table ==> r.slot.frame != f
    ensures n.processed == Above(n.table, n.last + 1)
  {
    hide Held, TableOf, BlocksRight, Inv, Honest;
    HonestParts(g, vv);
    forall r | r in n.table ensures r.slot.frame < f {
      if r.slot.frame >= f {
        NoneAbove(g, vv, n.held, n.table, f, r);
        assert false;
      }
    }
  }

  lemma NoneWaitingBut(g: Dag, vv: Group, n: Node, e: Event)
    requires Going(g, vv, n) && e.id in g && g[e.id] == e && VotedBut(n, e.id, e.frame + 1)
    ensures n.processed == Above(n.table, n.last + 1)
  {
    hide Held, BlocksRight, Inv;
  }

  class Orderer {
    const index: Index
    const store: Store
    const confirmation: Confirmation
    const seals: (nat, EventId) -> bool     // the application's answer to a decided frame: seal the epoch or not
    var election: Election
    var lastDecidedFrame: nat
    var blocks: seq<EventId>                // the Atropoi applied so far
    var isSealed: bool
    ghost var held: set<EventId>            // events accepted so far
    ghost var processed: set<Root>          // roots the current election has seen

    constructor (vv: Group, input: Dag, seals: (nat, EventId) -> bool, causeCache: nat, rootsNum: nat, rootsFrames: nat)
      requires Honest(input, vv)
      ensures Valid() && index.engine.vv == vv && index.engine.input == input && this.seals == seals
      ensures fresh(index) && fresh(index.engine) && fresh(index.cache) && fresh(store) && fresh(store.frameRoots)
      ensures fresh(election)
      ensures fresh(confirmation) && held == {} && blocks == [] && lastDecidedFrame == 0 && !isSealed
    {
      hide Settled, Going, Held, TableOf, Inv, index.Valid, store.Valid, CreatorsIn, FewCheaters;
      var ix := new Index(vv, input, causeCache);
      var roots := new Store(rootsNum, rootsFrames);
      index, store, this.seals := ix, roots, seals;
      confirmation := new Confirmation(input);
      election := new Election(ix, roots, FIRST_FRAME);
      lastDecidedFrame, blocks, isSealed, held, processed := 0, [], false, {}, {};
      new;
      GoingStart(input, vv);
      SettledIs(input, vv, Now());
    }

    ghost function Now(): Node
      reads this, store, election
    {
      Node(held, store.table, lastDecidedFrame, election.st, processed, blocks)
    }

    /** Holds at every step, also while an event is being processed. */
    ghost predicate Core()
      reads this, index, index.engine, index.cache, store, store.frameRoots, election, confirmation
    {
      && election.index == index && election.store == store && election.Valid()
      && Honest(index.engine.input, index.engine.vv)
      && held <= index.engine.t.branchOf.Keys
      && Going(index.engine.input, index.engine.vv, Now())
      && confirmation.input == index.engine.input && confirmation.Valid()
      && confirmation.atropoi == blocks && confirmation.frames == FrameNumbers(|blocks|)
      && SealedRight(seals, blocks, isSealed)
    }

    /** Holds between events. */
    ghost predicate Valid()
      reads this, index, index.engine, index.cache, store, store.frameRoots, election, confirmation
    {
      && Core() && held == index.engine.t.branchOf.Keys && index.engine.t == index.engine.flushed
      && (isSealed || Settled(index.engine.input, index.engine.vv, Now()))
    }

    lemma CoreParts()
      requires Core()
      ensures election.index == index && election.store == store && election.Valid()
      ensures Honest(index.engine.input, index.engine.vv) && held <= index.engine.t.branchOf.Keys
      ensures Going(index.engine.input, index.engine.vv, Now())
      ensures Now() == Node(held, store.table, lastDecidedFrame, election.st, processed, blocks)
      ensures election.st.vv.Valid() && election.st.vv.Len() > 0 && election.st.vv == index.engine.vv
      ensures election.st.frameToDecide == lastDecidedFrame + 1
      ensures forall r :: r in store.table ==>
                r.id in index.engine.input && r.id in index.engine.t.branchOf && r.id in held
      ensures confirmation.input == index.engine.input && confirmation.Valid()
      ensures confirmation.atropoi == blocks && confirmation.frames == FrameNumbers(|blocks|)
      ensures SealedRight(seals, blocks, isSealed)
    {
      hide Honest, Going, Settled, index.Valid, store.Valid, confirmation.Valid, FrameNumbers, SealedRight;
      election.FromValid();
      GoingParts(index.engine.input, index.engine.vv, Now());
      forall r | r in store.table ensures r.id in held {
        TableId(index.engine.input, held, store.table, r);
      }
    }

    lemma ToCore()
      requires election.index == index && election.store == store && election.Valid()
      requires Honest(index.engine.input, index.engine.vv) && held <= index.engine.t.branchOf.Keys
      requires Going(index.engine.input, index.engine.vv, Now())
      requires confirmation.input == index.engine.input && confirmation.Valid()
      requires confirmation.atropoi == blocks && confirmation.frames == FrameNumbers(|blocks|)
      requires SealedRight(seals, blocks, isSealed)
      ensures Core()
    {
      hide Honest, Going, Settled, election.Valid, confirmation.Valid, FrameNumbers, SealedRight;
    }

    /** One stored root takes part in the election; the error of ProcessRoot never occurs. */
    method Vote(r: Root) returns (outcome: Outcome)
      requires Core() && ChooseAtropos(election.st) == Undecided && r in store.table
      requires forall q ::
                 (q in store.table && q.slot.frame + 1 == r.slot.frame && q.slot.frame > lastDecidedFrame + 1) ==>
                   q in processed
      modifies this`processed, election, index.cache, store.frameRoots
      ensures Core() && outcome == ChooseAtropos(election.st) && !outcome.Failed?
      ensures processed == old(processed) + if r.slot.frame > lastDecidedFrame + 1 then {r} else {}
      ensures outcome.Decided? ==> outcome.res.frame == lastDecidedFrame + 1
    {
      hide *;
      CoreParts();
      ghost var n := Now();
      ghost var observed;
      VotesIs(election.st, r);
      outcome, observed := election.ProcessRoot(r);
      if r.slot.frame > lastDecidedFrame + 1 {
        processed := processed + {r};
        GoingVote(index.engine.input, index.engine.vv, n, r, observed, n.(st := election.st, processed := processed),
            outcome);
      } else {
        ProcessedIs(n.st, r, observed);
      }
      NowIs();
      ToCore();
    }

    lemma NowIs()
      ensures Now() == Node(held, store.table, lastDecidedFrame, election.st, processed, blocks)
    {
    }

    /**
     onFrameDecided: applies the Atropos, moves to the next frame and empties the election. The application says
     whether this block seals the epoch.
     */
    method OnFrameDecided(frame: nat, atropos: EventId) returns (sealing: bool)
      requires Core() && ChooseAtropos(election.st) == Decided(Res(frame, atropos)) && frame == lastDecidedFrame + 1
      requires !isSealed
      modifies this`lastDecidedFrame, this`blocks, this`processed, this`isSealed, election, confirmation
      ensures Core() && ChooseAtropos(election.st) == Undecided && processed == {}
      ensures lastDecidedFrame == frame && blocks == old(blocks) + [atropos]
      ensures isSealed == sealing && (sealing <==> seals(frame, atropos))
      ensures exists r :: r in store.table && r.slot.frame > lastDecidedFrame + 1
    {
      hide *;
      CoreParts();
      ghost var n := Now();
      GoingDecide(index.engine.input, index.engine.vv, n);
      GoingParts(index.engine.input, index.engine.vv, n);
      var _ := confirmation.ConfirmEvents(frame, atropos);
      sealing := seals(frame, atropos);
      FrameNumbersNext(|blocks|);
      SealedNext(seals, blocks, atropos);
      blocks := blocks + [atropos];
      lastDecidedFrame := frame;
      isSealed := sealing;
      processed := {};
      election.Reset(frame + 1);
      OpenAtFirst(election.st);
      NowIs();
      ToCore();
    }

    /** processKnownRoots: replays the stored roots, frame by frame, until a decision or the first empty frame. */
    method ProcessKnownRoots() returns (outcome: Outcome)
      requires Core() && ChooseAtropos(election.st) == Undecided
      modifies this`processed, election, index.cache, store.frameRoots
      ensures Core() && outcome == ChooseAtropos(election.st) && !outcome.Failed?
      ensures outcome.Decided? ==> outcome.res.frame == lastDecidedFrame + 1
      ensures outcome == Undecided ==> Settled(index.engine.input, index.engine.vv, Now())
    {
      hide *;
      CoreParts();
      ghost var bound := FrameBound(store.table);
      var f := lastDecidedFrame + 1;
      NoneVoted(Now(), f);
      while true
        invariant Core() && ChooseAtropos(election.st) == Undecided
        invariant f > lastDecidedFrame && (f == lastDecidedFrame + 1 || f <= bound + 1)
        invariant VotedBelow(Now(), f)
        decreases bound + 1 - f
      {
        var roots := GetRoots(f);
        CoreParts();
        NoneVoted(Now(), lastDecidedFrame + 1);
        RootsInFrame(store.table, f, roots);
        for i := 0 to |roots|
          invariant Core() && ChooseAtropos(election.st) == Undecided
          invariant VotedBelow(Now(), f) && VotedAt(Now(), roots[..i])
        {
          CoreParts();
          ghost var n := Now();
          VotedPrevious(n, f);
          outcome := Vote(roots[i]);
          if outcome != Undecided {
            return;
          }
          CoreParts();
          VotedMore(n, Now(), f, roots, i);
        }
        CoreParts();
        if |roots| == 0 {
          NoneWaiting(index.engine.input, index.engine.vv, Now(), f);
          SettledIs(index.engine.input, index.engine.vv, Now());
          break;
        }
        assert roots[..|roots|] == roots;
        VotedFrame(Now(), f, roots);
        assert roots[0].slot.frame <= bound;
        f := f + 1;
      }
      outcome := Undecided;
    }

    method GetRoots(f: nat) returns (roots: seq<Root>)
      requires Core()
      modifies store.frameRoots
      ensures Core() && ListsFrame(store.table, f, roots)
    {
      hide Honest, Going, index.Valid, SubjectsOf, ListsFrame, confirmation.Valid, FrameNumbers, SealedRight;
      roots := store.GetFrameRoots(f);
    }

    /**
     Build: the frame of a draft, computed on an index that holds the draft and is dropped afterwards; None if a
     parent is missing. It is the frame the draft reaches over the held events. Whatever the node or the graph learn
     in between, the finished event passes the frame check.
     */
    method Build(draft: Event, cacheSize: nat) returns (frame: Option<nat>)
      requires Valid() && draft.id !in held && index.engine.vv.Exists(draft.creator)
      requires (forall p :: p in draft.parents ==> p in held) ==>
                 && Linked(Part(index.engine.input, held), draft)
                 && (Placeable(index.engine.vv, index.engine.t, draft) ==>
                       !AtCap(index.engine.vv, index.engine.t, draft))
      modifies store.frameRoots
      ensures Valid() && (frame.Some? <==> forall p :: p in draft.parents ==> p in held)
      ensures frame.Some? ==>
                && IsDag(Part(index.engine.input, held))
                && BuiltFrame(Part(index.engine.input, held), index.engine.vv, draft, frame.value)
                && draft.id in With(Part(index.engine.input, held), draft)
                && IsDag(With(Part(index.engine.input, held), draft))
                && ReachesFrame(With(Part(index.engine.input, held), draft), index.engine.vv, draft, frame.value)
    {
      hide *;
      ValidParts();
      CoreParts();
      ghost var g := index.engine.input;
      var vv := index.engine.vv;
      GoingParts(g, vv, Now());
      HonestParts(g, vv);
      MembersIs(g, vv);
      election.ReadyIs();
      index.ValidIs();
      index.engine.FromValid();
      var known := ParentsKnown(draft);
      if !known {
        return None;
      }
      ScratchReady(g, vv, held, store.table, index.engine.t, draft);
      var source := With(Part(index.engine.input, index.engine.t.branchOf.Keys), draft);
      WithIs(Part(g, held), draft);
      MembersIs(source, vv);
      var scratch := new Index.Over(vv, source, index.engine.t, cacheSize);
      scratch.ValidIs();
      var _ := scratch.engine.Add(draft);
      scratch.ValidIs();
      CheckingIs(scratch, store, held, draft.id);
      var spf, computed := CalcFrameIdx(scratch, store, draft, false, held);
      CheckingIs(scratch, store, held, draft.id);
      PartKeys(g, vv, held);
      BuiltIs(Part(g, held), vv, held, draft, spf, computed);
      StopsWhereReached(With(Part(g, held), draft), vv, held, draft, computed);
      election.ReadyIs();
      election.ToValid();
      NowIs();
      ToCore();
      ToValid();
      frame := Some(computed);
    }

    method ParentsKnown(e: Event) returns (r: bool)
      requires held == index.engine.t.branchOf.Keys
      ensures r <==> forall p :: p in e.parents ==> p in held
    {
      for i := 0 to |e.parents|
        invariant forall j :: 0 <= j < i ==> e.parents[j] in held
      {
        if e.parents[i] !in index.engine.t.branchOf {
          assert e.parents[i] in e.parents;
          return false;
        }
      }
      return true;
    }

    /**
     Process: the event enters the index; a missing parent or a wrong frame drops it without a trace,
     otherwise its roots are stored and vote.
     */
    method Process(e: Event) returns (r: ProcessResult)
      requires Valid() && !isSealed && e.id in index.engine.input && index.engine.input[e.id] == e && e.id !in held
      requires Placeable(index.engine.vv, index.engine.t, e) && !AtCap(index.engine.vv, index.engine.t, e)
      modifies this`lastDecidedFrame, this`blocks, this`processed, this`isSealed, this`held
      modifies election, confirmation, index.engine, index.cache, store`table, store.frameRoots
      ensures Valid() && r == ResultOf(index.engine.input, index.engine.vv, old(held), e.id)
      ensures held == old(held) + if r == Ok then {e.id} else {}
      ensures old(blocks) <= blocks
      ensures r != Ok ==> blocks == old(blocks) && !isSealed && index.engine.t == old(index.engine.t)
                          && store.table == old(store.table) && election.st == old(election.st)
    {
      hide *;
      ValidParts();
      CoreParts();
      ghost var g, vv := index.engine.input, index.engine.vv;
      ResultIs(g, vv, held, e);
      var ok := AddToIndex(e);
      if !ok {
        DropFromIndex();
        ToValid();
        return ParentNotFound;
      }
      ArrivingIs(g, held, e.id);
      var selfParentFrame, frame := CheckFrame(e);
      CoreParts();
      GoingParts(g, vv, Now());
      SelfParentAccepted(g, vv, held, e);
      CheckIsFrameOk(g, vv, e.id, frame);
      if e.frame != frame {
        DropFromIndex();
        ToValid();
        return WrongFrame;
      }
      Accept(e, selfParentFrame);
      HandleElection(selfParentFrame, e);
      FlushIndex();
      ToValid();
      return Ok;
    }

    /** calcFrameIdx in check mode. */
    method CheckFrame(e: Event) returns (selfParentFrame: nat, frame: nat)
      requires Core() && e.id in index.engine.input && index.engine.input[e.id] == e
      requires Arriving(index.engine.input, held, e.id) && e.id in index.engine.t.branchOf
      modifies index.cache, store.frameRoots
      ensures Core() && selfParentFrame == SelfParentFrame(index.engine.input, e)
      ensures StopsAt(index.engine.input, index.engine.vv, e.id, selfParentFrame, e.frame, frame)
    {
      hide *;
      CoreParts();
      GoingParts(index.engine.input, index.engine.vv, Now());
      HonestParts(index.engine.input, index.engine.vv);
      MembersIs(index.engine.input, index.engine.vv);
      election.ReadyIs();
      CheckingIs(index, store, held, e.id);
      selfParentFrame, frame := CalcFrameIdx(index, store, e, true, held);
      CheckingIs(index, store, held, e.id);
      election.ReadyIs();
      election.ToValid();
      NowIs();
      ToCore();
    }

    /** The root records of an accepted event. */
    method Accept(e: Event, selfParentFrame: nat)
      requires Core() && Settled(index.engine.input, index.engine.vv, Now())
      requires e.id in index.engine.input && index.engine.input[e.id] == e && Arriving(index.engine.input, held, e.id)
      requires selfParentFrame == SelfParentFrame(index.engine.input, e)
      requires FrameOk(index.engine.input, index.engine.vv, e.id)
      requires e.id in index.engine.t.branchOf
      modifies this`held, store`table, store.frameRoots
      ensures Core() && held == old(held) + {e.id} && VotedBut(Now(), e.id, selfParentFrame + 1)
      ensures ChooseAtropos(election.st) == Undecided
    {
      hide *;
      CoreParts();
      ghost var n := Now();
      ArrivingIs(index.engine.input, held, e.id);
      SettledIs(index.engine.input, index.engine.vv, n);
      GoingAdd(index.engine.input, index.engine.vv, n, e);
      NoNewRoots(e, selfParentFrame);
      if selfParentFrame != e.frame {
        AddRecords(e, selfParentFrame);
      }
      assert store.table == n.table + RootsOf(e, selfParentFrame, e.frame);
      held := held + {e.id};
      NowIs();
      AddedVoted(n, Now(), e, selfParentFrame);
      ToCore();
    }

    method AddRecords(e: Event, selfParentFrame: nat)
      requires election.index == index && election.store == store && election.Valid()
      requires RootsOf(e, selfParentFrame, e.frame) !! store.table && e.id in index.engine.t.branchOf
      modifies store`table, store.frameRoots
      ensures election.Valid() && store.table == old(store.table) + RootsOf(e, selfParentFrame, e.frame)
    {
      hide index.Valid, SubjectsOf, HoldsFrame, NoDup;
      store.AddRoot(selfParentFrame, e);
    }

    method AddToIndex(e: Event) returns (ok: bool)
      requires Core() && e.id in index.engine.input && index.engine.input[e.id] == e && e.id !in index.engine.t.branchOf
      requires Placeable(index.engine.vv, index.engine.t, e) && !AtCap(index.engine.vv, index.engine.t, e)
      modifies index.engine`t
      ensures Core() && (ok <==> forall p :: p in e.parents ==> p in old(index.engine.t.branchOf))
      ensures index.engine.t.branchOf.Keys == old(index.engine.t.branchOf.Keys) + if ok then {e.id} else {}
    {
      hide Honest, Going, store.Valid, SubjectsOf, confirmation.Valid, FrameNumbers, SealedRight, ForklessCause, Exact,
           Stored, CreatorsIn, AtCap;
      ok := index.engine.Add(e);
    }

    method DropFromIndex()
      requires Core() && held <= index.engine.flushed.branchOf.Keys
      modifies index.engine`t
      ensures Core() && index.engine.t == index.engine.flushed
    {
      hide Honest, Going, store.Valid, SubjectsOf, confirmation.Valid, FrameNumbers, SealedRight, ForklessCause, Exact,
           Stored, CreatorsIn;
      CoreParts();
      index.engine.DropNotFlushed();
    }

    method FlushIndex()
      requires Core()
      modifies index.engine`flushed
      ensures Core() && index.engine.t == index.engine.flushed
    {
      hide Honest, Going, store.Valid, SubjectsOf, confirmation.Valid, FrameNumbers, SealedRight, ForklessCause, Exact,
           Stored, CreatorsIn;
      index.engine.Flush();
    }

    /** bootstrapElection: decides frames from the stored roots until one stays open or the epoch is sealed. */
    method BootstrapElection() returns (sealing: bool)
      requires Core() && ChooseAtropos(election.st) == Undecided && !isSealed
      modifies this`lastDecidedFrame, this`blocks, this`processed, this`isSealed, election, confirmation, index.cache
      modifies store.frameRoots
      ensures Core() && isSealed == sealing && old(blocks) <= blocks && lastDecidedFrame >= old(lastDecidedFrame)
      ensures ChooseAtropos(election.st) == Undecided
      ensures !sealing ==> Settled(index.engine.input, index.engine.vv, Now())
      ensures Stuck(ViewOf(index.engine.input, index.engine.vv), store.table, old(lastDecidedFrame) + 1) ==>
                !sealing && blocks == old(blocks) && lastDecidedFrame == old(lastDecidedFrame)
    {
      hide *;
      ghost var bound := FrameBound(store.table);
      ghost var view := ViewOf(index.engine.input, index.engine.vv);
      ghost var stuck := Stuck(view, store.table, lastDecidedFrame + 1);
      while true
        invariant Core() && ChooseAtropos(election.st) == Undecided && !isSealed
        invariant old(blocks) <= blocks && lastDecidedFrame >= old(lastDecidedFrame)
        invariant lastDecidedFrame == old(lastDecidedFrame) || lastDecidedFrame <= bound
        invariant stuck ==> blocks == old(blocks) && lastDecidedFrame == old(lastDecidedFrame)
        decreases bound - lastDecidedFrame
      {
        var outcome := ProcessKnownRoots();
        CoreParts();
        GoingParts(index.engine.input, index.engine.vv, Now());
        if stuck {
          StuckMeansUndecided(view, store.table, election.st, processed);
        }
        if outcome == Undecided {
          break;
        }
        sealing := OnFrameDecided(outcome.res.frame, outcome.res.atropos);
        if sealing {
          return;
        }
      }
      sealing := false;
    }

    /** Bootstrap: a node restarted from its stores replays them into an empty election and is where it was. */
    method Bootstrap()
      requires Valid() && !isSealed
      modifies this`election, this`lastDecidedFrame, this`blocks, this`processed, this`isSealed, confirmation
      modifies index.cache, store.frameRoots
      ensures Valid() && !isSealed && fresh(election) && held == old(held)
      ensures blocks == old(blocks) && lastDecidedFrame == old(lastDecidedFrame)
      ensures election.st.decidedRoots == old(election.st.decidedRoots)
    {
      hide *;
      ValidParts();
      CoreParts();
      ghost var n := Now();
      SettledIsStuck(index.engine.input, index.engine.vv, n);
      GoingRestart(index.engine.input, index.engine.vv, n);
      election.FromValid();
      election := new Election(index, store, lastDecidedFrame + 1);
      processed := {};
      OpenAtFirst(election.st);
      NowIs();
      ToCore();
      var _ := BootstrapElection();
      CoreParts();
      ReplaySame(index.engine.input, index.engine.vv, n, Now());
      ToValid();
    }

    lemma ValidParts()
      requires Valid()
      ensures Core() && held == index.engine.t.branchOf.Keys && index.engine.t == index.engine.flushed
      ensures isSealed || Settled(index.engine.input, index.engine.vv, Now())
    {
      hide Core, Settled;
    }

    lemma ToValid()
      requires Core() && held == index.engine.t.branchOf.Keys && index.engine.t == index.engine.flushed
      requires isSealed || Settled(index.engine.input, index.engine.vv, Now())
      ensures Valid()
    {
      hide Core, Settled;
    }

    /**
     handleElection: the new root votes at each frame it reaches; a decision restarts the election on the stored
     roots.
     */
    method HandleElection(selfParentFrame: nat, e: Event)
      requires Core() && ChooseAtropos(election.st) == Undecided && !isSealed
      requires e.id in held && e.id in index.engine.input && index.engine.input[e.id] == e
      requires selfParentFrame == SelfParentFrame(index.engine.input, e) && VotedBut(Now(), e.id, selfParentFrame + 1)
      modifies this`lastDecidedFrame, this`blocks, this`processed, this`isSealed, election, confirmation, index.cache
      modifies store.frameRoots
      ensures Core() && old(blocks) <= blocks
      ensures isSealed || Settled(index.engine.input, index.engine.vv, Now())
    {
      hide *;
      var f := selfParentFrame + 1;
      while f <= e.frame
        invariant Core() && ChooseAtropos(election.st) == Undecided && !isSealed && old(blocks) <= blocks
        invariant selfParentFrame < f && (f == selfParentFrame + 1 || f <= e.frame + 1) && VotedBut(Now(), e.id, f)
        decreases e.frame + 1 - f
      {
        var root := Root(e.id, Slot(f, e.creator));
        CoreParts();
        ghost var n := Now();
        OwnRecord(index.engine.input, index.engine.vv, n, e, f);
        VotedButPrevious(n, e.id, f);
        var outcome := Vote(root);
        CoreParts();
        VotedButNext(n, Now(), e.id, root);
        if outcome.Decided? {
          var sealing := OnFrameDecided(outcome.res.frame, outcome.res.atropos);
          if sealing {
            return;
          }
          sealing := BootstrapElection();
          if sealing {
            return;
          }
          SettledVoted(index.engine.input, index.engine.vv, Now(), e.id, f + 1);
        }
        f := f + 1;
      }
      CoreParts();
      OwnFrames(index.engine.input, index.engine.vv, Now(), e, f);
      NoneWaitingBut(index.engine.input, index.engine.vv, Now(), e);
      SettledIs(index.engine.input, index.engine.vv, Now());
    }
  }

  /**
   Agreement: two orderers whose event sources are parts of one graph with few cheaters, whatever they were fed and in
   whatever parents-first order, have applied prefixes of one sequence of Atropoi and of one sequence of events, each
   event on the same frame. One that holds all the other's events is not behind it, and with the same application
   nobody goes past the block that seals the epoch.
   */
  lemma OrderersAgree(o1: Orderer, o2: Orderer, world: Dag)
    requires o1.Valid() && o2.Valid() && o1.index.engine.vv == o2.index.engine.vv
    requires Extends(o1.index.engine.input, world) && Extends(o2.index.engine.input, world)
    requires Honest(world, o1.index.engine.vv)
    ensures o1.blocks <= o2.blocks || o2.blocks <= o1.blocks
    ensures o1.held <= o2.held && !o2.isSealed ==> o1.blocks <= o2.blocks
    ensures o1.blocks <= o2.blocks ==> o1.confirmation.applied <= o2.confirmation.applied
    ensures o1.blocks <= o2.blocks ==>
              forall x :: x in o1.confirmation.confirmedOn ==>
                x in o2.confirmation.confirmedOn && o2.confirmation.confirmedOn[x] == o1.confirmation.confirmedOn[x]
    ensures o1.held == o2.held ==> o1.store.table == o2.store.table
    ensures o1.seals == o2.seals && o1.isSealed ==> o2.blocks <= o1.blocks
    ensures o1.seals == o2.seals && o1.isSealed && o2.isSealed ==> o1.blocks == o2.blocks
    ensures o1.seals == o2.seals && o1.held <= o2.held ==> o1.blocks <= o2.blocks
  {
    hide *;
    ghost var vv := o1.index.engine.vv;
    InWorld(o1, world);
    InWorld(o2, world);
    NodesAgree(world, vv, o1.Now(), o2.Now());
    if o1.held <= o2.held && !o2.isSealed {
      MoreEventsMoreBlocks(world, vv, o1.Now(), o2.Now());
    }
    if o1.seals == o2.seals {
      SealedSame(o1, o2);
    }
    if o1.blocks <= o2.blocks {
      FrameNumbersPrefix(|o1.blocks|, |o2.blocks|);
      MarksLast(world, o1.blocks, o1.confirmation.frames, o1.confirmation.confirmedOn,
                o2.blocks, o2.confirmation.frames, o2.confirmation.confirmedOn);
      MarkedIn(world, o2.blocks, o2.confirmation.frames, o2.confirmation.confirmedOn);
      AppliedPrefix(world, o1.blocks, o2.blocks);
    }
    GoingParts(world, vv, o1.Now());
    GoingParts(world, vv, o2.Now());
    if o1.held == o2.held {
      MoreRecords(world, o1.held, o1.store.table, o2.held, o2.store.table);
      MoreRecords(world, o2.held, o2.store.table, o1.held, o1.store.table);
    }
  }

  lemma SealedSame(o1: Orderer, o2: Orderer)
    requires o1.Valid() && o2.Valid() && o1.seals == o2.seals && (o1.blocks <= o2.blocks || o2.blocks <= o1.blocks)
    ensures o1.isSealed ==> o2.blocks <= o1.blocks
    ensures o2.isSealed ==> o1.blocks <= o2.blocks
    ensures o1.blocks == o2.blocks ==> o1.isSealed == o2.isSealed
  {
    hide *;
    o1.ValidParts();
    o1.CoreParts();
    o2.ValidParts();
    o2.CoreParts();
    if o1.isSealed && o1.blocks <= o2.blocks {
      SealedEnds(o1.seals, o1.blocks, o2.blocks, o2.isSealed);
    }
    if o2.isSealed && o2.blocks <= o1.blocks {
      SealedEnds(o2.seals, o2.blocks, o1.blocks, o1.isSealed);
    }
  }

  /**
   An orderer is neither early nor late: the roots it has stored settle the Atropos of every frame it has decided,
   and, unless the epoch is sealed, none for the next frame.
   */
  lemma DecidesAllItCan(o: Orderer, d: nat)
    requires o.Valid() && 1 <= d <= |o.blocks| + 1
    ensures var view, roots := ViewOf(o.index.engine.input, o.index.engine.vv), Above(o.store.table, d);
            && (d <= |o.blocks| ==> Elected(view, roots, d, o.blocks[d - 1]))
            && (d == |o.blocks| + 1 && !o.isSealed ==> forall x :: !Elected(view, roots, d, x))
  {
    hide *;
    o.ValidParts();
    o.CoreParts();
    GoingParts(o.index.engine.input, o.index.engine.vv, o.Now());
    DecidesExactly(o.index.engine.input, o.index.engine.vv, o.Now(), d);
  }

  /**
   Two orderers that hold the same events, of one application or not sealed yet, have stored the same roots and
   applied the same events.
   */
  lemma SameEventsSameState(o1: Orderer, o2: Orderer, world: Dag)
    requires o1.Valid() && o2.Valid() && o1.index.engine.vv == o2.index.engine.vv
    requires Extends(o1.index.engine.input, world) && Extends(o2.index.engine.input, world)
    requires Honest(world, o1.index.engine.vv) && o1.held == o2.held
    requires o1.seals == o2.seals || (!o1.isSealed && !o2.isSealed)
    ensures o1.blocks == o2.blocks && o1.store.table == o2.store.table && o1.lastDecidedFrame == o2.lastDecidedFrame
    ensures o1.confirmation.applied == o2.confirmation.applied
    ensures o1.confirmation.confirmedOn == o2.confirmation.confirmedOn
    ensures o1.isSealed == o2.isSealed
    ensures !o1.isSealed ==> o1.election.st.decidedRoots == o2.election.st.decidedRoots
  {
    hide *;
    OrderersAgree(o1, o2, world);
    OrderersAgree(o2, o1, world);
    assert o1.confirmation.confirmedOn.Keys == o2.confirmation.confirmedOn.Keys;
    ghost var vv := o1.index.engine.vv;
    InWorld(o1, world);
    InWorld(o2, world);
    GoingParts(world, vv, o1.Now());
    GoingParts(world, vv, o2.Now());
    if o1.seals == o2.seals {
      SealedSame(o1, o2);
    }
    if !o1.isSealed {
      ReplaySame(world, vv, o1.Now(), o2.Now());
    }
  }

  /** An orderer's state, read in the graph around its event source. */
  lemma InWorld(o: Orderer, world: Dag)
    requires o.Valid() && Extends(o.index.engine.input, world) && Honest(world, o.index.engine.vv)
    ensures Going(world, o.index.engine.vv, o.Now()) && (!o.isSealed ==> Settled(world, o.index.engine.vv, o.Now()))
    ensures o.Now() == Node(o.held, o.store.table, o.lastDecidedFrame, o.election.st, o.processed, o.blocks)
    ensures MarksRight(world, o.blocks, o.confirmation.frames, o.confirmation.confirmedOn)
    ensures o.confirmation.frames == FrameNumbers(|o.blocks|)
    ensures (forall i :: 0 <= i < |o.blocks| ==> o.blocks[i] in world)
            && o.confirmation.applied == AppliedBy(world, o.blocks)
  {
    hide *;
    ghost var g, vv := o.index.engine.input, o.index.engine.vv;
    o.ValidParts();
    o.CoreParts();
    GoingGrows(g, world, vv, o.Now());
    o.confirmation.ValidParts();
    MarksGrowWith(g, world, o.blocks, o.confirmation.frames, o.confirmation.confirmedOn);
    MarkedIn(world, o.blocks, o.confirmation.frames, o.confirmation.confirmedOn);
    AppliedStable(g, world, o.blocks);
  }

  lemma MarkedIn(g: Dag, atropoi: seq<EventId>, frames: seq<nat>, m: map<EventId, nat>)
    requires MarksRight(g, atropoi, frames, m)
    ensures forall i :: 0 <= i < |atropoi| ==> atropoi[i] in g
  {
    hide Covered, ConfirmedWith;
  }

  /** A node that has accepted what AcceptRun accepts of an order, offered one more event, does what AcceptRun does. */
  lemma ProcessFollowsRun(g: Dag, vv: Group, order: seq<EventId>, e: EventId)
    requires vv.Valid() && (forall i :: 0 <= i < |order| ==> order[i] in g) && e in g
    requires Closed(g, AcceptRun(g, vv, order))
    ensures AcceptRun(g, vv, order + [e]) ==
            AcceptRun(g, vv, order) + if ResultOf(g, vv, AcceptRun(g, vv, order), e) == Ok then {e} else {}
  {
    hide AcceptRun, FrameOk, FrameOkKnowing;
    var known := AcceptRun(g, vv, order);
    assert (order + [e])[..|order + [e]| - 1] == order;
    AcceptRunStep(g, vv, order + [e], e, order);
    if forall p :: p in g[e].parents ==> p in known {
      FrameOkAgrees(g, vv, known, e);
    }
  }

  /**
   Offered the same events in different parents-first orders, nodes accept the same events and store the same roots.
   */
  lemma OrdersStoreSame(
    g: Dag, vv: Group, order1: seq<EventId>, order2: seq<EventId>, table1: set<Root>, table2: set<Root>)
    requires vv.Valid() && ParentsFirst(g, order1) && ParentsFirst(g, order2)
    requires forall e :: e in order1 <==> e in order2
    requires TableOf(g, AcceptRun(g, vv, order1), table1) && TableOf(g, AcceptRun(g, vv, order2), table2)
    ensures table1 == table2
  {
    hide TableOf, AcceptRun;
    OrdersAcceptSame(g, vv, order1, order2);
    MoreRecords(g, AcceptRun(g, vv, order1), table1, AcceptRun(g, vv, order2), table2);
    MoreRecords(g, AcceptRun(g, vv, order2), table2, AcceptRun(g, vv, order1), table1);
  }

  /** An event with the frame that Build computed is accepted as soon as its parents are held. */
  lemma BuiltIsAccepted(g: Dag, vv: Group, c: Dag, draft: Event, e: Event, frame: nat, held: set<EventId>)
    requires Extends(c, g) && BuiltFrame(c, vv, draft, frame) && Twins(c, draft, e) && e.frame == frame
    requires e.id in g && g[e.id] == e && forall p :: p in e.parents ==> p in held
    ensures ResultOf(g, vv, held, e.id) == Ok
  {
    hide FrameOk, Twins;
    assert Extends(With(c, e), g);
  }

  lemma WithIs(c: Dag, e: Event)
    ensures With(c, e) == c[e.id := e]
    ensures e.HasSelfParent() ==> e.SelfParent() in e.parents
  {
  }

  lemma PartKeys(g: Dag, vv: Group, held: set<EventId>)
    requires Held(g, vv, held)
    ensures Part(g, held).Keys == held
  {
    hide Accepted;
  }

  /** What Process makes of an event: parents first, then the frame check. */
  ghost function ResultOf(g: Dag, vv: Group, held: set<EventId>, e: EventId): ProcessResult
    requires e in g
  {
    if exists p :: p in g[e].parents && p !in held then ParentNotFound
    else if !FrameOk(g, vv, e) then WrongFrame
    else Ok
  }

  lemma ResultIs(g: Dag, vv: Group, held: set<EventId>, e: Event)
    requires e.id in g && g[e.id] == e
    ensures ResultOf(g, vv, held, e.id) ==
            if !(forall p :: p in e.parents ==> p in held) then ParentNotFound
            else if !FrameOk(g, vv, e.id) then WrongFrame else Ok
  {
    hide FrameOk;
  }

  lemma NoNewRoots(e: Event, spf: nat)
    ensures spf == e.frame ==> RootsOf(e, spf, e.frame) == {}
  {
  }

  lemma AddedVoted(n: Node, m: Node, e: Event, spf: nat)
    requires m.last == n.last && m.processed == n.processed
    requires forall r :: r in Above(m.table, n.last + 1) ==> r in n.processed || r in RootsOf(e, spf, e.frame)
    ensures VotedBut(m, e.id, spf + 1)
  {
  }

  lemma GoingRestart(g: Dag, vv: Group, n: Node)
    requires Going(g, vv, n)
    ensures Going(g, vv, n.(st := State(vv, n.last + 1, map[], map[]), processed := {}))
  {
    hide Held, TableOf, BlocksRight, Inv, ViewOf;
    ViewGroup(g, vv);
    FreshInv(ViewOf(g, vv), n.last + 1);
  }

  lemma OwnRecord(g: Dag, vv: Group, n: Node, e: Event, f: nat)
    requires Going(g, vv, n) && e.id in n.held && e.id in g && g[e.id] == e && SelfParentFrame(g, e) < f <= e.frame
    ensures Root(e.id, Slot(f, e.creator)) in n.table
    ensures forall q :: q in n.table && q.id == e.id && q.slot.frame == f ==> q == Root(e.id, Slot(f, e.creator))
  {
    hide Held, BlocksRight, Inv;
  }

  lemma OwnFrames(g: Dag, vv: Group, n: Node, e: Event, f: nat)
    requires Going(g, vv, n) && e.id in g && g[e.id] == e && VotedBut(n, e.id, f) && f > SelfParentFrame(g, e)
    requires f > e.frame
    ensures VotedBut(n, e.id, e.frame + 1)
  {
    hide Held, BlocksRight, Inv;
  }

  lemma VotedButPrevious(n: Node, e: EventId, f: nat)
    requires VotedBut(n, e, f)
    ensures forall q :: q in n.table && q.slot.frame + 1 == f && q.slot.frame > n.last + 1 ==> q in n.processed
  {
  }

  lemma SettledVoted(g: Dag, vv: Group, n: Node, e: EventId, f: nat)
    requires Settled(g, vv, n)
    ensures VotedBut(n, e, f)
  {
    hide Going;
  }
}
