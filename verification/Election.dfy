/** The election object (abft/election): its loops compute the state machine of ElectionSpec. */
module Elections {
  import opened Validators
  import opened Dags
  import opened Basics
  import opened Causality
  import opened Weights
  import opened VecState
  import opened VecIndex
  import opened ElectionSpec
  import opened RootStore
  import Lru

  /** The stored roots of frame f that forkless-cause `id`, once each. */
  ghost predicate ListsObserved(g: Dag, vv: Group, table: set<Root>, id: EventId, f: nat, observed: seq<Root>)
    requires id in g && forall r :: r in table ==> r.id in g
  {
    && (forall r :: r in observed <==> r in table && r.slot.frame == f && ForklessCause(g, vv, id, r.id))
    && NoDup(observed)
  }

  /** m answers, per validator, with the last listed root of its slot. */
  ghost predicate LastPerSlot(observed: seq<Root>, m: map<ValidatorId, Root>) {
    forall v :: LastOf(observed, v) == if v in m then Some(m[v]) else None
  }

  lemma NoneYet()
    ensures LastPerSlot([], map[])
  {
  }

  lemma LastPerSlotNext(observed: seq<Root>, m: map<ValidatorId, Root>, r: Root)
    requires LastPerSlot(observed, m)
    ensures LastPerSlot(observed + [r], m[r.slot.validator := r])
  {
    assert (observed + [r])[..|observed + [r]| - 1] == observed;
  }

  /** The decided ones among the first n validators. */
  ghost function DecidedBelow(st: State, n: nat): set<ValidatorId>
    requires n <= |st.vv.sorted|
  {
    set i | 0 <= i < n && st.vv.sorted[i].id in st.decidedRoots :: st.vv.sorted[i].id
  }

  lemma DecidedBelowStep(st: State, n: nat)
    requires st.vv.Valid() && n < |st.vv.sorted|
    ensures st.vv.sorted[n].id !in DecidedBelow(st, n)
    ensures DecidedBelow(st, n + 1) ==
            DecidedBelow(st, n) + if st.vv.sorted[n].id in st.decidedRoots then {st.vv.sorted[n].id} else {}
  {
    hide Ascending, SumUpTo;
    var v := st.vv.sorted[n].id;
    assert forall i :: 0 <= i < |st.vv.sorted| ==> st.vv.indexes[st.vv.sorted[i].id] == i;
    assert v in st.decidedRoots ==> v in DecidedBelow(st, n + 1);
  }

  lemma DecidedBelowNone(st: State)
    ensures DecidedBelow(st, 0) == {}
  {
  }

  lemma DecidedBelowAll(st: State)
    requires st.vv.Valid() && forall s :: s in st.decidedRoots ==> st.vv.Exists(s)
    ensures DecidedBelow(st, |st.vv.sorted|) == st.decidedRoots.Keys
  {
    hide Ascending, SumUpTo;
    forall s | s in st.decidedRoots ensures s in DecidedBelow(st, |st.vv.sorted|) {
      var i := st.vv.indexes[s];
      assert st.vv.sorted[i].id == s;
    }
  }

  /** Among the first n validators each is decided or not decided, and none both. */
  lemma {:induction false} NoMismatch(st: State, n: nat)
    requires st.vv.Valid() && n <= |st.vv.sorted|
    ensures |NotDecided(st, n)| + |DecidedBelow(st, n)| == n
  {
    hide DecidedBelow, Ascending, SumUpTo;
    if n == 0 {
      DecidedBelowNone(st);
    } else {
      NoMismatch(st, n - 1);
      DecidedBelowStep(st, n - 1);
    }
  }

  /** The election runs among these validators. */
  ghost predicate SubjectsOf(vv: Group, st: State) {
    st.vv == vv && vv.Len() > 0 && forall s :: s in st.decidedRoots ==> vv.Exists(s)
  }

  class Election {
    const index: Index
    const store: Store
    var st: State

    /** The index and the root store the election reads. */
    ghost predicate Ready()
      reads index, index.engine, index.cache, store, store.frameRoots
    {
      && index.Valid() && store.Valid() && (index.cache as object) != (store.frameRoots as object)
      && (forall r :: r in store.table ==> r.id in index.engine.t.branchOf)
    }

    ghost predicate Valid()
      reads this, index, index.engine, index.cache, store, store.frameRoots
    {
      Ready() && SubjectsOf(index.engine.vv, st)
    }

    constructor (index: Index, store: Store, frameToDecide: nat)
      requires index.Valid() && store.Valid() && (index.cache as object) != (store.frameRoots as object)
      requires index.engine.vv.Len() > 0 && forall r :: r in store.table ==> r.id in index.engine.t.branchOf
      ensures Valid() && this.index == index && this.store == store
      ensures st == State(index.engine.vv, frameToDecide, map[], map[])
    {
      hide index.Valid, store.Valid;
      this.index, this.store := index, store;
      st := State(index.engine.vv, frameToDecide, map[], map[]);
    }

    /** chooseAtropos: the first validator in weight order that is not decided no. */
    method ChooseAtroposOf() returns (r: Outcome)
      ensures r == ChooseAtropos(st) && OutcomeOf(st, r)
    {
      hide OutcomeOf;
      ChooseIs(st);
      for i := 0 to |st.vv.sorted|
        invariant ChooseAtropos(st) == ChooseFrom(st, i)
      {
        var v := st.vv.sorted[i].id;
        if v !in st.decidedRoots {
          return Undecided;
        }
        if st.decidedRoots[v].yes {
          return Decided(Res(st.frameToDecide, st.decidedRoots[v].observedRoot));
        }
      }
      return Failed(AllNo);
    }

    /** Reset: an empty election for another frame. */
    method Reset(frameToDecide: nat)
      requires Valid()
      modifies this
      ensures Valid() && st == State(old(st.vv), frameToDecide, map[], map[])
    {
      hide Ready;
      st := State(st.vv, frameToDecide, map[], map[]);
    }

    method NotDecidedRoots() returns (r: seq<ValidatorId>)
      requires Valid()
      ensures r == NotDecided(st, |st.vv.sorted|) && |r| + |st.decidedRoots| == st.vv.Len()
      ensures forall s :: s in r ==> index.engine.vv.Exists(s)
    {
      hide ForklessCause, Exact, Stored, ListsFrame, CreatorsIn, Ascending, SumUpTo, DecidedBelow;
      r := [];
      for i := 0 to st.vv.Len()
        invariant r == NotDecided(st, i) && forall s :: s in r ==> index.engine.vv.Exists(s)
      {
        if st.vv.sorted[i].id !in st.decidedRoots {
          r := r + [st.vv.sorted[i].id];
        }
      }
      NoMismatch(st, st.vv.Len());
      DecidedBelowAll(st);
    }

    lemma StoredInInput()
      requires Valid()
      ensures forall x :: x in index.engine.t.branchOf ==> x in index.engine.input
      ensures forall r :: r in store.table ==> r.id in index.engine.input
    {
      hide ForklessCause, Exact, Stored, ListsFrame;
      if x :| x in index.engine.t.branchOf {
        ExactShape(index.engine.input, index.engine.vv, index.engine.t, x);
      }
    }

    /** observedRoots: the roots of the frame that forkless-cause the given one. */
    method ObservedRoots(id: EventId, frame: nat) returns (observed: seq<Root>)
      requires Valid() && id in index.engine.t.branchOf
      modifies index.cache, store.frameRoots
      ensures Valid() && id in index.engine.input && (forall r :: r in store.table ==> r.id in index.engine.input)
      ensures ListsObserved(index.engine.input, index.engine.vv, store.table, id, frame, observed)
    {
      hide ForklessCause, Exact, Stored, CreatorsIn, Lru.WeightSum;
      var roots := store.GetFrameRoots(frame);
      observed := [];
      StoredInInput();
      for i := 0 to |roots|
        invariant Valid() && NoDup(observed)
        invariant forall r :: r in observed <==>
                    r in roots[..i] && ForklessCause(index.engine.input, index.engine.vv, id, r.id)
      {
        var sees := index.ForklessCauseOf(id, roots[i].id);
        if sees {
          observed := observed + [roots[i]];
        }
      }
    }

    /** observedRootsMap: the same roots by slot. */
    method ObservedRootsMap(id: EventId, frame: nat) returns (m: map<ValidatorId, Root>, ghost observed: seq<Root>)
      requires Valid() && id in index.engine.t.branchOf
      modifies index.cache, store.frameRoots
      ensures Valid() && id in index.engine.input && (forall r :: r in store.table ==> r.id in index.engine.input)
      ensures ListsObserved(index.engine.input, index.engine.vv, store.table, id, frame, observed)
      ensures LastPerSlot(observed, m)
    {
      hide ForklessCause, Exact, Stored, CreatorsIn, Lru.WeightSum, LastPerSlot;
      var roots := store.GetFrameRoots(frame);
      m, observed := map[], [];
      StoredInInput();
      NoneYet();
      for i := 0 to |roots|
        invariant Valid() && LastPerSlot(observed, m) && NoDup(observed)
        invariant forall r :: r in observed <==>
                    r in roots[..i] && ForklessCause(index.engine.input, index.engine.vv, id, r.id)
      {
        var sees := index.ForklessCauseOf(id, roots[i].id);
        if sees {
          LastPerSlotNext(observed, m, roots[i]);
          m := m[roots[i].slot.validator := roots[i]];
          observed := observed + [roots[i]];
        }
      }
    }

    lemma ReadyIs()
      ensures Ready() <==>
              && index.Valid() && store.Valid() && (index.cache as object) != (store.frameRoots as object)
              && (forall r :: r in store.table ==> r.id in index.engine.t.branchOf)
      ensures Valid() <==> Ready() && SubjectsOf(index.engine.vv, st)
    {
      hide index.Valid, store.Valid, SubjectsOf;
    }

    lemma ToValid()
      requires Ready() && SubjectsOf(index.engine.vv, st)
      ensures Valid()
    {
      hide Ready, SubjectsOf;
    }

    lemma FromValid()
      requires Valid()
      ensures Ready() && SubjectsOf(index.engine.vv, st) && st.vv == index.engine.vv
      ensures st.vv.Valid() && st.vv.Len() > 0 && index.Valid() && store.Valid()
      ensures forall x :: x in index.engine.t.branchOf ==> x in index.engine.input
      ensures forall r :: r in store.table ==> r.id in index.engine.input
    {
      hide ForklessCause, Exact, Stored, ListsFrame, CreatorsIn;
      StoredInInput();
    }

    /** ProcessRoot: the new root votes on every subject not decided yet; decisions are final. */
    method ProcessRoot(newRoot: Root) returns (outcome: Outcome, ghost observed: seq<Root>)
      requires Valid() && newRoot.id in index.engine.t.branchOf
      modifies this, index.cache, store.frameRoots
      ensures Valid() && newRoot.id in index.engine.input
      ensures (forall r :: r in store.table ==> r.id in index.engine.input)
      ensures Votes(old(st), newRoot) ==>
                ListsObserved(index.engine.input, index.engine.vv, store.table, newRoot.id, newRoot.slot.frame - 1,
                    observed)
      ensures old(st).vv.Valid() && old(st).vv.Len() > 0 && (st, outcome) == Processed(old(st), newRoot, observed)
    {
      hide *;
      FromValid();
      observed := [];
      ProcessedIs(st, newRoot, observed);
      outcome := ChooseAtroposOf();
      VotesIs(st, newRoot);
      if outcome != Undecided {
        return;
      }
      if newRoot.slot.frame <= st.frameToDecide {
        return;
      }
      var subjects := NotDecidedRoots();
      var m: map<ValidatorId, Root> := map[];
      var list: seq<Root> := [];
      if newRoot.slot.frame - st.frameToDecide == 1 {
        m, observed := ObservedRootsMap(newRoot.id, newRoot.slot.frame - 1);
      } else {
        list := ObservedRoots(newRoot.id, newRoot.slot.frame - 1);
        observed := list;
      }
      FromValid();
      ProcessedIs(st, newRoot, observed);
      VoteStart(st, newRoot, observed, subjects);
      for i := 0 to |subjects|
        invariant Valid() && SubjectsOf(index.engine.vv, st) && Ready() && st.vv.Valid() && st.vv.Len() > 0
        invariant st.frameToDecide == old(st).frameToDecide && st.vv == old(st).vv == index.engine.vv
        invariant VoteUpTo(old(st), newRoot, observed, subjects, i) == Progress(st, None)
      {
        VoteAdds(old(st), newRoot, observed, subjects, i);
        BallotIs(st, newRoot, observed, subjects[i], m);
        var vote: Vote;
        if newRoot.slot.frame - st.frameToDecide == 1 {
          vote := if subjects[i] in m then Vote(false, true, m[subjects[i]].id) else Vote(false, false, NO_ROOT);
        } else {
          var b := CountVotes(list, subjects[i]);
          if b.Spoiled? {
            outcome := Failed(b.error);
            return;
          }
          vote := b.vote;
        }
        RecordIs(st, newRoot, subjects[i], vote);
        RecordSubjects(index.engine.vv, st, newRoot, subjects, i, vote);
        if vote.decided {
          st := st.(decidedRoots := st.decidedRoots[subjects[i] := vote]);
        }
        st := st.(votes := st.votes[VoteId(newRoot, subjects[i]) := vote]);
        ToValid();
      }
      outcome := ChooseAtroposOf();
    }

    /** A vote in a later round: counts the observed votes on one subject. */
    method CountVotes(observed: seq<Root>, subject: ValidatorId) returns (b: Ballot)
      requires st.vv.Valid() && st.vv.Len() > 0
      ensures b == MajorityVote(st, observed, subject)
    {
      hide *;
      TallyStart(st, observed, subject);
      var yesVotes := new WeightCounter(st.vv);
      var noVotes := new WeightCounter(st.vv);
      var allVotes := new WeightCounter(st.vv);
      var seen: Option<EventId> := None;
      CounterSum(yesVotes);
      CounterSum(noVotes);
      CounterSum(allVotes);
      for i := 0 to |observed|
        invariant fresh(yesVotes) && fresh(noVotes) && fresh(allVotes)
        invariant yesVotes != noVotes && yesVotes != allVotes && noVotes != allVotes
        invariant yesVotes.Valid() && noVotes.Valid() && allVotes.Valid()
        invariant yesVotes.group == st.vv && noVotes.group == st.vv && allVotes.group == st.vv
        invariant |yesVotes.already| == st.vv.Len() && |noVotes.already| == st.vv.Len()
        invariant |allVotes.already| == st.vv.Len()
        invariant TallyUpTo(st, observed, subject, i) ==
                  Tally(yesVotes.Counted(), noVotes.Counted(), allVotes.Counted(), seen)
      {
        var r := observed[i];
        TallyAdds(st, observed, subject, i);
        if VoteId(r, subject) !in st.votes {
          return Spoiled(MissingVote);
        }
        var vote := st.votes[VoteId(r, subject)];
        if vote.yes && seen.Some? && seen.value != vote.observedRoot {
          return Spoiled(TwoForkRoots);
        }
        if vote.yes {
          seen := Some(vote.observedRoot);
          var _ := yesVotes.Count(r.slot.validator);
        } else {
          var _ := noVotes.Count(r.slot.validator);
        }
        var counted := allVotes.Count(r.slot.validator);
        if !counted {
          return Spoiled(DoubleVote);
        }
        CounterSum(yesVotes);
        CounterSum(noVotes);
        CounterSum(allVotes);
      }
      MajorityIs(st, observed, subject);
      CounterSum(yesVotes);
      CounterSum(noVotes);
      if !allVotes.HasQuorum() {
        return Spoiled(NoQuorum);
      }
      var yes := yesVotes.sum >= noVotes.sum;
      return Ballot(Vote(yesVotes.HasQuorum() || noVotes.HasQuorum(), yes,
                         if yes && seen.Some? then seen.value else NO_ROOT));
    }
  }

  /** Whether the root takes part in the vote at all. */
  predicate Votes(st: State, newRoot: Root) {
    ChooseAtropos(st) == Undecided && newRoot.slot.frame > st.frameToDecide
  }

  lemma ProcessedIs(st: State, newRoot: Root, observed: seq<Root>)
    requires st.vv.Valid() && st.vv.Len() > 0
    ensures !Votes(st, newRoot) ==> Processed(st, newRoot, observed) == (st, ChooseAtropos(st))
    ensures Votes(st, newRoot) ==>
              var subjects := NotDecided(st, |st.vv.sorted|);
              var p := VoteUpTo(st, newRoot, observed, subjects, |subjects|);
              Processed(st, newRoot, observed) ==
              (p.st, if p.error.Some? then Failed(p.error.value) else ChooseAtropos(p.st))
  {
    hide VoteUpTo, NotDecided;
  }

  /** One more subject: an error stops the voting where it is, a vote is recorded. */
  lemma VoteAdds(st: State, newRoot: Root, observed: seq<Root>, subjects: seq<ValidatorId>, i: nat)
    requires i < |subjects| && st.vv.Valid() && st.vv.Len() > 0
    requires VoteUpTo(st, newRoot, observed, subjects, i).error.None?
    ensures var p := VoteUpTo(st, newRoot, observed, subjects, i);
            match BallotOf(p.st, newRoot, observed, subjects[i])
            case Spoiled(error) => VoteUpTo(st, newRoot, observed, subjects, |subjects|) == Progress(p.st, Some(error))
            case Ballot(vote) =>
              VoteUpTo(st, newRoot, observed, subjects, i + 1) ==
                  Progress(Record(p.st, newRoot, subjects[i], vote), None)
  {
    hide BallotOf, Record;
    VoteSoFar(st, newRoot, observed, subjects, i + 1);
  }

  lemma {:induction false} VoteSoFar(st: State, newRoot: Root, observed: seq<Root>, subjects: seq<ValidatorId>, n: nat)
    requires n <= |subjects| && st.vv.Valid() && st.vv.Len() > 0
    ensures VoteUpTo(st, newRoot, observed, subjects, n).error.Some? ==>
              VoteUpTo(st, newRoot, observed, subjects, |subjects|) == VoteUpTo(st, newRoot, observed, subjects, n)
    decreases |subjects| - n
  {
    hide BallotOf, Record;
    if n < |subjects| {
      VoteSoFar(st, newRoot, observed, subjects, n + 1);
    }
  }

  lemma VoteStart(st: State, newRoot: Root, observed: seq<Root>, subjects: seq<ValidatorId>)
    requires st.vv.Valid() && st.vv.Len() > 0
    ensures VoteUpTo(st, newRoot, observed, subjects, 0) == Progress(st, None)
  {
  }

  lemma BallotIs(st: State, newRoot: Root, observed: seq<Root>, subject: ValidatorId, m: map<ValidatorId, Root>)
    requires st.vv.Valid() && st.vv.Len() > 0
    ensures newRoot.slot.frame == st.frameToDecide + 1 && LastPerSlot(observed, m) ==>
              BallotOf(st, newRoot, observed, subject) ==
              Ballot(if subject in m then Vote(false, true, m[subject].id) else Vote(false, false, NO_ROOT))
    ensures newRoot.slot.frame != st.frameToDecide + 1 ==>
              BallotOf(st, newRoot, observed, subject) == MajorityVote(st, observed, subject)
  {
    hide MajorityVote, LastOf;
  }

  lemma RecordSubjects(vv: Group, st: State, newRoot: Root, subjects: seq<ValidatorId>, i: nat, vote: Vote)
    requires SubjectsOf(vv, st) && i < |subjects| && forall s :: s in subjects ==> vv.Exists(s)
    ensures SubjectsOf(vv, Record(st, newRoot, subjects[i], vote))
  {
  }

  lemma VotesIs(st: State, newRoot: Root)
    ensures Votes(st, newRoot) <==> ChooseAtropos(st) == Undecided && newRoot.slot.frame > st.frameToDecide
  {
    hide ChooseAtropos;
  }

  lemma RecordIs(st: State, newRoot: Root, subject: ValidatorId, vote: Vote)
    ensures Record(st, newRoot, subject, vote) ==
            st.(votes := st.votes[VoteId(newRoot, subject) := vote],
                decidedRoots := if vote.decided then st.decidedRoots[subject := vote] else st.decidedRoots)
  {
  }

  lemma CounterSum(c: WeightCounter)
    requires c.Valid()
    ensures |c.already| == c.group.Len() && c.sum == c.group.WeightOf(c.Counted())
  {
  }

  lemma TallyStart(st: State, observed: seq<Root>, subject: ValidatorId)
    requires st.vv.Valid() && st.vv.Len() > 0
    ensures TallyUpTo(st, observed, subject, 0) == Tally({}, {}, {}, None)
  {
  }

  lemma MajorityIs(st: State, observed: seq<Root>, subject: ValidatorId)
    requires st.vv.Valid() && st.vv.Len() > 0 && TallyUpTo(st, observed, subject, |observed|).Tally?
    ensures var t := TallyUpTo(st, observed, subject, |observed|);
            var yes := st.vv.WeightOf(t.yes) >= st.vv.WeightOf(t.no);
            MajorityVote(st, observed, subject) ==
            if !st.vv.HasQuorum(t.all) then Spoiled(NoQuorum)
            else Ballot(Vote(st.vv.HasQuorum(t.yes) || st.vv.HasQuorum(t.no), yes,
                             if yes && t.subject.Some? then t.subject.value else NO_ROOT))
  {
    hide TallyUpTo;
  }

  /** One more observed root: an error spoils the ballot, otherwise one validator joins the tally. */
  lemma TallyAdds(st: State, observed: seq<Root>, subject: ValidatorId, i: nat)
    requires i < |observed| && st.vv.Valid() && st.vv.Len() > 0 && TallyUpTo(st, observed, subject, i).Tally?
    ensures var t, k, c := TallyUpTo(st, observed, subject, i), VoteId(observed[i], subject),
                           st.vv.GetID(st.vv.GetIdx(observed[i].slot.validator));
            if k !in st.votes then MajorityVote(st, observed, subject) == Spoiled(MissingVote)
            else if st.votes[k].yes && t.subject.Some? && t.subject.value != st.votes[k].observedRoot then
              MajorityVote(st, observed, subject) == Spoiled(TwoForkRoots)
            else if c in t.all then MajorityVote(st, observed, subject) == Spoiled(DoubleVote)
            else TallyUpTo(st, observed, subject, i + 1) ==
                 if st.votes[k].yes then Tally(t.yes + {c}, t.no, t.all + {c}, Some(st.votes[k].observedRoot))
                 else Tally(t.yes, t.no + {c}, t.all + {c}, t.subject)
  {
    CountsAs(st.vv, observed[i]);
    TallySoFar(st, observed, subject, i + 1);
  }

  lemma CountsAs(vv: Group, r: Root)
    requires vv.Valid() && vv.Len() > 0
    ensures CountedAs(vv, r) == vv.GetID(vv.GetIdx(r.slot.validator))
  {
  }

  /** An error in the tally stays. */
  lemma {:induction false} TallySoFar(st: State, observed: seq<Root>, subject: ValidatorId, n: nat)
    requires n <= |observed| && st.vv.Valid() && st.vv.Len() > 0
    ensures TallyUpTo(st, observed, subject, n).TallyError? ==>
              TallyUpTo(st, observed, subject, |observed|) == TallyUpTo(st, observed, subject, n)
    decreases |observed| - n
  {
    hide TallyNext;
    if n < |observed| {
      TallySoFar(st, observed, subject, n + 1);
    }
  }
}
