/** The election as a state machine over roots: what ProcessRoot computes, including its errors (abft/election). */
module ElectionSpec {
  import opened Validators
  import opened Dags
  import opened Basics

  datatype Slot = Slot(frame: nat, validator: ValidatorId)
  datatype Root = Root(id: EventId, slot: Slot)
  datatype VoteId = VoteId(fromRoot: Root, forValidator: ValidatorId)
  datatype Vote = Vote(decided: bool, yes: bool, observedRoot: EventId)
  datatype Res = Res(frame: nat, atropos: EventId)

  datatype ElectionError =
    | TwoForkRoots        // yes votes for two different roots of the subject
    | DoubleVote          // two observed roots of one validator
    | MissingVote         // an observed root has not voted
    | NoQuorum            // too few observed roots
    | AllNo               // every subject decided as no

  datatype Outcome = Undecided | Decided(res: Res) | Failed(error: ElectionError)

  /** The zero hash. */
  const NO_ROOT: EventId := 0

  datatype State = State(
    vv: Group, frameToDecide: nat, decidedRoots: map<ValidatorId, Vote>, votes: map<VoteId, Vote>)

  // ---------------------------------------------------------------- the decision rule

  /** chooseAtropos from the i-th validator on: the first yes, provided all before it are decided. */
  function ChooseFrom(st: State, i: nat): Outcome
    requires i <= |st.vv.sorted|
    decreases |st.vv.sorted| - i
  {
    if i == |st.vv.sorted| then Failed(AllNo)
    else
      var v := st.vv.sorted[i].id;
      if v !in st.decidedRoots then Undecided
      else if st.decidedRoots[v].yes then Decided(Res(st.frameToDecide, st.decidedRoots[v].observedRoot))
      else ChooseFrom(st, i + 1)
  }

  function ChooseAtropos(st: State): Outcome {
    ChooseFrom(st, 0)
  }

  /** The first i validators are all decided no. */
  ghost predicate NoBefore(st: State, i: nat)
    requires i <= |st.vv.sorted|
  {
    forall j :: 0 <= j < i ==> st.vv.sorted[j].id in st.decidedRoots && !st.decidedRoots[st.vv.sorted[j].id].yes
  }

  /** The i-th validator is the first not decided no; it is decided yes, for root x. */
  ghost predicate FirstYes(st: State, i: nat, x: EventId) {
    && i < |st.vv.sorted| && NoBefore(st, i) && st.vv.sorted[i].id in st.decidedRoots
    && st.decidedRoots[st.vv.sorted[i].id].yes && st.decidedRoots[st.vv.sorted[i].id].observedRoot == x
  }

  /** The i-th validator is the first not decided no; it is not decided. */
  ghost predicate FirstOpen(st: State, i: nat) {
    i < |st.vv.sorted| && NoBefore(st, i) && st.vv.sorted[i].id !in st.decidedRoots
  }

  /** What an outcome says of the state, whatever the validators after the first one that is not decided no. */
  ghost predicate OutcomeOf(st: State, r: Outcome) {
    && (forall x :: r == Decided(Res(st.frameToDecide, x)) <==> exists i :: FirstYes(st, i, x))
    && (r == Undecided <==> exists i :: FirstOpen(st, i))
    && (r == Failed(AllNo) <==> NoBefore(st, |st.vv.sorted|))
    && (r.Decided? ==> r.res.frame == st.frameToDecide)
  }

  lemma {:induction false} ChooseFromIs(st: State, i: nat)
    requires i <= |st.vv.sorted| && NoBefore(st, i)
    ensures OutcomeOf(st, ChooseFrom(st, i))
    decreases |st.vv.sorted| - i
  {
    if i < |st.vv.sorted| {
      var v := st.vv.sorted[i].id;
      if v !in st.decidedRoots {
        assert FirstOpen(st, i);
      } else if st.decidedRoots[v].yes {
        assert FirstYes(st, i, st.decidedRoots[v].observedRoot);
      } else {
        ChooseFromIs(st, i + 1);
      }
    }
  }

  /** chooseAtropos looks no further than the first validator that is not decided no. */
  lemma ChooseIs(st: State)
    ensures OutcomeOf(st, ChooseAtropos(st))
  {
    hide OutcomeOf;
    ChooseFromIs(st, 0);
  }

  // ---------------------------------------------------------------- counting votes

  datatype Tally =
    | Tally(yes: set<ValidatorId>, no: set<ValidatorId>, all: set<ValidatorId>, subject: Option<EventId>)
    | TallyError(error: ElectionError)

  /** The validator that counting a root's slot counts. */
  function CountedAs(vv: Group, r: Root): ValidatorId
    requires vv.Len() > 0 && (r.slot.validator in vv.indexes ==> vv.indexes[r.slot.validator] < vv.Len())
  {
    vv.GetID(vv.GetIdx(r.slot.validator))
  }

  /** Votes of the first n observed roots on one subject. */
  ghost function TallyUpTo(st: State, observed: seq<Root>, subject: ValidatorId, n: nat): Tally
    requires n <= |observed| && st.vv.Valid() && st.vv.Len() > 0
  {
    if n == 0 then Tally({}, {}, {}, None)
    else
      var t := TallyUpTo(st, observed, subject, n - 1);
      if t.TallyError? then t else TallyNext(st, observed[n - 1], subject, t)
  }

  ghost function TallyNext(st: State, r: Root, subject: ValidatorId, t: Tally): Tally
    requires t.Tally? && st.vv.Valid() && st.vv.Len() > 0
  {
    var vid := VoteId(r, subject);
    var counted := CountedAs(st.vv, r);
    if vid !in st.votes then TallyError(MissingVote)
    else
      var vote := st.votes[vid];
      if vote.yes && t.subject.Some? && t.subject.value != vote.observedRoot then TallyError(TwoForkRoots)
      else if counted in t.all then TallyError(DoubleVote)
      else if vote.yes then Tally(t.yes + {counted}, t.no, t.all + {counted}, Some(vote.observedRoot))
      else Tally(t.yes, t.no + {counted}, t.all + {counted}, t.subject)
  }

  datatype Ballot = Ballot(vote: Vote) | Spoiled(error: ElectionError)

  /** A vote in the second and later rounds: the weighted majority of the observed votes. */
  ghost function MajorityVote(st: State, observed: seq<Root>, subject: ValidatorId): Ballot
    requires st.vv.Valid() && st.vv.Len() > 0
  {
    var t := TallyUpTo(st, observed, subject, |observed|);
    if t.TallyError? then Spoiled(t.error)
    else if !st.vv.HasQuorum(t.all) then Spoiled(NoQuorum)
    else
      var yes := st.vv.WeightOf(t.yes) >= st.vv.WeightOf(t.no);
      Ballot(Vote(st.vv.HasQuorum(t.yes) || st.vv.HasQuorum(t.no), yes,
                  if yes && t.subject.Some? then t.subject.value else NO_ROOT))
  }

  /** The last root of the list in a validator's slot (a later map entry overwrites an earlier one). */
  function LastOf(observed: seq<Root>, v: ValidatorId): Option<Root> {
    if observed == [] then None
    else if observed[|observed| - 1].slot.validator == v then Some(observed[|observed| - 1])
    else LastOf(observed[..|observed| - 1], v)
  }

  /** A vote in the first round: yes if the subject's root is observed. */
  function FirstVote(observed: seq<Root>, subject: ValidatorId): Vote {
    match LastOf(observed, subject)
    case Some(r) => Vote(false, true, r.id)
    case None => Vote(false, false, NO_ROOT)
  }

  ghost function BallotOf(st: State, newRoot: Root, observed: seq<Root>, subject: ValidatorId): Ballot
    requires st.vv.Valid() && st.vv.Len() > 0
  {
    if newRoot.slot.frame == st.frameToDecide + 1 then Ballot(FirstVote(observed, subject))
    else MajorityVote(st, observed, subject)
  }

  // ---------------------------------------------------------------- processing one root

  datatype Progress = Progress(st: State, error: Option<ElectionError>)

  function Record(st: State, newRoot: Root, subject: ValidatorId, vote: Vote): State {
    st.(votes := st.votes[VoteId(newRoot, subject) := vote],
        decidedRoots := if vote.decided then st.decidedRoots[subject := vote] else st.decidedRoots)
  }

  /** The root votes on the first n subjects; an error stops it where it is. */
  ghost function VoteUpTo(
    st: State, newRoot: Root, observed: seq<Root>, subjects: seq<ValidatorId>, n: nat): (p: Progress)
    requires n <= |subjects| && st.vv.Valid() && st.vv.Len() > 0
    ensures p.st.vv == st.vv && p.st.frameToDecide == st.frameToDecide
  {
    if n == 0 then Progress(st, None)
    else
      var p := VoteUpTo(st, newRoot, observed, subjects, n - 1);
      if p.error.Some? then p
      else
        match BallotOf(p.st, newRoot, observed, subjects[n - 1])
        case Spoiled(error) => Progress(p.st, Some(error))
        case Ballot(vote) => Progress(Record(p.st, newRoot, subjects[n - 1], vote), None)
  }

  /** Validators without a decision, in the deterministic order. */
  function NotDecided(st: State, n: nat): seq<ValidatorId>
    requires n <= |st.vv.sorted|
  {
    if n == 0 then []
    else NotDecided(st, n - 1) + if st.vv.sorted[n - 1].id in st.decidedRoots then [] else [st.vv.sorted[n - 1].id]
  }

  /** What ProcessRoot makes of the state, given the roots of the previous frame that the new root observes. */
  ghost function Processed(st: State, newRoot: Root, observed: seq<Root>): (State, Outcome)
    requires st.vv.Valid() && st.vv.Len() > 0
  {
    if ChooseAtropos(st) != Undecided then (st, ChooseAtropos(st))
    else if newRoot.slot.frame <= st.frameToDecide then (st, Undecided)
    else
      var subjects := NotDecided(st, |st.vv.sorted|);
      var p := VoteUpTo(st, newRoot, observed, subjects, |subjects|);
      (p.st, if p.error.Some? then Failed(p.error.value) else ChooseAtropos(p.st))
  }
}
