/** The election computes the votes of the theory, so its results agree and its errors cannot happen. */
module ElectionProof {
  import opened Validators
  import opened Dags
  import opened Basics
  import opened Voting
  import opened ElectionSpec

  // ---------------------------------------------------------------- votes as the theory sees them

  /** The root of `subject` at frame d that somebody sees, if any. */
  ghost function CandidateOf(v: View, subject: ValidatorId, d: nat): EventId {
    if x: EventId :| Candidate(v, x, subject, d) then x else NO_ROOT
  }

  lemma CandidateIs(v: View, x: EventId, subject: ValidatorId, d: nat)
    requires Sound(v) && Candidate(v, x, subject, d)
    ensures CandidateOf(v, subject, d) == x
  {
    hide Sound;
    assert Candidate(v, CandidateOf(v, subject, d), subject, d);
    CandidateUnique(v, x, CandidateOf(v, subject, d), subject, d);
  }

  ghost function PureVote(v: View, r: Root, subject: ValidatorId, d: nat): Vote
    requires r.slot.frame > d
  {
    var yes := Yes(v, r.id, r.slot.frame, subject, d);
    Vote(Decides(v, r.id, r.slot.frame, subject, d), yes, if yes then CandidateOf(v, subject, d) else NO_ROOT)
  }

  /** r is the record of a root of the view. */
  ghost predicate IsRootOf(v: View, r: Root) {
    r.id in v.roots(r.slot.frame) && r.slot.validator == v.creator(r.id)
  }

  /** The list holds, once each, the roots of frame f that `id` sees. */
  ghost predicate Lists(v: View, id: EventId, f: nat, observed: seq<Root>) {
    && (forall r :: r in observed ==> IsRootOf(v, r) && r.slot.frame == f && v.sees(id, r.id))
    && (forall x :: x in SeenBy(v, id, f) ==> Root(x, Slot(f, v.creator(x))) in observed)
    && (forall i, j :: 0 <= i < j < |observed| ==> observed[i] != observed[j])
  }

  lemma ListedCreators(v: View, id: EventId, f: nat, observed: seq<Root>, i: nat, j: nat)
    requires Sound(v) && Lists(v, id, f, observed) && i < j < |observed|
    ensures observed[i].slot.validator != observed[j].slot.validator
  {
    var a, b := observed[i], observed[j];
    assert a in observed && b in observed;
    assert a.slot.validator == b.slot.validator ==> a.id == b.id;
  }

  // ---------------------------------------------------------------- the first round

  lemma {:induction false} LastOfIn(observed: seq<Root>, s: ValidatorId)
    ensures LastOf(observed, s).Some? ==>
              LastOf(observed, s).value in observed && LastOf(observed, s).value.slot.validator == s
    ensures LastOf(observed, s).None? ==> forall r :: r in observed ==> r.slot.validator != s
  {
    if observed != [] {
      var init, last := observed[..|observed| - 1], observed[|observed| - 1];
      assert observed == init + [last];
      LastOfIn(init, s);
    }
  }

  lemma FirstVoteIsPure(v: View, r: Root, observed: seq<Root>, subject: ValidatorId, d: nat)
    requires Sound(v) && r.slot.frame == d + 1 && Lists(v, r.id, d, observed)
    ensures FirstVote(observed, subject) == PureVote(v, r, subject, d)
  {
    hide Sound;
    LastOfIn(observed, subject);
    match LastOf(observed, subject)
    case Some(x) =>
      assert x.id in SeenBy(v, r.id, d);
      assert Candidate(v, x.id, subject, d);
      CandidateIs(v, x.id, subject, d);
    case None =>
      forall x | x in SeenBy(v, r.id, d) ensures v.creator(x) != subject {
        assert Root(x, Slot(d, v.creator(x))) in observed;
      }
  }

  // ---------------------------------------------------------------- later rounds

  /** Votes cast so far are those of the theory; every listed root has voted on the subject. */
  ghost predicate VotesKnown(v: View, st: State, observed: seq<Root>, subject: ValidatorId) {
    forall r :: r in observed ==>
      && r.slot.frame > st.frameToDecide
      && VoteId(r, subject) in st.votes && st.votes[VoteId(r, subject)] == PureVote(v, r, subject, st.frameToDecide)
  }

  /** Creators of the first n listed roots that vote `yes`. */
  ghost function Voters(v: View, observed: seq<Root>, subject: ValidatorId, d: nat, n: nat, yes: bool): set<ValidatorId>
    requires n <= |observed| && forall r :: r in observed ==> r.slot.frame > d
  {
    set i | 0 <= i < n && Yes(v, observed[i].id, observed[i].slot.frame, subject, d) == yes ::
        observed[i].slot.validator
  }

  /** A tally without errors counts exactly the yes and no voters so far. */
  ghost predicate TallyRight(v: View, st: State, observed: seq<Root>, subject: ValidatorId, n: nat, t: Tally)
    requires n <= |observed| && forall r :: r in observed ==> r.slot.frame > st.frameToDecide
  {
    && t.Tally?
    && t.yes == Voters(v, observed, subject, st.frameToDecide, n, true)
    && t.no == Voters(v, observed, subject, st.frameToDecide, n, false)
    && t.all == t.yes + t.no
    && t.subject == if t.yes == {} then None else Some(CandidateOf(v, subject, st.frameToDecide))
  }

  lemma CountedIsValidator(v: View, r: Root)
    requires Sound(v) && IsRootOf(v, r)
    ensures CountedAs(v.vv, r) == r.slot.validator
  {
    assert v.vv.Exists(v.creator(r.id));
  }

  lemma VotersStep(v: View, observed: seq<Root>, subject: ValidatorId, d: nat, n: nat, yes: bool)
    requires n < |observed| && forall r :: r in observed ==> r.slot.frame > d
    ensures observed[n] in observed
    ensures Voters(v, observed, subject, d, n + 1, yes) ==
            Voters(v, observed, subject, d, n, yes)
            + if Yes(v, observed[n].id, observed[n].slot.frame, subject, d) ==
                yes then {observed[n].slot.validator} else {}
  {
    hide Yes;
    assert observed[n] in observed;
    assert Yes(v, observed[n].id, observed[n].slot.frame, subject, d) == yes ==>
             observed[n].slot.validator in Voters(v, observed, subject, d, n + 1, yes);
  }

  lemma NewVoter(v: View, id: EventId, f: nat, observed: seq<Root>, subject: ValidatorId, d: nat, n: nat, yes: bool)
    requires Sound(v) && Lists(v, id, f, observed) && n < |observed| && forall r :: r in observed ==> r.slot.frame > d
    ensures observed[n].slot.validator !in Voters(v, observed, subject, d, n, yes)
  {
    hide Yes, Sound, Lists;
    if observed[n].slot.validator in Voters(v, observed, subject, d, n, yes) {
      var i :| 0 <= i < n && observed[i].slot.validator == observed[n].slot.validator;
      ListedCreators(v, id, f, observed, i, n);
    }
  }

  lemma TallyStep(v: View, st: State, id: EventId, f: nat, observed: seq<Root>, subject: ValidatorId, n: nat, t: Tally)
    requires Sound(v) && st.vv == v.vv && Lists(v, id, f, observed) && VotesKnown(v, st, observed, subject)
    requires n < |observed| && st.vv.Valid() && st.vv.Len() > 0 && TallyRight(v, st, observed, subject, n, t)
    ensures TallyRight(v, st, observed, subject, n + 1, TallyNext(st, observed[n], subject, t))
  {
    hide Yes, Sound, CandidateOf, Voters, CountedAs, Lists;
    var d, r := st.frameToDecide, observed[n];
    VotersStep(v, observed, subject, d, n, true);
    VotersStep(v, observed, subject, d, n, false);
    NewVoter(v, id, f, observed, subject, d, n, true);
    NewVoter(v, id, f, observed, subject, d, n, false);
    ListedIsRoot(v, id, f, observed, r);
    CountedIsValidator(v, r);
  }

  lemma ListedIsRoot(v: View, id: EventId, f: nat, observed: seq<Root>, r: Root)
    requires Lists(v, id, f, observed) && r in observed
    ensures IsRootOf(v, r) && r.slot.frame == f && v.sees(id, r.id) && r.id in SeenBy(v, id, f)
  {
  }

  lemma {:induction false} TallyIsRight(
    v: View, st: State, id: EventId, f: nat, observed: seq<Root>, subject: ValidatorId, n: nat)
    requires Sound(v) && st.vv == v.vv && Lists(v, id, f, observed) && VotesKnown(v, st, observed, subject)
    requires n <= |observed| && st.vv.Valid() && st.vv.Len() > 0
    ensures TallyRight(v, st, observed, subject, n, TallyUpTo(st, observed, subject, n))
  {
    hide Sound, Lists, TallyNext, Yes;
    if n > 0 {
      TallyIsRight(v, st, id, f, observed, subject, n - 1);
      TallyStep(v, st, id, f, observed, subject, n - 1, TallyUpTo(st, observed, subject, n - 1));
    }
  }

  /** The counted voters are the voters of the theory. */
  lemma VotersAre(v: View, r: Root, observed: seq<Root>, subject: ValidatorId, d: nat)
    requires r.slot.frame > d + 1 && Lists(v, r.id, r.slot.frame - 1, observed)
    requires (forall x :: x in observed ==> x.slot.frame > d)
    ensures Voters(v, observed, subject, d, |observed|, true) ==
            CreatorsOf(v, YesVoters(v, r.id, r.slot.frame, subject, d))
    ensures Voters(v, observed, subject, d, |observed|, false) ==
            CreatorsOf(v, NoVoters(v, r.id, r.slot.frame, subject, d))
  {
    VotersAreSide(v, r, observed, subject, d, true);
    VotersAreSide(v, r, observed, subject, d, false);
  }

  lemma VotersAreSide(v: View, r: Root, observed: seq<Root>, subject: ValidatorId, d: nat, yes: bool)
    requires r.slot.frame > d + 1 && Lists(v, r.id, r.slot.frame - 1, observed)
    requires (forall x :: x in observed ==> x.slot.frame > d)
    ensures Voters(v, observed, subject, d, |observed|, yes) ==
            CreatorsOf(v, if yes then YesVoters(v, r.id, r.slot.frame, subject, d)
                else NoVoters(v, r.id, r.slot.frame, subject, d))
  {
    hide Yes;
    var f := r.slot.frame - 1;
    var side := if yes then YesVoters(v, r.id, r.slot.frame, subject, d)
        else NoVoters(v, r.id, r.slot.frame, subject, d);
    forall u | u in Voters(v, observed, subject, d, |observed|, yes) ensures u in CreatorsOf(v, side) {
      var i :| 0 <= i < |observed| && Yes(v, observed[i].id, observed[i].slot.frame, subject, d) == yes
               && observed[i].slot.validator == u;
      ListedIsRoot(v, r.id, f, observed, observed[i]);
      assert observed[i].id in side;
    }
    forall u | u in CreatorsOf(v, side) ensures u in Voters(v, observed, subject, d, |observed|, yes) {
      var x :| x in side && v.creator(x) == u;
      assert Root(x, Slot(f, v.creator(x))) in observed;
      var i :| 0 <= i < |observed| && observed[i] == Root(x, Slot(f, v.creator(x)));
    }
  }

  lemma MajorityIsPure(v: View, st: State, r: Root, observed: seq<Root>, subject: ValidatorId)
    requires Sound(v) && st.vv == v.vv && st.vv.Valid() && st.vv.Len() > 0
    requires IsRootOf(v, r) && r.slot.frame > st.frameToDecide + 1 && Lists(v, r.id, r.slot.frame - 1, observed)
    requires VotesKnown(v, st, observed, subject)
    ensures MajorityVote(st, observed, subject) == Ballot(PureVote(v, r, subject, st.frameToDecide))
  {
    hide Sound, Lists, TallyUpTo, CandidateOf, Voters, YesVoters, NoVoters, CreatorsOf, SeenBy;
    var d := st.frameToDecide;
    TallyIsRight(v, st, r.id, r.slot.frame - 1, observed, subject, |observed|);
    VotersAre(v, r, observed, subject, d);
    SeenQuorum(v, r, subject, d);
    if Yes(v, r.id, r.slot.frame, subject, d) {
      YesNotEmpty(v, r, subject, d);
    }
  }

  lemma SeenQuorum(v: View, r: Root, subject: ValidatorId, d: nat)
    requires Sound(v) && IsRootOf(v, r) && r.slot.frame > d + 1
    ensures v.vv.HasQuorum(CreatorsOf(v, YesVoters(v, r.id, r.slot.frame, subject, d))
                           + CreatorsOf(v, NoVoters(v, r.id, r.slot.frame, subject, d)))
  {
    hide Yes;
    var f := r.slot.frame;
    var yes, no := YesVoters(v, r.id, f, subject, d), NoVoters(v, r.id, f, subject, d);
    assert v.vv.HasQuorum(CreatorsOf(v, SeenBy(v, r.id, f - 1)));
    assert SeenBy(v, r.id, f - 1) == yes + no;
    assert CreatorsOf(v, yes + no) == CreatorsOf(v, yes) + CreatorsOf(v, no);
  }

  lemma YesNotEmpty(v: View, r: Root, subject: ValidatorId, d: nat)
    requires Sound(v) && IsRootOf(v, r) && r.slot.frame > d + 1 && Yes(v, r.id, r.slot.frame, subject, d)
    ensures CreatorsOf(v, YesVoters(v, r.id, r.slot.frame, subject, d)) != {}
  {
    hide Sound, Yes;
    var x := YesHasVoter(v, r.id, r.slot.frame, subject, d);
    assert v.creator(x) in CreatorsOf(v, YesVoters(v, r.id, r.slot.frame, subject, d));
  }

  // ---------------------------------------------------------------- what every processed root keeps

  /** Some root of the view settles the subject. */
  ghost predicate Settles(v: View, r: Root, subject: ValidatorId, d: nat) {
    IsRootOf(v, r) && r.slot.frame > d && Decides(v, r.id, r.slot.frame, subject, d)
  }

  ghost function SettlerOf(v: View, subject: ValidatorId, d: nat): (r: Root)
    requires exists r :: Settles(v, r, subject, d)
    ensures Settles(v, r, subject, d)
  {
    var r :| Settles(v, r, subject, d);
    r
  }

  /** The settled vote on a subject. */
  ghost function VerdictOf(v: View, subject: ValidatorId, d: nat): Vote {
    if exists r :: Settles(v, r, subject, d) then PureVote(v, SettlerOf(v, subject, d), subject, d)
    else Vote(false, false, NO_ROOT)
  }

  /** Whichever root settles a subject, the vote is the same. */
  lemma VerdictIs(v: View, r: Root, subject: ValidatorId, d: nat)
    requires Sound(v) && Settles(v, r, subject, d)
    ensures VerdictOf(v, subject, d) == PureVote(v, r, subject, d)
  {
    hide Sound, Decides, Yes;
    var q := SettlerOf(v, subject, d);
    DecisionsAgree(v, r.id, r.slot.frame, q.id, q.slot.frame, subject, d);
  }

  ghost predicate Registered(v: View, processed: set<Root>, d: nat) {
    forall r :: r in processed ==> IsRootOf(v, r) && r.slot.frame > d
  }

  ghost predicate AllVoted(v: View, st: State, processed: set<Root>) {
    forall r, s :: r in processed && v.vv.Exists(s) && s !in st.decidedRoots ==> VoteId(r, s) in st.votes
  }

  ghost predicate VotesPure(v: View, st: State) {
    forall k :: k in st.votes ==>
      IsRootOf(v, k.fromRoot) && k.fromRoot.slot.frame > st.frameToDecide
      && st.votes[k] == PureVote(v, k.fromRoot, k.forValidator, st.frameToDecide)
  }

  ghost predicate SettledBy(v: View, processed: set<Root>, subject: ValidatorId, d: nat) {
    exists r :: r in processed && Settles(v, r, subject, d)
  }

  ghost predicate DecisionsRight(v: View, st: State, processed: set<Root>) {
    && (forall s :: s in st.decidedRoots <==> v.vv.Exists(s) && SettledBy(v, processed, s, st.frameToDecide))
    && (forall s :: s in st.decidedRoots ==> st.decidedRoots[s] == VerdictOf(v, s, st.frameToDecide))
  }

  /** The state of an election that has processed exactly these roots. */
  ghost predicate Inv(v: View, st: State, processed: set<Root>) {
    && st.vv == v.vv
    && Registered(v, processed, st.frameToDecide)
    && AllVoted(v, st, processed)
    && VotesPure(v, st)
    && DecisionsRight(v, st, processed)
  }

  lemma FreshInv(v: View, d: nat)
    ensures Inv(v, State(v.vv, d, map[], map[]), {})
  {
  }

  // ---------------------------------------------------------------- one root

  lemma {:induction false} NotDecidedAre(st: State, n: nat)
    requires n <= |st.vv.sorted|
    ensures forall s :: s in NotDecided(st, n) <==>
              s !in st.decidedRoots && exists i :: 0 <= i < n && st.vv.sorted[i].id == s
  {
    if n > 0 {
      NotDecidedAre(st, n - 1);
    }
  }

  lemma UndecidedSubjects(st: State)
    requires st.vv.Valid()
    ensures forall s :: s in NotDecided(st, |st.vv.sorted|) <==> st.vv.Exists(s) && s !in st.decidedRoots
  {
    NotDecidedAre(st, |st.vv.sorted|);
    forall s | st.vv.Exists(s) ensures exists i :: 0 <= i < |st.vv.sorted| && st.vv.sorted[i].id == s {
      var i := st.vv.indexes[s];
      assert st.vv.sorted[i].id == s;
    }
  }

  /** What the new root must bring: its slot, the roots it observes, all of which have voted. */
  ghost predicate Arrives(v: View, st: State, processed: set<Root>, newRoot: Root, observed: seq<Root>) {
    && IsRootOf(v, newRoot) && newRoot.slot.frame > st.frameToDecide
    && Lists(v, newRoot.id, newRoot.slot.frame - 1, observed)
    && (newRoot.slot.frame > st.frameToDecide + 1 ==> forall r :: r in observed ==> r in processed)
  }

  lemma BallotIsPure(v: View, st: State, processed: set<Root>, newRoot: Root, observed: seq<Root>, subject: ValidatorId)
    requires Sound(v) && st.vv == v.vv && st.vv.Valid() && st.vv.Len() > 0
    requires Arrives(v, st, processed, newRoot, observed)
    requires VotesPure(v, st) && forall r :: r in processed ==> VoteId(r, subject) in st.votes
    ensures BallotOf(st, newRoot, observed, subject) == Ballot(PureVote(v, newRoot, subject, st.frameToDecide))
  {
    hide Sound, Lists, MajorityVote, FirstVote, PureVote;
    if newRoot.slot.frame == st.frameToDecide + 1 {
      FirstVoteIsPure(v, newRoot, observed, subject, st.frameToDecide);
    } else {
      forall r | r in observed
        ensures r.slot.frame > st.frameToDecide && VoteId(r, subject) in st.votes
                && st.votes[VoteId(r, subject)] == PureVote(v, r, subject, st.frameToDecide)
      {
        var k := VoteId(r, subject);
        assert k in st.votes;
      }
      MajorityIsPure(v, st, newRoot, observed, subject);
    }
  }

  /** The root has voted on the first n subjects. */
  ghost predicate Halfway(v: View, st: State, newRoot: Root, subjects: seq<ValidatorId>, n: nat, p: Progress)
    requires n <= |subjects| && newRoot.slot.frame > st.frameToDecide
  {
    && p.error.None? && p.st.vv == st.vv && p.st.frameToDecide == st.frameToDecide
    && VotesPure(v, p.st)
    && (forall k :: k in st.votes ==> k in p.st.votes)
    && (forall i :: 0 <= i < n ==> VoteId(newRoot, subjects[i]) in p.st.votes)
    && (forall s :: s in p.st.decidedRoots <==>
                    s in st.decidedRoots
                        || (s in subjects[..n] && Decides(v, newRoot.id, newRoot.slot.frame, s, st.frameToDecide)))
    && (forall s :: s in p.st.decidedRoots ==> p.st.decidedRoots[s] == VerdictOf(v, s, st.frameToDecide))
  }

  lemma RecordKeeps(v: View, st: State, newRoot: Root, subjects: seq<ValidatorId>, n: nat, p: Progress, vote: Vote)
    requires Sound(v) && IsRootOf(v, newRoot) && newRoot.slot.frame > st.frameToDecide && n < |subjects|
    requires Halfway(v, st, newRoot, subjects, n, p) && vote == PureVote(v, newRoot, subjects[n], st.frameToDecide)
    ensures Halfway(v, st, newRoot, subjects, n + 1, Progress(Record(p.st, newRoot, subjects[n], vote), None))
  {
    hide Sound, Decides, Yes, VerdictOf, IsRootOf;
    assert subjects[..n + 1] == subjects[..n] + [subjects[n]];
    if vote.decided {
      SettlesFrom(v, newRoot, subjects[n], st.frameToDecide);
      VerdictIs(v, newRoot, subjects[n], st.frameToDecide);
    }
  }

  lemma SettlesFrom(v: View, r: Root, subject: ValidatorId, d: nat)
    requires IsRootOf(v, r) && r.slot.frame > d && Decides(v, r.id, r.slot.frame, subject, d)
    ensures Settles(v, r, subject, d)
  {
    hide Decides;
  }

  lemma HalfwayStart(v: View, st: State, processed: set<Root>, newRoot: Root, subjects: seq<ValidatorId>)
    requires Inv(v, st, processed) && newRoot.slot.frame > st.frameToDecide
    ensures Halfway(v, st, newRoot, subjects, 0, Progress(st, None))
  {
    hide PureVote, VerdictOf, Decides, IsRootOf;
  }

  /** The next subject gets the pure vote too. */
  lemma NextBallot(
    v: View, st: State, processed: set<Root>, newRoot: Root, observed: seq<Root>, subjects: seq<ValidatorId>, n: nat,
        p: Progress)
    requires Sound(v) && Inv(v, st, processed) && Arrives(v, st, processed, newRoot, observed)
    requires n < |subjects| && st.vv.Valid() && st.vv.Len() > 0 && p.st.vv == st.vv
    requires v.vv.Exists(subjects[n]) && subjects[n] !in st.decidedRoots && Halfway(v, st, newRoot, subjects, n, p)
    ensures BallotOf(p.st, newRoot, observed, subjects[n]) ==
            Ballot(PureVote(v, newRoot, subjects[n], st.frameToDecide))
  {
    hide Sound, Lists, PureVote, VerdictOf, Decides, IsRootOf, BallotOf, VotesPure;
    forall r | r in processed ensures VoteId(r, subjects[n]) in p.st.votes {
      assert VoteId(r, subjects[n]) in st.votes;
    }
    BallotIsPure(v, p.st, processed, newRoot, observed, subjects[n]);
  }

  lemma {:induction false} VotesUpTo(
    v: View, st: State, processed: set<Root>, newRoot: Root, observed: seq<Root>, subjects: seq<ValidatorId>, n: nat)
    requires Sound(v) && Inv(v, st, processed) && Arrives(v, st, processed, newRoot, observed)
    requires n <= |subjects| && st.vv.Valid() && st.vv.Len() > 0
    requires forall s :: s in subjects ==> v.vv.Exists(s) && s !in st.decidedRoots
    ensures Halfway(v, st, newRoot, subjects, n, VoteUpTo(st, newRoot, observed, subjects, n))
  {
    hide Sound, Lists, PureVote, VerdictOf, Decides, IsRootOf, BallotOf, Record, Inv, VotesPure;
    if n == 0 {
      HalfwayStart(v, st, processed, newRoot, subjects);
    } else {
      VotesUpTo(v, st, processed, newRoot, observed, subjects, n - 1);
      var p := VoteUpTo(st, newRoot, observed, subjects, n - 1);
      NextBallot(v, st, processed, newRoot, observed, subjects, n - 1, p);
      RecordKeeps(v, st, newRoot, subjects, n - 1, p, PureVote(v, newRoot, subjects[n - 1], st.frameToDecide));
    }
  }

  lemma VotedInv(v: View, st: State, processed: set<Root>, newRoot: Root, subjects: seq<ValidatorId>, p: Progress)
    requires Sound(v) && Inv(v, st, processed) && IsRootOf(v, newRoot) && newRoot.slot.frame > st.frameToDecide
    requires forall s :: s in subjects <==> v.vv.Exists(s) && s !in st.decidedRoots
    requires Halfway(v, st, newRoot, subjects, |subjects|, p)
    ensures Inv(v, p.st, processed + {newRoot})
  {
    hide Sound, PureVote, VerdictOf, Decides, IsRootOf;
    assert subjects[..|subjects|] == subjects;
    var all, d := processed + {newRoot}, st.frameToDecide;
    forall r, s | r in all && v.vv.Exists(s) && s !in p.st.decidedRoots ensures VoteId(r, s) in p.st.votes {
      if r in processed {
        assert VoteId(r, s) in st.votes;
      } else {
        var i :| 0 <= i < |subjects| && subjects[i] == s;
      }
    }
    forall s ensures s in p.st.decidedRoots <==> v.vv.Exists(s) && SettledBy(v, all, s, d) {
      SettledByMore(v, processed, newRoot, s, d);
    }
  }

  lemma SettledByMore(v: View, processed: set<Root>, newRoot: Root, s: ValidatorId, d: nat)
    requires IsRootOf(v, newRoot) && newRoot.slot.frame > d
    ensures SettledBy(v, processed + {newRoot}, s, d) <==>
            SettledBy(v, processed, s, d) || Decides(v, newRoot.id, newRoot.slot.frame, s, d)
  {
    hide Decides;
    if Decides(v, newRoot.id, newRoot.slot.frame, s, d) {
      assert Settles(v, newRoot, s, d);
      assert newRoot in processed + {newRoot};
    }
    if SettledBy(v, processed, s, d) {
      var r :| r in processed && Settles(v, r, s, d);
      assert r in processed + {newRoot};
    }
  }

  /**
   Processing a root whose observed roots have all been processed meets no error and casts the votes of the theory.
   */
  lemma ProcessedKeeps(v: View, st: State, processed: set<Root>, newRoot: Root, observed: seq<Root>)
    requires Sound(v) && v.vv.Valid() && v.vv.Len() > 0
    requires Inv(v, st, processed) && Arrives(v, st, processed, newRoot, observed) && ChooseAtropos(st) == Undecided
    ensures var (next, outcome) := Processed(st, newRoot, observed);
            && Inv(v, next, processed + {newRoot}) && next.frameToDecide == st.frameToDecide
            && outcome == ChooseAtropos(next)
  {
    hide Sound, Lists, Halfway, ChooseFrom, Registered, AllVoted, VotesPure, DecisionsRight, VoteUpTo, IsRootOf,
         NotDecided;
    var subjects := NotDecided(st, |st.vv.sorted|);
    UndecidedSubjects(st);
    VotesUpTo(v, st, processed, newRoot, observed, subjects, |subjects|);
    var p := VoteUpTo(st, newRoot, observed, subjects, |subjects|);
    HalfwayParts(v, st, newRoot, subjects, |subjects|, p);
    VotedInv(v, st, processed, newRoot, subjects, p);
  }

  lemma HalfwayParts(v: View, st: State, newRoot: Root, subjects: seq<ValidatorId>, n: nat, p: Progress)
    requires n <= |subjects| && newRoot.slot.frame > st.frameToDecide && Halfway(v, st, newRoot, subjects, n, p)
    ensures p.error.None? && p.st.frameToDecide == st.frameToDecide
  {
    hide Decides, VerdictOf, VotesPure;
  }

  // ---------------------------------------------------------------- the outcome

  /** The subject is settled, by some root of the view, as `yes`. */
  ghost predicate SettledAs(v: View, subject: ValidatorId, d: nat, yes: bool) {
    exists r :: Settles(v, r, subject, d) && Yes(v, r.id, r.slot.frame, subject, d) == yes
  }

  /** x heads frame d: the first validator not settled as no is settled as yes, and x is its root. */
  ghost predicate IsAtropos(v: View, d: nat, x: EventId) {
    exists i: nat :: AtroposAt(v, d, i, x)
  }

  ghost predicate AtroposAt(v: View, d: nat, i: nat, x: EventId) {
    && i < |v.vv.sorted| && (forall j :: 0 <= j < i ==> SettledAs(v, v.vv.sorted[j].id, d, false))
    && SettledAs(v, v.vv.sorted[i].id, d, true) && x == CandidateOf(v, v.vv.sorted[i].id, d)
  }

  lemma SettledOnce(v: View, subject: ValidatorId, d: nat)
    requires Sound(v)
    ensures !(SettledAs(v, subject, d, true) && SettledAs(v, subject, d, false))
  {
    hide Sound, Yes, Decides;
    if SettledAs(v, subject, d, true) && SettledAs(v, subject, d, false) {
      var r :| Settles(v, r, subject, d) && Yes(v, r.id, r.slot.frame, subject, d);
      var q :| Settles(v, q, subject, d) && !Yes(v, q.id, q.slot.frame, subject, d);
      DecisionsAgree(v, r.id, r.slot.frame, q.id, q.slot.frame, subject, d);
      assert false;
    }
  }

  /** Agreement: a frame has at most one Atropos, whoever decides it and from whichever roots. */
  lemma AtroposUnique(v: View, d: nat, x: EventId, y: EventId)
    requires Sound(v) && IsAtropos(v, d, x) && IsAtropos(v, d, y)
    ensures x == y
  {
    hide Sound, SettledAs, CandidateOf;
    var i: nat :| AtroposAt(v, d, i, x);
    var j: nat :| AtroposAt(v, d, j, y);
    SettledOnce(v, v.vv.sorted[i].id, d);
    SettledOnce(v, v.vv.sorted[j].id, d);
  }

  lemma DecidedSettled(v: View, st: State, processed: set<Root>, s: ValidatorId)
    requires Sound(v) && Inv(v, st, processed) && s in st.decidedRoots
    ensures SettledAs(v, s, st.frameToDecide, st.decidedRoots[s].yes)
    ensures st.decidedRoots[s].yes ==> st.decidedRoots[s].observedRoot == CandidateOf(v, s, st.frameToDecide)
    ensures exists r :: r in processed && Settles(v, r, s, st.frameToDecide)
                        && st.decidedRoots[s] == PureVote(v, r, s, st.frameToDecide)
  {
    hide Sound, Yes, Decides, VotesPure, AllVoted, VerdictOf, CandidateOf;
    assert SettledBy(v, processed, s, st.frameToDecide);
    var r :| r in processed && Settles(v, r, s, st.frameToDecide);
    VerdictIs(v, r, s, st.frameToDecide);
  }

  lemma {:induction false} ChosenFrom(v: View, st: State, processed: set<Root>, i: nat)
    requires Sound(v) && Inv(v, st, processed) && st.frameToDecide >= 1 && i <= |st.vv.sorted|
    requires forall j :: 0 <= j < i ==> SettledAs(v, v.vv.sorted[j].id, st.frameToDecide, false)
    ensures !ChooseFrom(st, i).Failed?
    ensures ChooseFrom(st, i).Decided? ==>
              ChooseFrom(st, i).res.frame == st.frameToDecide
                  && IsAtropos(v, st.frameToDecide, ChooseFrom(st, i).res.atropos)
    decreases |st.vv.sorted| - i
  {
    hide Sound, SettledAs, VotesPure, AllVoted, DecisionsRight, Registered, CandidateOf;
    if i == |st.vv.sorted| {
      NotAllNo(v, st.frameToDecide);
      assert false;
    } else {
      var s := st.vv.sorted[i].id;
      if s in st.decidedRoots {
        DecidedSettled(v, st, processed, s);
        if st.decidedRoots[s].yes {
          assert AtroposAt(v, st.frameToDecide, i, st.decidedRoots[s].observedRoot);
        } else {
          ChosenFrom(v, st, processed, i + 1);
        }
      }
    }
  }

  lemma NotAllNo(v: View, d: nat)
    requires Sound(v) && d >= 1
    ensures exists j :: 0 <= j < |v.vv.sorted| && !SettledAs(v, v.vv.sorted[j].id, d, false)
  {
    hide Yes, Decides, OneRootPerSlot, QuorumBehind;
    var subject := NeverAllNo(v, d);
    var j := v.vv.indexes[subject];
    assert v.vv.sorted[j].id == subject;
  }

  /** No election that follows the protocol fails, and what it decides is the frame's Atropos. */
  lemma OutcomeRight(v: View, st: State, processed: set<Root>)
    requires Sound(v) && Inv(v, st, processed) && st.frameToDecide >= 1
    ensures !ChooseAtropos(st).Failed?
    ensures ChooseAtropos(st).Decided? ==>
              ChooseAtropos(st).res.frame == st.frameToDecide
                  && IsAtropos(v, st.frameToDecide, ChooseAtropos(st).res.atropos)
  {
    hide Sound, Inv, IsAtropos, ChooseFrom, SettledAs;
    ChosenFrom(v, st, processed, 0);
  }

  // ---------------------------------------------------------------- when exactly there is a decision

  /** One of these roots settles the subject as `yes`. */
  ghost predicate SettledWith(v: View, some: set<Root>, subject: ValidatorId, d: nat, yes: bool) {
    exists r :: r in some && Settles(v, r, subject, d) && Yes(v, r.id, r.slot.frame, subject, d) == yes
  }

  /** These roots settle the i-th validator as yes, for root x, and every validator before it as no. */
  ghost predicate Elects(v: View, some: set<Root>, d: nat, i: nat, x: EventId) {
    && i < |v.vv.sorted| && (forall j :: 0 <= j < i ==> SettledWith(v, some, v.vv.sorted[j].id, d, false))
    && SettledWith(v, some, v.vv.sorted[i].id, d, true) && x == CandidateOf(v, v.vv.sorted[i].id, d)
  }

  ghost predicate Elected(v: View, some: set<Root>, d: nat, x: EventId) {
    exists i :: Elects(v, some, d, i, x)
  }

  /** A subject is decided in the state exactly if a processed root settles it, and the same way. */
  lemma DecidedAs(v: View, st: State, processed: set<Root>, s: ValidatorId, yes: bool)
    requires Sound(v) && Inv(v, st, processed) && v.vv.Exists(s)
    ensures s in st.decidedRoots && st.decidedRoots[s].yes == yes <==>
            SettledWith(v, processed, s, st.frameToDecide, yes)
    ensures s in st.decidedRoots && st.decidedRoots[s].yes ==>
              st.decidedRoots[s].observedRoot == CandidateOf(v, s, st.frameToDecide)
  {
    hide Sound, Yes, Decides, VotesPure, AllVoted, Registered, VerdictOf, CandidateOf, IsRootOf;
    if s in st.decidedRoots {
      DecidedSettled(v, st, processed, s);
    }
    if SettledWith(v, processed, s, st.frameToDecide, yes) {
      var r :| r in processed && Settles(v, r, s, st.frameToDecide)
               && Yes(v, r.id, r.slot.frame, s, st.frameToDecide) == yes;
      assert SettledBy(v, processed, s, st.frameToDecide);
      VerdictIs(v, r, s, st.frameToDecide);
    }
  }

  lemma SortedExists(vv: Group, i: nat)
    requires vv.Valid() && i < |vv.sorted|
    ensures vv.Exists(vv.sorted[i].id)
  {
  }

  lemma FirstYesElects(v: View, st: State, processed: set<Root>, i: nat, x: EventId)
    requires Sound(v) && Inv(v, st, processed)
    ensures FirstYes(st, i, x) <==> Elects(v, processed, st.frameToDecide, i, x)
  {
    hide Sound, SettledWith, CandidateOf, AllVoted, VotesPure, Registered, DecisionsRight;
    assert v.vv.Valid() by { SoundGroup(v); }
    forall j | 0 <= j <= i && i < |v.vv.sorted|
      ensures var s := v.vv.sorted[j].id;
              && (s in st.decidedRoots && !st.decidedRoots[s].yes <==>
                  SettledWith(v, processed, s, st.frameToDecide, false))
              && (s in st.decidedRoots && st.decidedRoots[s].yes <==>
                  SettledWith(v, processed, s, st.frameToDecide, true))
              && (s in st.decidedRoots && st.decidedRoots[s].yes ==>
                  st.decidedRoots[s].observedRoot == CandidateOf(v, s, st.frameToDecide))
    {
      SortedExists(v.vv, j);
      DecidedAs(v, st, processed, v.vv.sorted[j].id, true);
      DecidedAs(v, st, processed, v.vv.sorted[j].id, false);
    }
  }

  lemma SoundGroup(v: View)
    requires Sound(v)
    ensures v.vv.Valid() && v.vv.Len() > 0
  {
    hide v.vv.Valid, OneRootPerSlot, QuorumBehind;
  }

  /**
   An election decides x exactly when the roots it has processed settle a validator as yes, with root x, and all
   validators before it as no. Until then it is open.
   */
  lemma DecidesWhenSettled(v: View, st: State, processed: set<Root>)
    requires Sound(v) && Inv(v, st, processed) && st.frameToDecide >= 1
    ensures forall x :: ChooseAtropos(st) == Decided(Res(st.frameToDecide, x)) <==>
              Elected(v, processed, st.frameToDecide, x)
    ensures ChooseAtropos(st) == Undecided <==> forall x :: !Elected(v, processed, st.frameToDecide, x)
  {
    hide Sound, Inv, Elects, FirstYes, FirstOpen, NoBefore, ChooseAtropos, IsAtropos;
    OutcomeRight(v, st, processed);
    ChooseIs(st);
    forall x ensures (exists i :: FirstYes(st, i, x)) <==> Elected(v, processed, st.frameToDecide, x) {
      if i :| FirstYes(st, i, x) {
        FirstYesElects(v, st, processed, i, x);
      }
      if i :| Elects(v, processed, st.frameToDecide, i, x) {
        FirstYesElects(v, st, processed, i, x);
      }
    }
    var r := ChooseAtropos(st);
    if r.Decided? {
      assert r == Decided(Res(st.frameToDecide, r.res.atropos));
    }
  }

  lemma SettledWithMore(v: View, some: set<Root>, all: set<Root>, s: ValidatorId, d: nat, yes: bool)
    requires SettledWith(v, some, s, d, yes) && some <= all
    ensures SettledWith(v, all, s, d, yes)
  {
    hide Decides, Yes, IsRootOf;
  }

  lemma ElectedMore(v: View, some: set<Root>, all: set<Root>, d: nat, x: EventId)
    requires Elected(v, some, d, x) && some <= all
    ensures Elected(v, all, d, x)
  {
    hide SettledWith, CandidateOf;
    var i :| Elects(v, some, d, i, x);
    forall s, yes | SettledWith(v, some, s, d, yes) ensures SettledWith(v, all, s, d, yes) {
      SettledWithMore(v, some, all, s, d, yes);
    }
    assert Elects(v, all, d, i, x);
  }

  // ---------------------------------------------------------------- what has been processed is all that matters

  /** Replaying the same roots, in whatever order, reaches the same decided subjects and the same outcome. */
  lemma SameRootsSameDecisions(v: View, st1: State, st2: State, processed: set<Root>)
    requires Inv(v, st1, processed) && Inv(v, st2, processed) && st1.frameToDecide == st2.frameToDecide
    ensures st1.decidedRoots == st2.decidedRoots && ChooseAtropos(st1) == ChooseAtropos(st2)
  {
    hide VotesPure, AllVoted, Registered, VerdictOf, SettledBy, ChooseFrom;
    assert st1.decidedRoots == st2.decidedRoots;
    ChooseDepends(st1, st2, 0);
  }

  lemma {:induction false} ChooseDepends(st1: State, st2: State, i: nat)
    requires st1.vv == st2.vv && st1.frameToDecide == st2.frameToDecide && i <= |st1.vv.sorted|
    requires forall s :: s in st1.decidedRoots ==> s in st2.decidedRoots && st2.decidedRoots[s] == st1.decidedRoots[s]
    ensures ChooseFrom(st1, i) != Undecided ==> ChooseFrom(st2, i) == ChooseFrom(st1, i)
    ensures st1.decidedRoots == st2.decidedRoots ==> ChooseFrom(st2, i) == ChooseFrom(st1, i)
    decreases |st1.vv.sorted| - i
  {
    if i < |st1.vv.sorted| {
      ChooseDepends(st1, st2, i + 1);
    }
  }

  /** An outcome reached with some of the roots is the outcome with all of them. */
  lemma OutcomeLasts(v: View, st1: State, some: set<Root>, st2: State, all: set<Root>)
    requires Inv(v, st1, some) && Inv(v, st2, all) && st1.frameToDecide == st2.frameToDecide && some <= all
    ensures ChooseAtropos(st1) != Undecided ==> ChooseAtropos(st2) == ChooseAtropos(st1)
  {
    hide VotesPure, AllVoted, Registered, VerdictOf, Settles, ChooseFrom;
    forall s | s in st1.decidedRoots ensures s in st2.decidedRoots && st2.decidedRoots[s] == st1.decidedRoots[s] {
      assert SettledBy(v, some, s, st1.frameToDecide);
    }
    ChooseDepends(st1, st2, 0);
  }

  // ---------------------------------------------------------------- a yes vote has a candidate

  lemma {:induction false} YesHasCandidate(v: View, r: EventId, f: nat, subject: ValidatorId, d: nat)
    requires Sound(v) && f > d && r in v.roots(f) && Yes(v, r, f, subject, d)
    ensures Candidate(v, CandidateOf(v, subject, d), subject, d)
    decreases f
  {
    hide Sound;
    if f == d + 1 {
      var x :| x in SeenBy(v, r, d) && v.creator(x) == subject;
      assert Candidate(v, x, subject, d) by { assert v.sees(r, x); }
    } else {
      var x := YesHasVoter(v, r, f, subject, d);
      YesHasCandidate(v, x, f - 1, subject, d);
    }
  }
}
