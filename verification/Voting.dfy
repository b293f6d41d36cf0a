/**
 Virtual voting on roots as pure functions, with its agreement theorems (abft/election).
 The election knows the graph only through its roots per frame and the forkless-cause
 relation between roots; a View is that knowledge.
 */
module Voting {
  import opened Validators
  import opened Dags

  datatype View = View(
    vv: Group, roots: nat -> set<EventId>, creator: EventId -> ValidatorId, sees: (EventId, EventId) -> bool)

  ghost function SeenBy(v: View, r: EventId, f: nat): set<EventId> {
    set x | x in v.roots(f) && v.sees(r, x)
  }

  ghost function CreatorsOf(v: View, s: set<EventId>): set<ValidatorId> {
    set x | x in s :: v.creator(x)
  }

  ghost function WeightBy(v: View, s: set<EventId>): nat {
    v.vv.WeightOf(CreatorsOf(v, s))
  }

  /** Only one root per slot is ever seen, whoever looks. */
  ghost predicate OneRootPerSlot(v: View) {
    forall f, x, y, a, b ::
      (x in v.roots(f) && y in v.roots(f) && v.sees(a, x) && v.sees(b, y) && v.creator(x) == v.creator(y)) ==> x == y
  }

  /** Every root past the first frame sees a quorum of the previous frame's roots. */
  ghost predicate QuorumBehind(v: View) {
    forall f, r :: f >= 2 && r in v.roots(f) ==> v.vv.HasQuorum(CreatorsOf(v, SeenBy(v, r, f - 1)))
  }

  /** What the Byzantine assumption gives the election. */
  ghost predicate Sound(v: View) {
    && v.vv.Valid() && v.vv.Len() > 0
    && OneRootPerSlot(v) && QuorumBehind(v)
    && (forall f, r :: r in v.roots(f) ==> v.vv.Exists(v.creator(r)))
  }

  /** The vote of root r at frame f on whether `subject` has a root at frame d. */
  ghost predicate Yes(v: View, r: EventId, f: nat, subject: ValidatorId, d: nat)
    requires f > d
    decreases f
  {
    if f == d + 1 then exists x :: x in SeenBy(v, r, d) && v.creator(x) == subject
    else WeightBy(v, YesVoters(v, r, f, subject, d)) >= WeightBy(v, NoVoters(v, r, f, subject, d))
  }

  ghost function YesVoters(v: View, r: EventId, f: nat, subject: ValidatorId, d: nat): set<EventId>
    requires f > d + 1
    decreases f, 0
  {
    var prev := f - 1;
    set x | x in SeenBy(v, r, prev) && Yes(v, x, prev, subject, d)
  }

  ghost function NoVoters(v: View, r: EventId, f: nat, subject: ValidatorId, d: nat): set<EventId>
    requires f > d + 1
    decreases f, 0
  {
    var prev := f - 1;
    set x | x in SeenBy(v, r, prev) && !Yes(v, x, prev, subject, d)
  }

  /** r at frame f settles the subject: a quorum of the votes it sees agree. */
  ghost predicate Decides(v: View, r: EventId, f: nat, subject: ValidatorId, d: nat)
    requires f > d
  {
    f > d + 1 && (WeightBy(v, YesVoters(v, r, f, subject, d)) >= v.vv.Quorum()
                  || WeightBy(v, NoVoters(v, r, f, subject, d)) >= v.vv.Quorum())
  }

  // ---------------------------------------------------------------- counting votes

  /** Yes and no voters are different validators; together they are all that r sees. */
  lemma VotersSplit(v: View, r: EventId, f: nat, subject: ValidatorId, d: nat)
    requires Sound(v) && f > d + 1
    ensures CreatorsOf(v, YesVoters(v, r, f, subject, d)) !! CreatorsOf(v, NoVoters(v, r, f, subject, d))
    ensures WeightBy(v, YesVoters(v, r, f, subject, d)) + WeightBy(v, NoVoters(v, r, f, subject, d))
            == WeightBy(v, SeenBy(v, r, f - 1))
  {
    var yes, no := YesVoters(v, r, f, subject, d), NoVoters(v, r, f, subject, d);
    CrossDisjoint(v, r, r, f, subject, d);
    assert SeenBy(v, r, f - 1) == yes + no;
    assert CreatorsOf(v, yes + no) == CreatorsOf(v, yes) + CreatorsOf(v, no);
    WeightDisjoint(v.vv, CreatorsOf(v, yes), CreatorsOf(v, no));
  }

  /** A validator seen voting yes by one root is never seen voting no by another. */
  lemma CrossDisjoint(v: View, r: EventId, s: EventId, f: nat, subject: ValidatorId, d: nat)
    requires Sound(v) && f > d + 1
    ensures CreatorsOf(v, YesVoters(v, r, f, subject, d)) !! CreatorsOf(v, NoVoters(v, s, f, subject, d))
  {
    var yes, no := YesVoters(v, r, f, subject, d), NoVoters(v, s, f, subject, d);
    forall u | u in CreatorsOf(v, yes) ensures u !in CreatorsOf(v, no) {
      var x :| x in yes && v.creator(x) == u;
      forall y | y in no ensures v.creator(y) != u {
        assert v.sees(r, x) && v.sees(s, y);
        assert v.creator(y) == u ==> x == y;
      }
    }
  }

  /** When one root sees a quorum of yes votes, every root of its frame sees more yes than no. */
  lemma YesQuorumWins(v: View, r: EventId, s: EventId, f: nat, subject: ValidatorId, d: nat)
    requires Sound(v) && f > d + 1 && r in v.roots(f) && s in v.roots(f)
    requires WeightBy(v, YesVoters(v, r, f, subject, d)) >= v.vv.Quorum()
    ensures WeightBy(v, NoVoters(v, s, f, subject, d)) < WeightBy(v, YesVoters(v, s, f, subject, d))
    ensures WeightBy(v, NoVoters(v, s, f, subject, d)) < v.vv.Quorum()
  {
    CrossDisjoint(v, r, s, f, subject, d);
    WeightDisjoint(v.vv, CreatorsOf(v, YesVoters(v, r, f, subject, d)), CreatorsOf(v, NoVoters(v, s, f, subject, d)));
    VotersSplit(v, s, f, subject, d);
    QuorumBounds(v.vv);
    assert v.vv.HasQuorum(CreatorsOf(v, SeenBy(v, s, f - 1)));
  }

  /** When one root sees a quorum of no votes, every root of its frame sees more no than yes. */
  lemma NoQuorumWins(v: View, r: EventId, s: EventId, f: nat, subject: ValidatorId, d: nat)
    requires Sound(v) && f > d + 1 && r in v.roots(f) && s in v.roots(f)
    requires WeightBy(v, NoVoters(v, r, f, subject, d)) >= v.vv.Quorum()
    ensures WeightBy(v, YesVoters(v, s, f, subject, d)) < WeightBy(v, NoVoters(v, s, f, subject, d))
    ensures WeightBy(v, YesVoters(v, s, f, subject, d)) < v.vv.Quorum()
  {
    CrossDisjoint(v, s, r, f, subject, d);
    WeightDisjoint(v.vv, CreatorsOf(v, YesVoters(v, s, f, subject, d)), CreatorsOf(v, NoVoters(v, r, f, subject, d)));
    VotersSplit(v, s, f, subject, d);
    QuorumBounds(v.vv);
    assert v.vv.HasQuorum(CreatorsOf(v, SeenBy(v, s, f - 1)));
  }

  /** Every root of frame f votes `yes` on the subject. */
  ghost predicate Unanimous(v: View, f: nat, subject: ValidatorId, d: nat, yes: bool)
    requires f > d
  {
    forall r :: r in v.roots(f) ==> Yes(v, r, f, subject, d) == yes
  }

  /** Every root of frame f decides the subject. */
  ghost predicate AllDecide(v: View, f: nat, subject: ValidatorId, d: nat)
    requires f > d
  {
    forall r :: r in v.roots(f) ==> Decides(v, r, f, subject, d)
  }

  /** Unanimity is inherited by the next frame, whose roots all decide. */
  lemma UnanimityStep(v: View, f: nat, subject: ValidatorId, d: nat, yes: bool)
    requires Sound(v) && f > d && f >= 1 && Unanimous(v, f, subject, d, yes)
    ensures Unanimous(v, f + 1, subject, d, yes)
    ensures AllDecide(v, f + 1, subject, d)
  {
    var next := f + 1;
    forall r | r in v.roots(next)
      ensures Yes(v, r, next, subject, d) == yes && Decides(v, r, next, subject, d)
    {
      VotersSplit(v, r, next, subject, d);
      QuorumBounds(v.vv);
      assert v.vv.HasQuorum(CreatorsOf(v, SeenBy(v, r, f)));
      var none := if yes then NoVoters(v, r, next, subject, d) else YesVoters(v, r, next, subject, d);
      assert none == {};
      assert CreatorsOf(v, none) == {};
      WeightDisjointUpTo(v.vv, {}, |v.vv.sorted|);
    }
  }

  lemma {:induction false} UnanimityForever(v: View, f: nat, g: nat, subject: ValidatorId, d: nat, yes: bool)
    requires Sound(v) && d < f <= g && f >= 1 && Unanimous(v, f, subject, d, yes)
    ensures Unanimous(v, g, subject, d, yes)
    decreases g - f
  {
    if f < g {
      UnanimityStep(v, f, subject, d, yes);
      UnanimityForever(v, f + 1, g, subject, d, yes);
    }
  }

  /** Once a root of frame f decides, every root of frame f votes the same way. */
  lemma DecisionIsUnanimous(v: View, r: EventId, f: nat, subject: ValidatorId, d: nat)
    requires Sound(v) && f > d && r in v.roots(f) && Decides(v, r, f, subject, d)
    ensures Unanimous(v, f, subject, d, Yes(v, r, f, subject, d))
  {
    if WeightBy(v, YesVoters(v, r, f, subject, d)) >= v.vv.Quorum() {
      forall s | s in v.roots(f) ensures Yes(v, s, f, subject, d) {
        YesQuorumWins(v, r, s, f, subject, d);
      }
    } else {
      forall s | s in v.roots(f) ensures !Yes(v, s, f, subject, d) {
        NoQuorumWins(v, r, s, f, subject, d);
      }
    }
  }

  /** Agreement on a subject: any two decisions, at any frames, by any roots, are the same. */
  lemma DecisionsAgree(v: View, r: EventId, f: nat, s: EventId, g: nat, subject: ValidatorId, d: nat)
    requires Sound(v) && f > d && g > d && r in v.roots(f) && s in v.roots(g)
    requires Decides(v, r, f, subject, d) && Decides(v, s, g, subject, d)
    ensures Yes(v, r, f, subject, d) == Yes(v, s, g, subject, d)
  {
    DecisionIsUnanimous(v, r, f, subject, d);
    DecisionIsUnanimous(v, s, g, subject, d);
    if f <= g {
      UnanimityForever(v, f, g, subject, d, Yes(v, r, f, subject, d));
    } else {
      UnanimityForever(v, g, f, subject, d, Yes(v, s, g, subject, d));
    }
  }

  // ---------------------------------------------------------------- which root a yes vote names

  /** x is the root of `subject` at frame d that somebody sees. */
  ghost predicate Candidate(v: View, x: EventId, subject: ValidatorId, d: nat) {
    x in v.roots(d) && v.creator(x) == subject && exists a :: v.sees(a, x)
  }

  lemma CandidateUnique(v: View, x: EventId, y: EventId, subject: ValidatorId, d: nat)
    requires Sound(v) && Candidate(v, x, subject, d) && Candidate(v, y, subject, d)
    ensures x == y
  {
    var a :| v.sees(a, x);
    var b :| v.sees(b, y);
  }

  /** A yes vote past the first round rests on a yes voter. */
  lemma YesHasVoter(v: View, r: EventId, f: nat, subject: ValidatorId, d: nat) returns (x: EventId)
    requires Sound(v) && f > d + 1 && r in v.roots(f) && Yes(v, r, f, subject, d)
    ensures x in YesVoters(v, r, f, subject, d)
  {
    VotersSplit(v, r, f, subject, d);
    QuorumBounds(v.vv);
    assert v.vv.HasQuorum(CreatorsOf(v, SeenBy(v, r, f - 1)));
    var yes := YesVoters(v, r, f, subject, d);
    if yes == {} {
      assert CreatorsOf(v, yes) == {};
      WeightDisjointUpTo(v.vv, {}, |v.vv.sorted|);
      assert false;
    }
    x :| x in yes;
  }

  // ---------------------------------------------------------------- some subject is never voted down

  /** The roots of frame f that somebody sees. */
  ghost predicate Seen(v: View, x: EventId, f: nat) {
    x in v.roots(f) && exists a :: v.sees(a, x)
  }

  /** u's seen root of frame d + 1 votes no on w. */
  ghost predicate Misses(v: View, d: nat, u: ValidatorId, w: ValidatorId) {
    exists x :: Seen(v, x, d + 1) && v.creator(x) == u && !Yes(v, x, d + 1, w, d)
  }

  /** First-round roots each miss at most what a quorum leaves out. */
  lemma FirstRoundMisses(v: View, d: nat, misses: (ValidatorId, ValidatorId) -> bool, i: nat)
    requires Sound(v) && d >= 1 && i < v.vv.Len()
    requires forall u, w :: misses(u, w) <==> Misses(v, d, u, w)
    ensures MissedBy(v.vv, misses, i, v.vv.Len()) <= v.vv.totalWeight - v.vv.Quorum()
  {
    var u := v.vv.sorted[i].id;
    QuorumBounds(v.vv);
    TotalPositive(v.vv);
    if x :| Seen(v, x, d + 1) && v.creator(x) == u {
      var seen := CreatorsOf(v, SeenBy(v, x, d));
      assert v.vv.HasQuorum(seen);
      var missed := set w | w in v.vv.indexes.Keys && w !in seen;
      forall w ensures misses(u, w) <==> w !in seen {
        assert Misses(v, d, u, w) <==> !Yes(v, x, d + 1, w, d) by {
          var a :| v.sees(a, x);
          forall y | Seen(v, y, d + 1) && v.creator(y) == u ensures y == x {
            var b :| v.sees(b, y);
          }
        }
      }
      MissedIsWeight(v.vv, misses, i, missed, v.vv.Len());
      WeightDisjoint(v.vv, seen, missed);
    } else {
      MissedNone(v.vv, misses, i, v.vv.Len());
    }
  }

  lemma {:induction false} MissedIsWeight(
    g: Group, misses: (ValidatorId, ValidatorId) -> bool, i: nat, missed: set<ValidatorId>, m: nat)
    requires g.Valid() && i < g.Len() && m <= g.Len()
    requires forall w :: w in g.indexes.Keys ==> (misses(g.sorted[i].id, w) <==> w in missed)
    ensures MissedBy(g, misses, i, m) == g.WeightUpTo(missed, m)
  {
    if m > 0 {
      MissedIsWeight(g, misses, i, missed, m - 1);
    }
  }

  lemma {:induction false} MissedNone(g: Group, misses: (ValidatorId, ValidatorId) -> bool, i: nat, m: nat)
    requires i < g.Len() && m <= g.Len()
    requires forall w :: !misses(g.sorted[i].id, w)
    ensures MissedBy(g, misses, i, m) == 0
  {
    if m > 0 {
      MissedNone(g, misses, i, m - 1);
    }
  }

  lemma {:induction false} MissingIsWeight(
    g: Group, misses: (ValidatorId, ValidatorId) -> bool, j: nat, missing: set<ValidatorId>, n: nat)
    requires g.Valid() && j < g.Len() && n <= g.Len()
    requires forall u :: u in g.indexes.Keys ==> (misses(u, g.sorted[j].id) <==> u in missing)
    ensures Missing(g, misses, j, n) == g.WeightUpTo(missing, n)
  {
    if n > 0 {
      MissingIsWeight(g, misses, j, missing, n - 1);
    }
  }

  /** By double counting, some subject is missed by so few first-round roots that no second-round root votes it down. */
  lemma SafeSubject(v: View, d: nat) returns (subject: ValidatorId)
    requires Sound(v) && d >= 1
    ensures v.vv.Exists(subject)
    ensures Unanimous(v, d + 2, subject, d, true)
  {
    var misses := (u: ValidatorId, w: ValidatorId) => Misses(v, d, u, w);
    QuorumBounds(v.vv);
    TotalPositive(v.vv);
    var cap := v.vv.totalWeight - v.vv.Quorum();
    forall i | 0 <= i < v.vv.Len() ensures MissedBy(v.vv, misses, i, v.vv.Len()) <= cap {
      FirstRoundMisses(v, d, misses, i);
    }
    var j := DoubleCount(v.vv, misses, cap);
    subject := v.vv.sorted[j].id;
    var missing := set u | u in v.vv.indexes.Keys && Misses(v, d, u, subject);
    MissingIsWeight(v.vv, misses, j, missing, v.vv.Len());
    var second := d + 2;
    forall r | r in v.roots(second) ensures Yes(v, r, second, subject, d) {
      FewNoVotes(v, r, d, subject, missing);
    }
  }

  lemma FewNoVotes(v: View, r: EventId, d: nat, subject: ValidatorId, missing: set<ValidatorId>)
    requires Sound(v) && d >= 1 && r in v.roots(d + 2)
    requires forall u :: u in v.vv.indexes.Keys && Misses(v, d, u, subject) ==> u in missing
    requires v.vv.WeightOf(missing) <= v.vv.totalWeight - v.vv.Quorum()
    ensures Yes(v, r, d + 2, subject, d)
  {
    var no := NoVoters(v, r, d + 2, subject, d);
    forall u | u in CreatorsOf(v, no) ensures u in missing {
      var x :| x in no && v.creator(x) == u;
      assert Seen(v, x, d + 1) by { assert v.sees(r, x); }
    }
    WeightMono(v.vv, CreatorsOf(v, no), missing);
    VotersSplit(v, r, d + 2, subject, d);
    QuorumBounds(v.vv);
    assert v.vv.HasQuorum(CreatorsOf(v, SeenBy(v, r, d + 1)));
  }

  /** No root of any frame ever decides every subject as no: one subject stays undecided or is decided yes. */
  lemma NeverAllNo(v: View, d: nat) returns (subject: ValidatorId)
    requires Sound(v) && d >= 1
    ensures v.vv.Exists(subject)
    ensures forall f, r :: f > d && r in v.roots(f) && Decides(v, r, f, subject, d) ==> Yes(v, r, f, subject, d)
  {
    subject := SafeSubject(v, d);
    forall f, r | f > d && r in v.roots(f) && Decides(v, r, f, subject, d) ensures Yes(v, r, f, subject, d) {
      UnanimityForever(v, d + 2, f, subject, d, true);
    }
  }
}
