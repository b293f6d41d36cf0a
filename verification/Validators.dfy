/** The weighted validator group of an epoch and its quorum arithmetic (package inter/pos). */
module Validators {

  type ValidatorId = nat

  /** Weights are 32-bit unsigned: sums are taken modulo UINT32. */
  const UINT32: nat := 0x1_0000_0000
  const MAX_TOTAL: nat := (UINT32 - 1) / 2

  function Add32(a: nat, b: nat): nat {
    (a + b) % UINT32
  }

  datatype Validator = Validator(id: ValidatorId, weight: nat)

  /** The deterministic order: heavier first, then the smaller ID. */
  predicate Less(a: Validator, b: Validator) {
    a.weight > b.weight || (a.weight == b.weight && a.id < b.id)
  }

  predicate Ascending(s: seq<Validator>) {
    forall i, j :: 0 <= i < j < |s| ==> Less(s[i], s[j])
  }

  function SumUpTo(s: seq<Validator>, n: nat): nat
    requires n <= |s|
  {
    if n == 0 then 0 else SumUpTo(s, n - 1) + s[n - 1].weight
  }

  datatype Group = Group(sorted: seq<Validator>, indexes: map<ValidatorId, nat>, totalWeight: nat) {

    ghost predicate Valid() {
      && (forall i :: 0 <= i < |sorted| ==>
            sorted[i].weight > 0 && sorted[i].id in indexes && indexes[sorted[i].id] == i)
      && (forall id :: id in indexes ==> indexes[id] < |sorted| && sorted[indexes[id]].id == id)
      && Ascending(sorted)
      && totalWeight == SumUpTo(sorted, |sorted|) <= MAX_TOTAL
    }

    function Len(): nat { |sorted| }

    predicate Exists(id: ValidatorId) { id in indexes }

    /** Offset of a validator; like a Go map, an unknown ID gives 0. */
    function GetIdx(id: ValidatorId): nat {
      if id in indexes then indexes[id] else 0
    }

    function GetID(i: nat): ValidatorId
      requires i < |sorted|
    {
      sorted[i].id
    }

    function GetWeightByIdx(i: nat): nat
      requires i < |sorted|
    {
      sorted[i].weight
    }

    function Quorum(): nat {
      (totalWeight * 2) % UINT32 / 3 + 1
    }

    /** Weight of the validators of `s` among the first n. */
    ghost function WeightUpTo(s: set<ValidatorId>, n: nat): nat
      requires n <= |sorted|
    {
      if n == 0 then 0
      else WeightUpTo(s, n - 1) + if sorted[n - 1].id in s then sorted[n - 1].weight else 0
    }

    /** Weight of a set of validators. */
    ghost function WeightOf(s: set<ValidatorId>): nat {
      WeightUpTo(s, |sorted|)
    }

    ghost predicate HasQuorum(s: set<ValidatorId>) {
      WeightOf(s) >= Quorum()
    }
  }

  // ---------------------------------------------------------------- weights of sets

  lemma {:induction false} WeightUnionUpTo(g: Group, s: set<ValidatorId>, t: set<ValidatorId>, n: nat)
    requires n <= |g.sorted|
    ensures g.WeightUpTo(s + t, n) + g.WeightUpTo(s * t, n) == g.WeightUpTo(s, n) + g.WeightUpTo(t, n)
  {
    if n > 0 {
      WeightUnionUpTo(g, s, t, n - 1);
    }
  }

  lemma WeightUnion(g: Group, s: set<ValidatorId>, t: set<ValidatorId>)
    ensures g.WeightOf(s + t) + g.WeightOf(s * t) == g.WeightOf(s) + g.WeightOf(t)
  {
    WeightUnionUpTo(g, s, t, |g.sorted|);
  }

  lemma {:induction false} WeightMonoUpTo(g: Group, s: set<ValidatorId>, t: set<ValidatorId>, n: nat)
    requires n <= |g.sorted|
    requires forall i :: 0 <= i < n && g.sorted[i].id in s ==> g.sorted[i].id in t
    ensures g.WeightUpTo(s, n) <= g.WeightUpTo(t, n) <= SumUpTo(g.sorted, n)
  {
    if n > 0 {
      WeightMonoUpTo(g, s, t, n - 1);
    }
  }

  lemma WeightMono(g: Group, s: set<ValidatorId>, t: set<ValidatorId>)
    requires g.Valid()
    requires s <= t
    ensures g.WeightOf(s) <= g.WeightOf(t) <= g.totalWeight
  {
    WeightMonoUpTo(g, s, t, |g.sorted|);
  }

  lemma QuorumMono(g: Group, s: set<ValidatorId>, t: set<ValidatorId>)
    requires g.Valid() && g.HasQuorum(s) && s <= t
    ensures g.HasQuorum(t)
  {
    WeightMono(g, s, t);
  }

  lemma {:induction false} WeightDisjointUpTo(g: Group, s: set<ValidatorId>, n: nat)
    requires n <= |g.sorted|
    requires forall i :: 0 <= i < n ==> g.sorted[i].id !in s
    ensures g.WeightUpTo(s, n) == 0
  {
    if n > 0 {
      WeightDisjointUpTo(g, s, n - 1);
    }
  }

  /** Disjoint sets add up, and never exceed the total. */
  lemma WeightDisjoint(g: Group, s: set<ValidatorId>, t: set<ValidatorId>)
    requires g.Valid()
    requires s !! t
    ensures g.WeightOf(s + t) == g.WeightOf(s) + g.WeightOf(t) <= g.totalWeight
  {
    WeightUnion(g, s, t);
    WeightDisjointUpTo(g, s * t, |g.sorted|);
    WeightMono(g, s + t, s + t);
  }

  lemma {:induction false} WeightAddUpTo(g: Group, s: set<ValidatorId>, i: nat, n: nat)
    requires g.Valid() && i < |g.sorted| && n <= |g.sorted|
    requires g.sorted[i].id !in s
    ensures g.WeightUpTo(s + {g.sorted[i].id}, n) == g.WeightUpTo(s, n) + if i < n then g.sorted[i].weight else 0
  {
    if n > 0 {
      WeightAddUpTo(g, s, i, n - 1);
      assert n - 1 != i ==> g.sorted[n - 1].id != g.sorted[i].id by {
        assert g.indexes[g.sorted[n - 1].id] == n - 1 && g.indexes[g.sorted[i].id] == i;
      }
    }
  }

  /** Counting one more validator adds exactly its weight. */
  lemma WeightAdd(g: Group, s: set<ValidatorId>, i: nat)
    requires g.Valid() && i < |g.sorted|
    requires g.sorted[i].id !in s
    ensures g.WeightOf(s + {g.sorted[i].id}) == g.WeightOf(s) + g.sorted[i].weight <= g.totalWeight
  {
    WeightAddUpTo(g, s, i, |g.sorted|);
    WeightMono(g, s + {g.sorted[i].id}, s + {g.sorted[i].id});
  }

  // ---------------------------------------------------------------- quorums

  /** Doubling the total cannot wrap; a quorum is more than 2/3 of the total and reachable. */
  lemma QuorumBounds(g: Group)
    requires g.Valid()
    ensures g.Quorum() == g.totalWeight * 2 / 3 + 1
    ensures 3 * g.Quorum() > 2 * g.totalWeight
    ensures g.totalWeight >= 1 ==> g.Quorum() <= g.totalWeight
  {
    assert g.totalWeight * 2 < UINT32;
  }

  /** Two quorums share more than a third of the weight, and more than what either leaves out. */
  lemma QuorumOverlap(g: Group, s: set<ValidatorId>, t: set<ValidatorId>)
    requires g.Valid() && g.HasQuorum(s) && g.HasQuorum(t)
    ensures g.WeightOf(s * t) >= 2 * g.Quorum() - g.totalWeight
    ensures 3 * g.WeightOf(s * t) > g.totalWeight
    ensures g.WeightOf(s * t) > g.totalWeight - g.Quorum()
  {
    WeightUnion(g, s, t);
    WeightMono(g, s + t, s + t);
    QuorumBounds(g);
  }

  /** A heavier set has a member outside a lighter one. */
  lemma {:induction false} HeavierHasOther(g: Group, s: set<ValidatorId>, t: set<ValidatorId>, n: nat)
    returns (i: nat)
    requires n <= |g.sorted|
    requires g.WeightUpTo(s, n) > g.WeightUpTo(t, n)
    ensures i < n && g.sorted[i].id in s && g.sorted[i].id !in t
  {
    var v := g.sorted[n - 1].id;
    if v in s && v !in t {
      i := n - 1;
    } else {
      i := HeavierHasOther(g, s, t, n - 1);
    }
  }

  /** Two quorums share a validator outside any set holding at most a third of the weight. */
  lemma HonestInBoth(g: Group, s: set<ValidatorId>, t: set<ValidatorId>, bad: set<ValidatorId>)
    returns (v: ValidatorId)
    requires g.Valid() && g.HasQuorum(s) && g.HasQuorum(t)
    requires 3 * g.WeightOf(bad) <= g.totalWeight
    ensures v in s && v in t && v !in bad && g.Exists(v)
  {
    QuorumOverlap(g, s, t);
    var i := HeavierHasOther(g, s * t, bad, |g.sorted|);
    v := g.sorted[i].id;
  }

  // ---------------------------------------------------------------- weighted double count

  /** Sum over j < m of weight(j) times the weight of the first n validators that miss j. */
  ghost function Columns(g: Group, misses: (ValidatorId, ValidatorId) -> bool, n: nat, m: nat): nat
    requires n <= |g.sorted| && m <= |g.sorted|
  {
    if m == 0 then 0
    else Columns(g, misses, n, m - 1) + g.sorted[m - 1].weight * Missing(g, misses, m - 1, n)
  }

  /** Weight of the first n validators that miss validator j. */
  ghost function Missing(g: Group, misses: (ValidatorId, ValidatorId) -> bool, j: nat, n: nat): nat
    requires n <= |g.sorted| && j < |g.sorted|
  {
    if n == 0 then 0
    else Missing(g, misses, j, n - 1)
         + if misses(g.sorted[n - 1].id, g.sorted[j].id) then g.sorted[n - 1].weight else 0
  }

  /** Weight of the first m validators that validator i misses. */
  ghost function MissedBy(g: Group, misses: (ValidatorId, ValidatorId) -> bool, i: nat, m: nat): nat
    requires m <= |g.sorted| && i < |g.sorted|
  {
    if m == 0 then 0
    else MissedBy(g, misses, i, m - 1)
         + if misses(g.sorted[i].id, g.sorted[m - 1].id) then g.sorted[m - 1].weight else 0
  }

  lemma Cross(wm: nat, missing: nat, wn: nat, missed: nat)
    ensures wm * (missing + wn) + wn * missed == wm * missing + wn * (missed + wm)
  {
    assert wm * wn == wn * wm;
  }

  /** One more row adds its weight times what it misses. */
  lemma {:induction false} ColumnsStep(g: Group, misses: (ValidatorId, ValidatorId) -> bool, n: nat, m: nat)
    requires n < |g.sorted| && m <= |g.sorted|
    ensures Columns(g, misses, n + 1, m) == Columns(g, misses, n, m) + g.sorted[n].weight * MissedBy(g, misses, n, m)
  {
    if m > 0 {
      ColumnsStep(g, misses, n, m - 1);
      Cross(g.sorted[m - 1].weight, Missing(g, misses, m - 1, n), g.sorted[n].weight, MissedBy(g, misses, n, m - 1));
    }
  }

  lemma ScaledSum(sum: nat, w: nat, k: nat, cap: nat)
    requires k <= cap
    ensures sum * k + w * k == (sum + w) * k
    ensures sum * cap + w * k <= (sum + w) * cap
    ensures w * k <= w * cap
  {
    assert w * cap == w * k + w * (cap - k);
    assert (sum + w) * cap == sum * cap + w * cap;
  }

  /** If every row misses at most `cap`, the whole double sum is at most total weight times `cap`. */
  lemma {:induction false} RowsBound(g: Group, misses: (ValidatorId, ValidatorId) -> bool, n: nat, cap: nat)
    requires n <= |g.sorted|
    requires forall i :: 0 <= i < n ==> MissedBy(g, misses, i, |g.sorted|) <= cap
    ensures Columns(g, misses, n, |g.sorted|) <= SumUpTo(g.sorted, n) * cap
  {
    if n == 0 {
      ColumnsEmpty(g, misses, |g.sorted|);
    } else {
      RowsBound(g, misses, n - 1, cap);
      ColumnsStep(g, misses, n - 1, |g.sorted|);
      ScaledSum(SumUpTo(g.sorted, n - 1), g.sorted[n - 1].weight, MissedBy(g, misses, n - 1, |g.sorted|), cap);
    }
  }

  lemma {:induction false} ColumnsEmpty(g: Group, misses: (ValidatorId, ValidatorId) -> bool, m: nat)
    requires m <= |g.sorted|
    ensures Columns(g, misses, 0, m) == 0
  {
    if m > 0 {
      ColumnsEmpty(g, misses, m - 1);
    }
  }

  /** If every column is missed by more than `cap`, the double sum exceeds total weight times `cap`. */
  lemma {:induction false} ColumnsBound(g: Group, misses: (ValidatorId, ValidatorId) -> bool, m: nat, cap: nat)
    requires m <= |g.sorted|
    requires forall j :: 0 <= j < m ==> Missing(g, misses, j, |g.sorted|) > cap
    ensures Columns(g, misses, |g.sorted|, m) >= SumUpTo(g.sorted, m) * (cap + 1)
  {
    if m > 0 {
      ColumnsBound(g, misses, m - 1, cap);
      ScaledSum(SumUpTo(g.sorted, m - 1), g.sorted[m - 1].weight, cap + 1, Missing(g, misses, m - 1, |g.sorted|));
      ScaledSum(SumUpTo(g.sorted, m - 1), g.sorted[m - 1].weight, cap + 1, cap + 1);
    }
  }

  /** When every validator misses validators of weight at most `cap`, some validator is missed by at most `cap`. */
  lemma DoubleCount(g: Group, misses: (ValidatorId, ValidatorId) -> bool, cap: nat) returns (j: nat)
    requires g.Valid() && |g.sorted| > 0
    requires forall i :: 0 <= i < |g.sorted| ==> MissedBy(g, misses, i, |g.sorted|) <= cap
    ensures j < |g.sorted| && Missing(g, misses, j, |g.sorted|) <= cap
  {
    if forall j :: 0 <= j < |g.sorted| ==> Missing(g, misses, j, |g.sorted|) > cap {
      RowsBound(g, misses, |g.sorted|, cap);
      ColumnsBound(g, misses, |g.sorted|, cap);
      TotalPositive(g);
      StrictlyMore(g.totalWeight, cap);
      assert false;
    } else {
      j :| 0 <= j < |g.sorted| && Missing(g, misses, j, |g.sorted|) <= cap;
    }
  }

  lemma StrictlyMore(total: nat, cap: nat)
    requires total > 0
    ensures total * (cap + 1) > total * cap
  {
    assert total * (cap + 1) == total * cap + total;
  }

  lemma TotalPositive(g: Group)
    requires g.Valid() && |g.sorted| > 0
    ensures g.totalWeight > 0
  {
    assert g.sorted[|g.sorted| - 1].weight > 0;
  }
}
