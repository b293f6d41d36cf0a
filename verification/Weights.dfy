/** Building a validator group from weights, downscaling big weights, and counting weight (package inter/pos). */
module Weights {
  import opened Validators
  import opened Basics

  /** ValidatorsBuilder: pending weights by ID, never zero. */
  type Builder = map<ValidatorId, nat>

  function SetWeight(values: Builder, id: ValidatorId, weight: nat): Builder {
    if weight == 0 then values - {id} else values[id := weight]
  }

  /** The exact (unbounded) sum of a builder's weights. */
  ghost function SumMap(values: Builder): nat {
    if values == map[] then 0
    else
      var id :| id in values;
      values[id] + SumMap(values - {id})
  }

  lemma {:induction false} SumMapRemove(values: Builder, id: ValidatorId)
    requires id in values
    ensures SumMap(values) == values[id] + SumMap(values - {id})
    decreases |values|
  {
    var picked :| picked in values && SumMap(values) == values[picked] + SumMap(values - {picked});
    if picked != id {
      SumMapRemove(values - {picked}, id);
      SumMapRemove(values - {id}, picked);
      assert values - {picked} - {id} == values - {id} - {picked};
    }
  }

  lemma SumMapSet(values: Builder, id: ValidatorId, weight: nat)
    requires id !in values
    ensures SumMap(SetWeight(values, id, weight)) == SumMap(values) + weight
  {
    assert values - {id} == values;
    if weight != 0 {
      SumMapRemove(values[id := weight], id);
      assert values[id := weight] - {id} == values;
    }
  }

  /** s lists every entry of the builder once, in the deterministic order. */
  ghost predicate IsListing(s: seq<Validator>, values: Builder) {
    && Ascending(s)
    && (forall i :: 0 <= i < |s| ==> s[i].id in values && values[s[i].id] == s[i].weight)
    && (forall id :: id in values ==> Validator(id, values[id]) in s)
  }

  lemma ListingInit(s: seq<Validator>, values: Builder)
    requires IsListing(s, values) && |s| > 0
    ensures IsListing(s[..|s| - 1], values - {s[|s| - 1].id})
  {
    var last, rest := s[|s| - 1], s[..|s| - 1];
    assert s == rest + [last];
    assert forall i :: 0 <= i < |rest| ==> rest[i] == s[i] && Less(s[i], last) && s[i].id != last.id;
    forall id | id in values - {last.id} ensures Validator(id, values[id]) in rest {
      assert Validator(id, values[id]) in s;
    }
  }

  lemma {:induction false} ListingSum(s: seq<Validator>, values: Builder)
    requires IsListing(s, values)
    ensures SumUpTo(s, |s|) == SumMap(values)
    decreases |s|
  {
    if |s| == 0 {
      assert values.Keys == {};
    } else {
      var last, rest := s[|s| - 1], s[..|s| - 1];
      assert IsListing(rest, values - {last.id}) by { ListingInit(s, values); }
      ListingSum(rest, values - {last.id});
      SumMapRemove(values, last.id);
      assert SumUpTo(s, |rest|) == SumUpTo(rest, |rest|) by { SumUpToPrefix(s, rest, |rest|); }
    }
  }

  lemma {:induction false} SumUpToPrefix(s: seq<Validator>, t: seq<Validator>, n: nat)
    requires n <= |s| && n <= |t| && s[..n] == t[..n]
    ensures SumUpTo(s, n) == SumUpTo(t, n)
  {
    if n > 0 {
      assert s[n - 1] == s[..n][n - 1] == t[..n][n - 1] == t[n - 1];
      assert s[..n - 1] == s[..n][..n - 1] == t[..n][..n - 1] == t[..n - 1];
      SumUpToPrefix(s, t, n - 1);
    }
  }

  /** The listing is unique, so Go's random map order never shows in the sorted array. */
  lemma {:induction false} ListingUnique(s: seq<Validator>, t: seq<Validator>, values: Builder)
    requires IsListing(s, values) && IsListing(t, values)
    ensures s == t
    decreases |s|
  {
    if |s| == 0 {
      assert values == map[];
      assert t == [];
    } else {
      var a := s[0];
      assert a in t;
      assert |t| > 0;
      var b := t[0];
      assert b in s;
      assert a == b;
      assert s == [a] + s[1..] && t == [a] + t[1..];
      ListingUnique(s[1..], t[1..], values - {a.id});
    }
  }

  lemma {:induction false} SumMonotone(s: seq<Validator>, n: nat, m: nat)
    requires n <= m <= |s|
    ensures SumUpTo(s, n) <= SumUpTo(s, m)
    decreases m - n
  {
    if n < m {
      SumMonotone(s, n, m - 1);
    }
  }

  /** s lists the entries of the builder whose ID is in `done`. */
  ghost predicate Listed(s: seq<Validator>, values: Builder, done: set<ValidatorId>) {
    && (forall i :: 0 <= i < |s| ==> s[i].id in values && s[i].id in done && values[s[i].id] == s[i].weight)
    && (forall id :: id in values && id in done ==> Validator(id, values[id]) in s)
  }

  function Insert(s: seq<Validator>, v: Validator, k: nat): seq<Validator>
    requires k <= |s|
  {
    s[..k] + [v] + s[k..]
  }

  lemma InsertAscending(s: seq<Validator>, v: Validator, k: nat)
    requires Ascending(s) && k <= |s|
    requires (forall i :: 0 <= i < k ==> Less(s[i], v)) && (k < |s| ==> Less(v, s[k]))
    ensures Ascending(Insert(s, v, k))
  {
    var t := Insert(s, v, k);
    forall i, j | 0 <= i < j < |t| ensures Less(t[i], t[j]) {
      if i == k {
        assert j - 1 == k || Less(s[k], s[j - 1]);
      }
    }
  }

  lemma InsertListed(s: seq<Validator>, v: Validator, k: nat, values: Builder, done: set<ValidatorId>)
    requires k <= |s| && Listed(s, values, done)
    requires v.id in values && values[v.id] == v.weight
    ensures Listed(Insert(s, v, k), values, done + {v.id})
  {
    var t := Insert(s, v, k);
    forall id | id in values && id in done + {v.id} ensures Validator(id, values[id]) in t {
      if id == v.id {
        assert t[k] == v;
      } else {
        var i :| 0 <= i < |s| && s[i] == Validator(id, values[id]);
        assert t[if i < k then i else i + 1] == s[i];
      }
    }
  }

  /** sortedArray: gathers the entries in any order and sorts them. */
  method SortedArray(values: Builder) returns (s: seq<Validator>)
    ensures IsListing(s, values)
  {
    s := [];
    var rest := values.Keys;
    while rest != {}
      invariant rest <= values.Keys
      invariant Ascending(s) && Listed(s, values, values.Keys - rest)
      decreases rest
    {
      var id :| id in rest;
      var v := Validator(id, values[id]);
      var k := 0;
      while k < |s| && Less(s[k], v)
        invariant 0 <= k <= |s|
        invariant forall i :: 0 <= i < k ==> Less(s[i], v)
      {
        k := k + 1;
      }
      assert k < |s| ==> s[k].id != id;
      InsertAscending(s, v, k);
      InsertListed(s, v, k, values, values.Keys - rest);
      assert values.Keys - rest + {id} == values.Keys - (rest - {id});
      s := Insert(s, v, k);
      rest := rest - {id};
    }
  }

  /** The comparison of calcCaches catches every 32-bit wrap. */
  lemma WrapIsCaught(total: nat, weight: nat)
    requires total < UINT32 && weight < UINT32
    ensures Add32(total, weight) < total <==> total + weight >= UINT32
    ensures total + weight < UINT32 ==> Add32(total, weight) == total + weight
  {
  }

  ghost predicate IndexesOf(sorted: seq<Validator>, n: nat, indexes: map<ValidatorId, nat>)
    requires n <= |sorted|
  {
    && (forall j :: 0 <= j < n ==> sorted[j].id in indexes && indexes[sorted[j].id] == j)
    && (forall id :: id in indexes ==> indexes[id] < n && sorted[indexes[id]].id == id)
  }

  lemma IndexesNext(sorted: seq<Validator>, values: Builder, i: nat, indexes: map<ValidatorId, nat>)
    requires IsListing(sorted, values) && i < |sorted| && IndexesOf(sorted, i, indexes)
    ensures IndexesOf(sorted, i + 1, indexes[sorted[i].id := i])
  {
    assert forall j :: 0 <= j < i ==> Less(sorted[j], sorted[i]) && sorted[j].id != sorted[i].id;
  }

  /** calcCaches: None is the "validators weight overflow" panic. */
  method CalcCaches(sorted: seq<Validator>, ghost values: Builder) returns (r: Option<Group>)
    requires IsListing(sorted, values)
    requires forall i :: 0 <= i < |sorted| ==> 0 < sorted[i].weight < UINT32
    ensures r.Some? <==> SumUpTo(sorted, |sorted|) <= 0x7FFF_FFFF
    ensures r.Some? ==> r.value.Valid() && r.value.sorted == sorted
  {
    var indexes: map<ValidatorId, nat> := map[];
    var total := 0;
    for i := 0 to |sorted|
      invariant total == SumUpTo(sorted, i) < UINT32
      invariant IndexesOf(sorted, i, indexes)
    {
      IndexesNext(sorted, values, i, indexes);
      WrapIsCaught(total, sorted[i].weight);
      indexes := indexes[sorted[i].id := i];
      var before := total;
      total := Add32(total, sorted[i].weight);
      if total < before {
        SumMonotone(sorted, i + 1, |sorted|);
        return None;
      }
    }
    if total > MAX_TOTAL {
      return None;
    }
    r := Some(Group(sorted, indexes, total));
  }

  /** Build (newValidators): succeeds exactly when the exact sum of the weights is within the limit. */
  method Build(values: Builder) returns (r: Option<Group>)
    requires forall id :: id in values ==> 0 < values[id] < UINT32
    ensures r.Some? <==> SumMap(values) <= 0x7FFF_FFFF
    ensures r.Some? ==> r.value.Valid() && IsListing(r.value.sorted, values) && r.value.totalWeight == SumMap(values)
  {
    var sorted := SortedArray(values);
    ListingSum(sorted, values);
    r := CalcCaches(sorted, values);
  }

  /** One map of weights gives one group, however the map is iterated. */
  lemma GroupUnique(g1: Group, g2: Group, values: Builder)
    requires g1.Valid() && g2.Valid() && IsListing(g1.sorted, values) && IsListing(g2.sorted, values)
    ensures g1 == g2
  {
    hide IsListing, Ascending, SumUpTo;
    ListingUnique(g1.sorted, g2.sorted, values);
    forall id | id in g1.indexes ensures id in g2.indexes && g2.indexes[id] == g1.indexes[id] {
      assert g1.sorted[g1.indexes[id]].id == id;
    }
    assert g1.indexes.Keys == g2.indexes.Keys by {
      forall id | id in g2.indexes ensures id in g1.indexes {
        assert g2.sorted[g2.indexes[id]].id == id;
      }
    }
  }

  // ---------------------------------------------------------------- big weights

  function BitLen(n: nat): nat {
    if n == 0 then 0 else 1 + BitLen(n / 2)
  }

  function Pow2(k: nat): (r: nat)
    ensures r > 0
  {
    if k == 0 then 1 else 2 * Pow2(k - 1)
  }

  function Shift(total: nat): nat {
    if BitLen(total) > 31 then BitLen(total) - 31 else 0
  }

  /** Rsh: k halvings. */
  function ShiftRight(n: nat, k: nat): nat {
    if k == 0 then n else ShiftRight(n / 2, k - 1)
  }

  lemma {:induction false} ShiftRightBound(n: nat, k: nat)
    ensures Pow2(k) * ShiftRight(n, k) <= n
  {
    if k > 0 {
      ShiftRightBound(n / 2, k - 1);
      Reassociate(2, Pow2(k - 1), ShiftRight(n / 2, k - 1));
    }
  }

  lemma Reassociate(a: nat, b: nat, c: nat)
    ensures (a * b) * c == a * (b * c)
  {
  }

  lemma {:induction false} BitLenBound(n: nat)
    ensures n < Pow2(BitLen(n))
  {
    if n > 0 {
      BitLenBound(n / 2);
    }
  }

  lemma {:induction false} Pow2Add(a: nat, b: nat)
    ensures Pow2(a + b) == Pow2(a) * Pow2(b)
  {
    if a > 0 {
      Pow2Add(a - 1, b);
      Reassociate(2, Pow2(a - 1), Pow2(b));
    }
  }

  lemma {:induction false} Pow2Mono(a: nat, b: nat)
    requires a <= b
    ensures Pow2(a) <= Pow2(b)
  {
    if a < b {
      Pow2Mono(a, b - 1);
    }
  }

  lemma {:induction false} BitLenLow(n: nat)
    requires n > 0
    ensures Pow2(BitLen(n) - 1) <= n
  {
    if n > 1 {
      BitLenLow(n / 2);
    }
  }

  /** The least number of halvings that brings the total below 2^31. */
  ghost predicate LeastShift(total: nat, k: nat) {
    total < 0x8000_0000 * Pow2(k) && (k > 0 ==> 0x8000_0000 * Pow2(k - 1) <= total)
  }

  lemma ShiftIsLeast(total: nat)
    ensures LeastShift(total, Shift(total))
  {
    var k := Shift(total);
    BitLenBound(total);
    Pow2Value();
    if k > 0 {
      BitLenLow(total);
      Pow2Add(31, k);
      Pow2Add(31, k - 1);
    } else {
      Pow2Mono(BitLen(total), 31);
    }
  }

  lemma LeastShiftOnce(total: nat, j: nat, k: nat)
    requires LeastShift(total, j) && LeastShift(total, k)
    ensures j == k
  {
    if j < k {
      Pow2Mono(j, k - 1);
    } else if k < j {
      Pow2Mono(k, j - 1);
    }
  }

  lemma DivIs(n: nat, d: nat, q: nat)
    requires d > 0 && d * q <= n < d * q + d
    ensures n / d == q
  {
    var p := n / d;
    assert n == d * p + n % d;
    if p < q {
      Distribute(d, p, q - p);
    } else if p > q {
      Distribute(d, q, p - q);
    }
  }

  lemma {:induction false} ShiftRightDivides(n: nat, k: nat)
    ensures ShiftRight(n, k) == n / Pow2(k)
  {
    if k > 0 {
      var m, p := n / 2, Pow2(k - 1);
      ShiftRightDivides(m, k - 1);
      var q := m / p;
      assert m == p * q + m % p;
      Reassociate(2, p, q);
      DivIs(n, 2 * p, q);
    }
  }

  /** Any total fits in 31 bits after its shift: what is left is below 2^31. */
  lemma ShiftFits(total: nat, scaled: nat)
    requires Pow2(Shift(total)) * scaled <= total
    ensures scaled <= MAX_TOTAL
  {
    BitLenBound(total);
    Pow2Value();
    var p := Pow2(Shift(total));
    if BitLen(total) > 31 {
      Pow2Add(Shift(total), 31);
    } else {
      Pow2Mono(BitLen(total), 31);
      assert p == 1;
    }
    SmallerFactor(p, scaled, Pow2(31));
  }

  lemma SmallerFactor(p: nat, a: nat, b: nat)
    requires p * a < p * b
    ensures a < b
  {
    if a > b {
      Distribute(p, b, a - b);
      assert false;
    }
  }

  lemma Pow2Value()
    ensures Pow2(31) == MAX_TOTAL + 1
  {
    assert Pow2(8) == 256;
    assert Pow2(16) == 0x1_0000;
    assert Pow2(24) == 0x100_0000;
  }

  /** Every entry outside `rest` shifted right, entries that vanish dropped. */
  ghost predicate Downscaled(values: Builder, shift: nat, rest: set<ValidatorId>, scaled: Builder) {
    && (forall id :: id in scaled <==> id in values && id !in rest && ShiftRight(values[id], shift) > 0)
    && (forall id :: id in scaled ==> scaled[id] == ShiftRight(values[id], shift))
  }

  /** TotalWeight of big weights: the sum does not depend on the iteration order. */
  method TotalWeight(values: Builder) returns (res: nat)
    ensures res == SumMap(values)
  {
    res := 0;
    var rest := values;
    while rest != map[]
      invariant res + SumMap(rest) == SumMap(values)
      invariant forall id :: id in rest ==> id in values && rest[id] == values[id]
      decreases |rest|
    {
      var id :| id in rest;
      SumMapRemove(rest, id);
      res := res + values[id];
      rest := rest - {id};
    }
  }

  /** Scaled back up, the weights so far and those to come weigh no more than all weights. */
  ghost predicate Bounded(values: Builder, shift: nat, rest: Builder, scaled: Builder) {
    Pow2(shift) * SumMap(scaled) + SumMap(rest) <= SumMap(values)
  }

  lemma DownscaleStart(values: Builder, shift: nat)
    ensures Downscaled(values, shift, values.Keys, map[]) && Bounded(values, shift, values, map[])
  {
    hide Pow2;
  }

  lemma DownscaleMore(values: Builder, shift: nat, rest: set<ValidatorId>, scaled: Builder, id: ValidatorId)
    requires id in rest && id in values && Downscaled(values, shift, rest, scaled)
    ensures Downscaled(values, shift, rest - {id}, SetWeight(scaled, id, ShiftRight(values[id], shift)))
    ensures id !in scaled
  {
    hide ShiftRight;
  }

  lemma BoundedMore(values: Builder, shift: nat, rest: Builder, scaled: Builder, id: ValidatorId, weight: nat)
    requires id in rest && id !in scaled && Bounded(values, shift, rest, scaled) && Pow2(shift) * weight <= rest[id]
    ensures Bounded(values, shift, rest - {id}, SetWeight(scaled, id, weight))
  {
    hide Pow2, SumMap, SetWeight;
    SumMapRemove(rest, id);
    SumMapSet(scaled, id, weight);
    Distribute(Pow2(shift), SumMap(scaled), weight);
  }

  lemma DownscaleStep(values: Builder, shift: nat, rest: Builder, scaled: Builder, id: ValidatorId)
    requires id in rest && id in values && rest[id] == values[id]
    requires Downscaled(values, shift, rest.Keys, scaled) && Bounded(values, shift, rest, scaled)
    requires shift == Shift(SumMap(values))
    ensures ShiftRight(values[id], shift) <= MAX_TOTAL
    ensures Downscaled(values, shift, rest.Keys - {id}, SetWeight(scaled, id, ShiftRight(values[id], shift)))
    ensures Bounded(values, shift, rest - {id}, SetWeight(scaled, id, ShiftRight(values[id], shift)))
  {
    hide *;
    var weight := ShiftRight(values[id], shift);
    ShiftRightBound(values[id], shift);
    SumMapRemove(values, id);
    ShiftFits(SumMap(values), weight);
    DownscaleMore(values, shift, rest.Keys, scaled, id);
    BoundedMore(values, shift, rest, scaled, id, weight);
  }

  lemma BoundedFits(values: Builder, scaled: Builder)
    requires Bounded(values, Shift(SumMap(values)), map[], scaled)
    ensures SumMap(scaled) <= MAX_TOTAL
  {
    hide Pow2, Shift;
    ShiftFits(SumMap(values), SumMap(scaled));
  }

  lemma Distribute(p: nat, a: nat, b: nat)
    ensures p * (a + b) == p * a + p * b
  {
  }

  /** The weights divided by 2^k, without those that vanish. */
  ghost predicate DividedBy(values: Builder, k: nat, scaled: Builder) {
    && (forall id :: id in scaled <==> id in values && values[id] / Pow2(k) > 0)
    && (forall id :: id in scaled ==> scaled[id] == values[id] / Pow2(k))
  }

  lemma DownscaledDivides(values: Builder, k: nat, scaled: Builder)
    requires Downscaled(values, k, {}, scaled)
    ensures DividedBy(values, k, scaled)
  {
    hide ShiftRight, Pow2;
    forall id | id in values ensures ShiftRight(values[id], k) == values[id] / Pow2(k) {
      ShiftRightDivides(values[id], k);
    }
  }

  /**
   ValidatorsBigBuilder.Build: the weights are divided by the least power of two that brings their sum below 2^31,
   which never overflows.
   */
  method BuildBig(values: Builder) returns (r: Option<Group>)
    ensures r.Some? && r.value.Valid()
    ensures exists k, scaled ::
              LeastShift(SumMap(values), k) && DividedBy(values, k, scaled) && IsListing(r.value.sorted, scaled)
  {
    hide Pow2, ShiftRight, Shift, LeastShift, DividedBy, IsListing, SumMap, Downscaled, Bounded;
    var total := TotalWeight(values);
    var shift := Shift(total);
    var builder: Builder := map[];
    var rest := values;
    DownscaleStart(values, shift);
    while rest != map[]
      invariant rest.Keys <= values.Keys && forall id :: id in rest ==> rest[id] == values[id]
      invariant Downscaled(values, shift, rest.Keys, builder) && Bounded(values, shift, rest, builder)
      invariant forall id :: id in builder ==> 0 < builder[id] < UINT32
      decreases |rest|
    {
      var id :| id in rest;
      var weight := ShiftRight(values[id], shift);
      DownscaleStep(values, shift, rest, builder, id);
      var truncated := weight % UINT32;
      assert truncated == weight;
      builder := SetWeight(builder, id, truncated);
      rest := rest - {id};
    }
    BoundedFits(values, builder);
    ShiftIsLeast(total);
    DownscaledDivides(values, shift, builder);
    r := Build(builder);
  }

  // ---------------------------------------------------------------- counters

  /** WeightCounter: accumulates the weight of distinct validators. */
  class WeightCounter {
    const group: Group
    const quorum: nat
    var already: seq<bool>
    var sum: nat

    ghost predicate Valid()
      reads this
    {
      && group.Valid() && quorum == group.Quorum()
      && |already| == group.Len()
      && sum == group.WeightOf(Counted())
    }

    /** The validators counted so far. */
    ghost function Counted(): set<ValidatorId>
      requires |already| == group.Len()
      reads this
    {
      set i | 0 <= i < |already| && already[i] :: group.sorted[i].id
    }

    constructor (g: Group)
      requires g.Valid()
      ensures Valid() && group == g && Counted() == {}
    {
      group := g;
      quorum := g.Quorum();
      already := seq(g.Len(), _ => false);
      sum := 0;
      new;
      WeightDisjointUpTo(group, {}, |group.sorted|);
      assert Counted() == {};
    }

    /** Counts a validator once; true if it had not been counted. The 32-bit sum never wraps. */
    method CountByIdx(i: nat) returns (counted: bool)
      requires Valid() && i < group.Len()
      modifies this
      ensures Valid()
      ensures counted <==> group.GetID(i) !in old(Counted())
      ensures Counted() == old(Counted()) + {group.GetID(i)}
    {
      assert already[i] <==> group.GetID(i) in Counted() by {
        assert forall j :: 0 <= j < |already| && group.sorted[j].id == group.sorted[i].id ==> j == i by {
          assert forall j :: 0 <= j < |already| ==> group.indexes[group.sorted[j].id] == j;
        }
      }
      if already[i] {
        assert Counted() == old(Counted()) + {group.GetID(i)};
        return false;
      }
      WeightAdd(group, Counted(), i);
      already := already[i := true];
      sum := Add32(sum, group.GetWeightByIdx(i));
      assert Counted() == old(Counted()) + {group.GetID(i)} by {
        forall v | v in old(Counted()) ensures v in Counted() {
          var j :| 0 <= j < |old(already)| && old(already)[j] && group.sorted[j].id == v;
          assert already[j];
        }
        assert already[i];
      }
      return true;
    }

    /** Count by ID; an ID outside the group is counted as the first validator. */
    method Count(id: ValidatorId) returns (counted: bool)
      requires Valid() && group.Len() > 0
      modifies this
      ensures Valid()
      ensures counted <==> group.GetID(group.GetIdx(id)) !in old(Counted())
      ensures Counted() == old(Counted()) + {group.GetID(group.GetIdx(id))}
    {
      counted := CountByIdx(group.GetIdx(id));
    }

    predicate HasQuorum()
      requires Valid()
      reads this
      ensures HasQuorum() <==> group.HasQuorum(Counted())
    {
      sum >= quorum
    }
  }
}
