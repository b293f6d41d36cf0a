/** The weighted LRU cache (utils/simplewlru): map, recency list and running weight updated together. */
module Lru {
  import opened Basics

  datatype Entry<+V> = Entry(value: V, weight: nat)

  /** The list without one key. */
  function Without<K(==)>(s: seq<K>, key: K): seq<K> {
    if s == [] then [] else (if s[0] == key then [] else [s[0]]) + Without(s[1..], key)
  }

  ghost function WeightSum<K, V>(order: seq<K>, items: map<K, Entry<V>>): nat
    requires forall k :: k in order ==> k in items
  {
    if order == [] then 0 else items[order[0]].weight + WeightSum(order[1..], items)
  }

  lemma {:induction false} WithoutKeeps<K>(s: seq<K>, key: K)
    ensures forall k :: k in Without(s, key) <==> k in s && k != key
    ensures NoDup(s) ==> NoDup(Without(s, key))
    ensures key !in s ==> Without(s, key) == s
    ensures NoDup(s) && key in s ==> |Without(s, key)| + 1 == |s|
    ensures |Without(s, key)| <= |s|
  {
    if s != [] {
      assert s == [s[0]] + s[1..];
      WithoutKeeps(s[1..], key);
      if NoDup(s) {
        assert NoDup(s[1..]);
        assert forall i :: 1 <= i < |s| ==> s[i] != s[0];
        assert s[0] !in s[1..];
      }
    }
  }

  lemma {:induction false} WithoutWeight<K, V>(s: seq<K>, key: K, items: map<K, Entry<V>>)
    requires NoDup(s) && key in s && forall k :: k in s ==> k in items
    ensures (forall k :: k in Without(s, key) ==> k in items)
    ensures WeightSum(s, items) == items[key].weight + WeightSum(Without(s, key), items)
  {
    WithoutKeeps(s, key);
    WithoutKeeps(s[1..], key);
    if s[0] == key {
      assert key !in s[1..];
      assert Without(s, key) == s[1..];
    } else {
      assert NoDup(s[1..]);
      WithoutWeight(s[1..], key, items);
      assert Without(s, key) == [s[0]] + Without(s[1..], key);
      assert Without(s, key)[1..] == Without(s[1..], key);
    }
  }

  lemma {:induction false} WeightSame<K, V>(s: seq<K>, items: map<K, Entry<V>>, items': map<K, Entry<V>>)
    requires forall k :: k in s ==> k in items && k in items' && items[k].weight == items'[k].weight
    ensures WeightSum(s, items) == WeightSum(s, items')
  {
    if s != [] {
      WeightSame(s[1..], items, items');
    }
  }

  lemma EmptyWeight<K, V>(order: seq<K>, items: map<K, Entry<V>>)
    requires forall k :: k in order ==> k in items
    ensures order == [] ==> WeightSum(order, items) == 0
  {
  }

  lemma {:induction false} WeightInit<K, V>(s: seq<K>, items: map<K, Entry<V>>)
    requires s != [] && forall k :: k in s ==> k in items
    ensures forall k :: k in s[..|s| - 1] ==> k in items
    ensures WeightSum(s, items) == WeightSum(s[..|s| - 1], items) + items[s[|s| - 1]].weight
  {
    if |s| > 1 {
      WeightInit(s[1..], items);
      assert s[1..][..|s| - 2] == s[..|s| - 1][1..];
    }
  }

  /** Putting a pair in front keeps map, list and weight in step. */
  lemma FrontKeeps<K, V>(
    order: seq<K>, items: map<K, Entry<V>>, key: K, e: Entry<V>, full: seq<K>, stored: map<K, Entry<V>>)
    requires NoDup(order) && forall k :: k in order <==> k in items
    requires full == [key] + Without(order, key) && stored == items[key := e]
    ensures NoDup(full)
    ensures forall k :: k in full <==> k in stored
    ensures WeightSum(full, stored) + (if key in items then items[key].weight else 0) ==
            e.weight + WeightSum(order, items)
  {
    hide Without;
    var rest := full[1..];
    WithoutKeeps(order, key);
    assert rest == Without(order, key);
    WeightSame(rest, items, stored);
    if key in items {
      WithoutWeight(order, key, items);
    }
  }

  function Reversed<K>(s: seq<K>): (r: seq<K>)
    ensures |r| == |s| && forall i :: 0 <= i < |r| ==> r[i] == s[|s| - 1 - i]
  {
    seq(|s|, i requires 0 <= i < |s| => s[|s| - 1 - i])
  }

  /** The longest prefix of the recency list that respects both limits. */
  ghost predicate LongestFit<K, V>(order: seq<K>, items: map<K, Entry<V>>, n: nat, maxWeight: nat, maxSize: nat)
    requires forall k :: k in order ==> k in items
  {
    && n <= |order|
    && n <= maxSize && WeightSum(order[..n], items) <= maxWeight
    && (n < |order| ==> n + 1 > maxSize || WeightSum(order[..n + 1], items) > maxWeight)
  }

  lemma {:induction false} PrefixWeight<K, V>(order: seq<K>, items: map<K, Entry<V>>, n: nat)
    requires n <= |order| && forall k :: k in order ==> k in items
    ensures WeightSum(order[..n], items) <= WeightSum(order, items)
    decreases |order|
  {
    if n < |order| {
      WeightInit(order, items);
      PrefixWeight(order[..|order| - 1], items, n);
      assert order[..|order| - 1][..n] == order[..n];
    } else {
      assert order[..n] == order;
    }
  }

  /** When everything fits, nothing is evicted. */
  lemma AllFit<K, V>(order: seq<K>, items: map<K, Entry<V>>, n: nat, maxWeight: nat, maxSize: nat)
    requires (forall k :: k in order ==> k in items) && LongestFit(order, items, n, maxWeight, maxSize)
    requires |order| <= maxSize && WeightSum(order, items) <= maxWeight
    ensures n == |order|
  {
    if n < |order| {
      PrefixWeight(order, items, n + 1);
    }
  }

  class Cache<K(==, !new), V> {
    var maxSize: nat
    var maxWeight: nat
    var weight: nat
    var order: seq<K>            // most recent first
    var items: map<K, Entry<V>>

    ghost predicate Valid()
      reads this
    {
      && NoDup(order)
      && (forall k :: k in order <==> k in items)
      && weight == WeightSum(order, items)
    }

    ghost predicate WithinLimits()
      reads this
    {
      weight <= maxWeight && |order| <= maxSize
    }

    constructor (maxWeight: nat, maxSize: nat)
      ensures Valid() && WithinLimits() && items == map[] && this.maxWeight == maxWeight && this.maxSize == maxSize
    {
      this.maxSize, this.maxWeight := maxSize, maxWeight;
      weight, order, items := 0, [], map[];
    }

    function Peek(key: K): Option<V>
      reads this
    {
      if key in items then Some(items[key].value) else None
    }

    function Len(): nat
      reads this
    {
      |order|
    }

    /** Keys from oldest to newest. */
    function Keys(): (r: seq<K>)
      reads this
      ensures |r| == |order| && forall i :: 0 <= i < |r| ==> r[i] == order[|order| - 1 - i]
    {
      Reversed(order)
    }

    /** Add: stores the pair as most recent, then evicts the oldest pairs, no more than needed. */
    method Add(key: K, value: V, w: nat) returns (evicted: nat)
      requires Valid()
      modifies this
      ensures Valid() && WithinLimits() && maxWeight == old(maxWeight) && maxSize == old(maxSize)
      ensures var full := [key] + Without(old(order), key);
              var stored := old(items)[key := Entry(value, w)];
              && |order| <= |full| && order == full[..|order|] && evicted == |full| - |order|
              && (forall k :: k in full ==> k in stored)
              && LongestFit(full, stored, |order|, maxWeight, maxSize)
              && (forall k :: k in items ==> k in stored && items[k] == stored[k])
    {
      hide NoDup, WeightSum, LongestFit;
      FrontKeeps(order, items, key, Entry(value, w), [key] + Without(order, key), items[key := Entry(value, w)]);
      weight := weight - (if key in items then items[key].weight else 0) + w by {
        if key in items {
          WithoutWeight(order, key, items);
        }
      }
      order := [key] + Without(order, key);
      items := items[key := Entry(value, w)];
      evicted := Normalize();
    }

    /** normalize: drops the oldest pairs until both limits hold. */
    method Normalize() returns (evicted: nat)
      requires Valid()
      modifies this
      ensures Valid() && WithinLimits() && maxWeight == old(maxWeight) && maxSize == old(maxSize)
      ensures |order| <= |old(order)| && order == old(order)[..|order|] && evicted == |old(order)| - |order|
      ensures LongestFit(old(order), old(items), |order|, maxWeight, maxSize)
      ensures forall k :: k in items ==> k in old(items) && items[k] == old(items)[k]
    {
      hide NoDup, WeightSum;
      evicted := 0;
      assert order == order[..|order|];
      while weight > maxWeight || |order| > maxSize
        invariant Valid() && maxWeight == old(maxWeight) && maxSize == old(maxSize)
        invariant |order| <= |old(order)| && order == old(order)[..|order|] && evicted == |old(order)| - |order|
        invariant forall k :: k in items ==> k in old(items) && items[k] == old(items)[k]
        invariant |order| < |old(order)| ==>
                    |order| + 1 > maxSize || WeightSum(old(order)[..|order| + 1], old(items)) > maxWeight
        decreases |order|
      {
        WeightSame(order, items, old(items));
        EmptyWeight(order, items);
        var key, _ := DropOldest();
        evicted := evicted + 1;
      }
      WeightSame(order, items, old(items));
    }

    /** RemoveOldest: removes and returns the least recent pair; None on an empty cache. */
    method RemoveOldest() returns (r: Option<(K, V)>)
      requires Valid()
      modifies this
      ensures Valid() && maxWeight == old(maxWeight) && maxSize == old(maxSize)
      ensures r.None? <==> old(order) == []
      ensures r.None? ==> items == old(items) && order == old(order) && weight == old(weight)
      ensures r.Some? ==>
                var key := r.value.0;
                && key == old(order)[|old(order)| - 1] && key in old(items) && old(items)[key].value == r.value.1
                && order == old(order)[..|old(order)| - 1] && items == old(items) - {key}
                && weight + old(items)[key].weight == old(weight)
    {
      hide NoDup, WeightSum;
      if |order| == 0 {
        return None;
      }
      var key, value := DropOldest();
      return Some((key, value));
    }

    /** removeOldest: the least recent pair of a non-empty cache goes. */
    method DropOldest() returns (key: K, value: V)
      requires Valid() && |order| > 0
      modifies this
      ensures Valid() && maxWeight == old(maxWeight) && maxSize == old(maxSize)
      ensures key == old(order)[|old(order)| - 1] && old(key in items && items[key].value == value)
      ensures order == old(order)[..|old(order)| - 1] && items == old(items) - {key}
      ensures weight + old(items)[key].weight == old(weight)
    {
      hide WeightSum;
      WeightInit(order, items);
      key := order[|order| - 1];
      value := items[key].value;
      weight := weight - items[key].weight;
      assert order == order[..|order| - 1] + [key];
      order := order[..|order| - 1];
      WeightSame(order, items, items - {key});
      items := items - {key};
    }

    method Remove(key: K) returns (present: bool)
      requires Valid()
      modifies this
      ensures Valid() && maxWeight == old(maxWeight) && maxSize == old(maxSize)
      ensures present <==> key in old(items)
      ensures order == Without(old(order), key) && items == old(items) - {key}
      ensures weight + (if key in old(items) then old(items)[key].weight else 0) == old(weight)
    {
      hide NoDup, WeightSum, Without;
      WithoutKeeps(order, key);
      present := key in items;
      if present {
        WithoutWeight(order, key, items);
        weight := weight - items[key].weight;
        WeightSame(Without(order, key), items, items - {key});
        order := Without(order, key);
        items := items - {key};
      } else {
        assert items - {key} == items;
      }
    }

    /** Get: looks up a pair and makes it the most recent. */
    method Get(key: K) returns (r: Option<V>)
      requires Valid()
      modifies this
      ensures Valid() && maxWeight == old(maxWeight) && maxSize == old(maxSize) && weight == old(weight)
      ensures items == old(items) && r == Peek(key)
      ensures order == if key in items then [key] + Without(old(order), key) else old(order)
      ensures |order| == |old(order)|
    {
      if key !in items {
        return None;
      }
      var e := items[key];
      assert items[key := e] == items;
      FrontKeeps(order, items, key, e, [key] + Without(order, key), items);
      assert |Without(order, key)| + 1 == |order| by { WithoutKeeps(order, key); }
      order := [key] + Without(order, key);
      return Some(e.value);
    }

    /** Resize: new limits, then the oldest pairs go. */
    method Resize(maxWeight: nat, maxSize: nat) returns (evicted: nat)
      requires Valid()
      modifies this
      ensures Valid() && WithinLimits() && this.maxWeight == maxWeight && this.maxSize == maxSize
      ensures |order| <= |old(order)| && order == old(order)[..|order|] && evicted == |old(order)| - |order|
      ensures LongestFit(old(order), old(items), |order|, maxWeight, maxSize)
      ensures forall k :: k in items ==> k in old(items) && items[k] == old(items)[k]
    {
      this.maxWeight, this.maxSize := maxWeight, maxSize;
      evicted := Normalize();
    }
  }
}
