/**
 The iterator over a write cache (flushableIterator in kvdb/flushable/flushable.go): merges the cache and the
 database.
 */
module FlushIterators {
  import opened Basics
  import opened KeyOrder
  import opened Flushables

  /** What an iterator walks over: both sides with their keys in order, and the range asked for. */
  datatype Scope = Scope(
    underlying: Table, modified: Changes, prefix: Bytes, start: Bytes, treeKeys: seq<Bytes>, parentKeys: seq<Bytes>)
  {
    predicate InRange(k: Bytes) {
      HasPrefix(k, prefix) && AtMost(prefix + start, k)
    }
  }

  /** The tree holds the pending keys from the start on, the parent iterator the database's keys in range. */
  ghost predicate ScopeOk(s: Scope) {
    && Ascending(s.treeKeys) && Ascending(s.parentKeys)
    && (forall k :: k in s.treeKeys <==> k in s.modified && AtMost(s.prefix + s.start, k))
    && (forall k :: k in s.parentKeys <==> k in s.underlying && s.InRange(k))
  }

  datatype Cursor = Cursor(treePos: nat, treeOk: bool, parentPos: nat, parentOk: bool, prevKey: Option<Bytes>)

  predicate Ahead(prev: Option<Bytes>, k: Bytes) {
    prev.None? || Less(prev.value, k)
  }

  ghost predicate Behind(prev: Option<Bytes>, k: Bytes) {
    prev.Some? && AtMost(k, prev.value)
  }

  ghost predicate CursorOk(s: Scope, c: Cursor) {
    && c.treePos <= |s.treeKeys| && c.parentPos <= |s.parentKeys|
    && (c.treeOk ==> c.treePos < |s.treeKeys|) && (c.parentOk <==> c.parentPos < |s.parentKeys|)
    && (!c.treeOk ==> forall i :: c.treePos <= i < |s.treeKeys| ==> !HasPrefix(s.treeKeys[i], s.prefix))
    && (forall i :: 0 <= i < c.treePos ==> Behind(c.prevKey, s.treeKeys[i]))
    && (forall i :: c.treePos <= i < |s.treeKeys| ==> Ahead(c.prevKey, s.treeKeys[i]))
    && (forall j :: 0 <= j < c.parentPos ==> Behind(c.prevKey, s.parentKeys[j]))
  }

  ghost function ViewOf(s: Scope): Table {
    Overlay(s.underlying, s.modified)
  }

  /** Keys of the overlay in range, after the given one. */
  ghost function Remaining(s: Scope, prev: Option<Bytes>): set<Bytes> {
    set k | k in ViewOf(s) && s.InRange(k) && Ahead(prev, k)
  }

  ghost predicate Least(keys: set<Bytes>, k: Bytes) {
    k in keys && forall x :: x in keys ==> AtMost(k, x)
  }

  lemma AtMostLess(a: Bytes, b: Bytes, c: Bytes)
    requires AtMost(a, b) && Less(b, c)
    ensures Less(a, c)
  {
    if a != b {
      LessTrans(a, b, c);
    }
  }

  lemma LessAtMost(a: Bytes, b: Bytes, c: Bytes)
    requires Less(a, b) && AtMost(b, c)
    ensures Less(a, c)
  {
    if b != c {
      LessTrans(a, b, c);
    }
  }

  lemma NotBoth(prev: Option<Bytes>, k: Bytes)
    ensures !(Behind(prev, k) && Ahead(prev, k))
  {
    if Behind(prev, k) && Ahead(prev, k) {
      LessAtMost(prev.value, k, prev.value);
      LessIrreflexive(prev.value);
    }
  }

  /** A key that remains is still to come on its side. */
  lemma ToCome(s: Scope, c: Cursor, x: Bytes)
    requires ScopeOk(s) && CursorOk(s, c) && x in Remaining(s, c.prevKey)
    ensures x in s.modified ==> c.treeOk && exists i :: c.treePos <= i < |s.treeKeys| && s.treeKeys[i] == x
    ensures x !in s.modified ==> c.parentOk && exists j :: c.parentPos <= j < |s.parentKeys| && s.parentKeys[j] == x
  {
    NotBoth(c.prevKey, x);
    if x in s.modified {
      assert x in s.treeKeys;
      var i :| 0 <= i < |s.treeKeys| && s.treeKeys[i] == x;
      assert i >= c.treePos;
    } else {
      assert x in s.parentKeys;
      var j :| 0 <= j < |s.parentKeys| && s.parentKeys[j] == x;
      assert j >= c.parentPos;
    }
  }

  lemma Exhausted(s: Scope, c: Cursor)
    requires ScopeOk(s) && CursorOk(s, c) && !c.treeOk && !c.parentOk
    ensures Remaining(s, c.prevKey) == {}
  {
    hide Remaining, CursorOk, ScopeOk;
    forall x | x in Remaining(s, c.prevKey) ensures false {
      ToCome(s, c, x);
    }
  }

  /** The tree is not past the parent: nothing that remains comes before its key. */
  lemma TreeFirst(s: Scope, c: Cursor, x: Bytes)
    requires ScopeOk(s) && CursorOk(s, c) && c.treeOk && x in Remaining(s, c.prevKey)
    requires c.parentOk ==> AtMost(s.treeKeys[c.treePos], s.parentKeys[c.parentPos])
    ensures AtMost(s.treeKeys[c.treePos], x)
  {
    ToCome(s, c, x);
    var k := s.treeKeys[c.treePos];
    if x in s.modified {
      var i :| c.treePos <= i < |s.treeKeys| && s.treeKeys[i] == x;
    } else {
      var j :| c.parentPos <= j < |s.parentKeys| && s.parentKeys[j] == x;
      var p := s.parentKeys[c.parentPos];
      assert AtMost(p, x);
      if k != p && p != x {
        LessTrans(k, p, x);
      }
    }
  }

  /** The parent is before the tree: nothing that remains comes before its key, and the cache does not have it. */
  lemma ParentFirst(s: Scope, c: Cursor)
    requires ScopeOk(s) && CursorOk(s, c) && c.parentOk
    requires c.treeOk ==> Less(s.parentKeys[c.parentPos], s.treeKeys[c.treePos])
    ensures forall i :: c.treePos <= i < |s.treeKeys| ==> Less(s.parentKeys[c.parentPos], s.treeKeys[i])
    ensures Ahead(c.prevKey, s.parentKeys[c.parentPos]) ==> s.parentKeys[c.parentPos] !in s.modified
    ensures forall x :: x in Remaining(s, c.prevKey) ==> AtMost(s.parentKeys[c.parentPos], x)
  {
    var p := s.parentKeys[c.parentPos];
    assert p in s.parentKeys;
    forall i | c.treePos <= i < |s.treeKeys| ensures Less(p, s.treeKeys[i]) {
      TreeAfter(s, c, i);
    }
    assert p in s.modified ==> p in s.treeKeys;
    if Ahead(c.prevKey, p) && p in s.modified {
      NotBoth(c.prevKey, p);
      LessIrreflexive(p);
      assert false;
    }
    forall x | x in Remaining(s, c.prevKey) ensures AtMost(p, x) {
      ToCome(s, c, x);
    }
  }

  lemma TreeAfter(s: Scope, c: Cursor, i: nat)
    requires ScopeOk(s) && CursorOk(s, c) && c.parentOk && c.treePos <= i < |s.treeKeys|
    requires c.treeOk ==> Less(s.parentKeys[c.parentPos], s.treeKeys[c.treePos])
    ensures Less(s.parentKeys[c.parentPos], s.treeKeys[i])
  {
    var p, k := s.parentKeys[c.parentPos], s.treeKeys[i];
    assert p in s.parentKeys && k in s.treeKeys;
    if c.treeOk {
      if i > c.treePos {
        LessTrans(p, s.treeKeys[c.treePos], k);
      }
    } else {
      LessTotal(p, k);
      if AtMost(k, p) {
        PrefixConvex(s.prefix, s.start, k, p);
        assert false;
      }
    }
  }

  // ---------------------------------------------------------------- steps

  /** A pending key without the prefix ends the tree side. */
  lemma TreeStops(s: Scope, c: Cursor)
    requires ScopeOk(s) && CursorOk(s, c) && c.treeOk && !HasPrefix(s.treeKeys[c.treePos], s.prefix)
    ensures CursorOk(s, c.(treeOk := false))
  {
    var k := s.treeKeys[c.treePos];
    assert k in s.treeKeys;
    forall i | c.treePos <= i < |s.treeKeys| ensures !HasPrefix(s.treeKeys[i], s.prefix) {
      if HasPrefix(s.treeKeys[i], s.prefix) {
        PrefixConvex(s.prefix, s.start, k, s.treeKeys[i]);
        assert false;
      }
    }
  }

  function TreeNext(s: Scope, c: Cursor): Cursor
    requires c.treePos < |s.treeKeys|
  {
    Cursor(c.treePos + 1, c.treePos + 1 < |s.treeKeys|, c.parentPos, c.parentOk, Some(s.treeKeys[c.treePos]))
  }

  lemma TreeMoves(s: Scope, c: Cursor)
    requires ScopeOk(s) && CursorOk(s, c) && c.treeOk
    ensures CursorOk(s, TreeNext(s, c))
  {
    var n, k := TreeNext(s, c), s.treeKeys[c.treePos];
    forall i | 0 <= i < n.treePos ensures Behind(n.prevKey, s.treeKeys[i]) {
    }
    forall j | 0 <= j < c.parentPos ensures Behind(n.prevKey, s.parentKeys[j]) {
      AtMostLess(s.parentKeys[j], c.prevKey.value, k);
    }
  }

  /** Moving past k, when nothing that remains comes before it. */
  lemma MovePast(s: Scope, prev: Option<Bytes>, k: Bytes)
    requires Ahead(prev, k) && forall x :: x in Remaining(s, prev) ==> AtMost(k, x)
    ensures Remaining(s, Some(k)) == Remaining(s, prev) - {k}
  {
    LessIrreflexive(k);
    forall x | Less(k, x) && prev.Some? ensures Less(prev.value, x) {
      LessTrans(prev.value, k, x);
    }
  }

  lemma TreeYields(s: Scope, c: Cursor)
    requires ScopeOk(s) && CursorOk(s, c) && c.treeOk
    requires c.parentOk ==> AtMost(s.treeKeys[c.treePos], s.parentKeys[c.parentPos])
    ensures var k := s.treeKeys[c.treePos];
            && k in s.modified && Ahead(c.prevKey, k)
            && Remaining(s, Some(k)) == Remaining(s, c.prevKey) - {k}
            && (s.modified[k].None? ==> k !in Remaining(s, c.prevKey))
            && (s.modified[k].Some? && HasPrefix(k, s.prefix) ==>
                  Least(Remaining(s, c.prevKey), k) && k in ViewOf(s) && ViewOf(s)[k] == s.modified[k].value)
  {
    var k := s.treeKeys[c.treePos];
    assert k in s.treeKeys;
    forall x | x in Remaining(s, c.prevKey) ensures AtMost(k, x) {
      TreeFirst(s, c, x);
    }
    MovePast(s, c.prevKey, k);
  }

  lemma ParentMoves(s: Scope, c: Cursor)
    requires ScopeOk(s) && CursorOk(s, c) && c.parentOk
    requires c.treeOk ==> Less(s.parentKeys[c.parentPos], s.treeKeys[c.treePos])
    ensures var p := s.parentKeys[c.parentPos];
            var prev := if Ahead(c.prevKey, p) then Some(p) else c.prevKey;
            CursorOk(s, c.(parentPos := c.parentPos + 1, parentOk := c.parentPos + 1 < |s.parentKeys|, prevKey := prev))
  {
    var p := s.parentKeys[c.parentPos];
    ParentFirst(s, c);
    if Ahead(c.prevKey, p) {
      forall i | 0 <= i < c.treePos ensures Behind(Some(p), s.treeKeys[i]) {
        AtMostLess(s.treeKeys[i], c.prevKey.value, p);
      }
      forall j | 0 <= j < c.parentPos ensures Behind(Some(p), s.parentKeys[j]) {
      }
    } else {
      LessTotal(p, c.prevKey.value);
    }
  }

  lemma ParentYields(s: Scope, c: Cursor)
    requires ScopeOk(s) && CursorOk(s, c) && c.parentOk && Ahead(c.prevKey, s.parentKeys[c.parentPos])
    requires c.treeOk ==> Less(s.parentKeys[c.parentPos], s.treeKeys[c.treePos])
    ensures var p := s.parentKeys[c.parentPos];
            && p in s.underlying && Remaining(s, Some(p)) == Remaining(s, c.prevKey) - {p}
            && Least(Remaining(s, c.prevKey), p) && p in ViewOf(s) && ViewOf(s)[p] == s.underlying[p]
  {
    var p := s.parentKeys[c.parentPos];
    assert p in s.parentKeys;
    ParentFirst(s, c);
    MovePast(s, c.prevKey, p);
  }

  class FlushIterator {
    const scope: Scope
    var c: Cursor
    var key: Bytes
    var val: Bytes

    ghost predicate Valid()
      reads this
    {
      ScopeOk(scope) && CursorOk(scope, c)
    }

    /** The pairs still to come. */
    ghost function Rest(): set<Bytes>
      reads this
    {
      Remaining(scope, c.prevKey)
    }

    /** NewIterator and init: the tree starts at the lowest key not below prefix+start. */
    constructor (db: Flushable, prefix: Bytes, start: Bytes)
      requires !db.isClosed
      ensures Valid() && ViewOf(scope) == db.View() && scope.prefix == prefix && scope.start == start
      ensures Rest() == set k | k in db.View() && HasPrefix(k, prefix) && AtMost(prefix + start, k)
    {
      var treeKeys := Sorted(set k | k in db.modified && AtMost(prefix + start, k));
      var parentKeys := Sorted(set k | k in db.underlying && HasPrefix(k, prefix) && AtMost(prefix + start, k));
      scope := Scope(db.underlying, db.modified, prefix, start, treeKeys, parentKeys);
      c := Cursor(0, |treeKeys| > 0, 0, |parentKeys| > 0, None);
      key, val := [], [];
    }

    /** Next: the least pair still to come; false exactly when there is none. */
    method Next() returns (more: bool)
      requires Valid()
      modifies this
      ensures Valid() && (more <==> old(Rest()) != {})
      ensures more ==> Least(old(Rest()), key) && key in ViewOf(scope) && val == ViewOf(scope)[key]
      ensures Rest() == old(Rest()) - if more then {key} else {}
    {
      hide *;
      ValidIs();
      ghost var rest := Rest();
      while c.treeOk || c.parentOk
        invariant ScopeOk(scope) && CursorOk(scope, c) && Remaining(scope, c.prevKey) == rest
        decreases |scope.treeKeys| + |scope.parentKeys| - c.treePos - c.parentPos, c.treeOk
      {
        Bounds(scope, c);
        more := FromTree();
        if more {
          LeastIn(rest, key);
          ValidIs();
          return;
        }
        assert Remaining(scope, c.prevKey) == rest;
        Bounds(scope, c);
        if c.parentOk {
          more := FromParent();
          if more {
            LeastIn(rest, key);
            ValidIs();
            return;
          }
          Bounds(scope, c);
        }
      }
      Exhausted(scope, c);
      ValidIs();
      more := false;
    }

    /** The tree's turn, while its key is not past the parent's: deleted keys hide the parent's and are passed over. */
    method FromTree() returns (found: bool)
      requires ScopeOk(scope) && CursorOk(scope, c)
      modifies this
      ensures ScopeOk(scope) && CursorOk(scope, c) && c.parentPos == old(c.parentPos) && c.treePos >= old(c.treePos)
      ensures found ==>
                Least(old(Remaining(scope, c.prevKey)), key) && key in ViewOf(scope) && val == ViewOf(scope)[key]
      ensures Remaining(scope, c.prevKey) == old(Remaining(scope, c.prevKey)) - if found then {key} else {}
      ensures !found && c.treeOk ==> c.parentOk && old(c.treeOk)
      ensures !found && c.treeOk && c.treePos < |scope.treeKeys| && c.parentPos < |scope.parentKeys| ==>
                Less(scope.parentKeys[c.parentPos], scope.treeKeys[c.treePos])
    {
      hide *;
      ghost var rest := Remaining(scope, c.prevKey);
      Bounds(scope, c);
      while c.treeOk && (!c.parentOk || AtMost(scope.treeKeys[c.treePos], scope.parentKeys[c.parentPos]))
        invariant ScopeOk(scope) && CursorOk(scope, c) && Remaining(scope, c.prevKey) == rest
        invariant c.parentPos == old(c.parentPos) && c.treePos >= old(c.treePos) && (c.treeOk ==> old(c.treeOk))
        invariant c.treeOk ==> c.treePos < |scope.treeKeys|
        invariant c.parentOk <==> c.parentPos < |scope.parentKeys|
        decreases |scope.treeKeys| - c.treePos, c.treeOk
      {
        var k := scope.treeKeys[c.treePos];
        TreeYields(scope, c);
        var deleted := scope.modified[k].None?;
        var suitable := !deleted && HasPrefix(k, scope.prefix) && Ahead(c.prevKey, k);
        if !deleted && !HasPrefix(k, scope.prefix) {
          TreeStops(scope, c);
          c := c.(treeOk := false);
        } else {
          TreeMoves(scope, c);
          TreeNextIs(scope, c);
          c := TreeNext(scope, c);
          if suitable {
            key, val := k, scope.modified[k].value;
            return true;
          }
        }
        Bounds(scope, c);
      }
      found := false;
      if c.treeOk && c.parentOk {
        NotAtMost(scope.treeKeys[c.treePos], scope.parentKeys[c.parentPos]);
      }
    }

    /** The parent's turn: a key not past the last one is skipped. */
    method FromParent() returns (found: bool)
      requires ScopeOk(scope) && CursorOk(scope, c) && c.parentOk && c.parentPos < |scope.parentKeys|
      requires c.treeOk ==>
                 c.treePos < |scope.treeKeys| && Less(scope.parentKeys[c.parentPos], scope.treeKeys[c.treePos])
      modifies this
      ensures ScopeOk(scope) && CursorOk(scope, c) && c.parentPos == old(c.parentPos) + 1 && c.treePos == old(c.treePos)
      ensures found ==>
                Least(old(Remaining(scope, c.prevKey)), key) && key in ViewOf(scope) && val == ViewOf(scope)[key]
      ensures Remaining(scope, c.prevKey) == old(Remaining(scope, c.prevKey)) - if found then {key} else {}
    {
      hide *;
      var k := scope.parentKeys[c.parentPos];
      ParentMoves(scope, c);
      found := Ahead(c.prevKey, k);
      var prev := c.prevKey;
      if found {
        ParentYields(scope, c);
        key, val := k, scope.underlying[k];
        prev := Some(k);
      }
      c := c.(parentPos := c.parentPos + 1, parentOk := c.parentPos + 1 < |scope.parentKeys|, prevKey := prev);
    }

    lemma ValidIs()
      ensures Valid() <==> ScopeOk(scope) && CursorOk(scope, c)
      ensures Rest() == Remaining(scope, c.prevKey)
    {
      hide ScopeOk, CursorOk, Remaining;
    }
  }

  /** NewIterator: an iterator over what readers see, or the error of a closed store. */
  method NewIterator(db: Flushable, prefix: Bytes, start: Bytes) returns (r: Answer<FlushIterator>)
    ensures r.Closed? <==> db.isClosed
    ensures r.Answer? ==>
              && fresh(r.value) && r.value.Valid() && ViewOf(r.value.scope) == db.View()
              && r.value.Rest() == set k | k in db.View() && HasPrefix(k, prefix) && AtMost(prefix + start, k)
  {
    if db.isClosed {
      return Closed;
    }
    var it := new FlushIterator(db, prefix, start);
    return Answer(it);
  }

  lemma LeastIn(keys: set<Bytes>, k: Bytes)
    requires Least(keys, k)
    ensures k in keys
  {
  }

  lemma Bounds(s: Scope, c: Cursor)
    requires CursorOk(s, c)
    ensures c.treePos <= |s.treeKeys| && c.parentPos <= |s.parentKeys|
    ensures (c.treeOk ==> c.treePos < |s.treeKeys|) && (c.parentOk <==> c.parentPos < |s.parentKeys|)
  {
  }

  lemma TreeNextIs(s: Scope, c: Cursor)
    requires c.treePos < |s.treeKeys|
    ensures TreeNext(s, c) ==
            Cursor(c.treePos + 1, c.treePos + 1 < |s.treeKeys|, c.parentPos, c.parentOk, Some(s.treeKeys[c.treePos]))
  {
  }

  lemma NotAtMost(a: Bytes, b: Bytes)
    ensures !AtMost(a, b) ==> Less(b, a)
  {
    LessTotal(a, b);
  }

  /** Draining an iterator: the pairs of the overlay in range, ascending, all of them. */
  method Drain(it: FlushIterator) returns (pairs: seq<(Bytes, Bytes)>)
    requires it.Valid()
    modifies it
    ensures forall i, j :: 0 <= i < j < |pairs| ==> Less(pairs[i].0, pairs[j].0)
    ensures forall p: (Bytes, Bytes) :: p in pairs <==>
              p.0 in old(it.Rest()) && p.0 in ViewOf(it.scope) && ViewOf(it.scope)[p.0] == p.1
  {
    hide *;
    ghost var all := it.Rest();
    pairs := [];
    DrainStart(all, ViewOf(it.scope));
    while true
      invariant it.Valid() && Drained(all, it.Rest(), ViewOf(it.scope), pairs)
      decreases |it.Rest()|
    {
      ghost var rest := it.Rest();
      var more := it.Next();
      if !more {
        break;
      }
      DrainMore(all, rest, ViewOf(it.scope), pairs, it.key, it.val);
      pairs := pairs + [(it.key, it.val)];
    }
    assert it.Rest() == {};
    DrainDone(all, it.scope, it.Rest(), pairs);
  }

  /** The pairs taken so far are those of `all` not in `rest`, ascending and before everything in `rest`. */
  ghost predicate Drained(all: set<Bytes>, rest: set<Bytes>, view: Table, pairs: seq<(Bytes, Bytes)>) {
    && rest <= all
    && (forall i, j :: 0 <= i < j < |pairs| ==> Less(pairs[i].0, pairs[j].0))
    && (forall p :: p in pairs ==> p.0 in all && p.0 !in rest && p.0 in view && view[p.0] == p.1)
    && (forall k :: k in all && k !in rest ==> exists i :: 0 <= i < |pairs| && pairs[i].0 == k)
    && (forall i, k :: 0 <= i < |pairs| && k in rest ==> Less(pairs[i].0, k))
  }

  lemma DrainStart(all: set<Bytes>, view: Table)
    ensures Drained(all, all, view, [])
  {
  }

  lemma DrainMore(all: set<Bytes>, rest: set<Bytes>, view: Table, pairs: seq<(Bytes, Bytes)>, key: Bytes, val: Bytes)
    requires Drained(all, rest, view, pairs) && Least(rest, key) && key in view && view[key] == val
    ensures Drained(all, rest - {key}, view, pairs + [(key, val)]) && |rest - {key}| < |rest|
  {
    var next := pairs + [(key, val)];
    forall k | k in all && k !in rest - {key} ensures exists i :: 0 <= i < |next| && next[i].0 == k {
      if k == key {
        assert next[|pairs|].0 == k;
      } else {
        var i :| 0 <= i < |pairs| && pairs[i].0 == k;
        assert next[i].0 == k;
      }
    }
    assert rest == (rest - {key}) + {key};
  }

  lemma DrainDone(all: set<Bytes>, s: Scope, rest: set<Bytes>, pairs: seq<(Bytes, Bytes)>)
    requires Drained(all, rest, ViewOf(s), pairs) && rest == {}
    ensures forall i, j :: 0 <= i < j < |pairs| ==> Less(pairs[i].0, pairs[j].0)
    ensures forall p: (Bytes, Bytes) :: p in pairs <==> p.0 in all && p.0 in ViewOf(s) && ViewOf(s)[p.0] == p.1
  {
    hide Less, ViewOf;
    forall p: (Bytes, Bytes) | p.0 in all && p.0 in ViewOf(s) && ViewOf(s)[p.0] == p.1 ensures p in pairs {
      var i :| 0 <= i < |pairs| && pairs[i].0 == p.0;
      assert pairs[i] in pairs;
    }
  }
}
