/** Databases flushed together (kvdb/flushable/synced_pool.go): dirty and clean marks make a cut flush detectable. */
module SyncedPools {
  import opened Basics
  import opened KeyOrder
  import opened Flushables

  type Name = string
  type Databases = map<Name, Table>

  const DIRTY_PREFIX: byte := 0xde
  const CLEAN_PREFIX: byte := 0x00

  predicate IsDirty(mark: Bytes) {
    HasPrefix(mark, [0xde])
  }

  function MarkOf(db: Table, key: Bytes): Option<Bytes> {
    if key in db then Some(db[key]) else None
  }

  // ---------------------------------------------------------------- the check on startup

  /** What CheckDBsSynced accepts: no dirty mark, one common mark (the given one if any), and no database without it. */
  ghost predicate Synced(dbs: Databases, key: Bytes, flushID: Option<Bytes>) {
    && (forall n :: n in dbs && key in dbs[n] ==>
          !IsDirty(dbs[n][key]) && (flushID.Some? ==> dbs[n][key] == flushID.value))
    && (forall n, m :: n in dbs && m in dbs && key in dbs[n] && key in dbs[m] ==> dbs[n][key] == dbs[m][key])
    && (flushID.Some? || (exists n :: n in dbs && key in dbs[n]) ==> forall n :: n in dbs ==> key in dbs[n])
  }

  /** The mark found so far among the visited databases, when nothing has been refused. */
  ghost predicate Agreed(
    dbs: Databases, key: Bytes, given: Option<Bytes>, seen: set<Name>, flushID: Option<Bytes>, nonInit: bool) {
    && seen <= dbs.Keys
    && (forall n :: n in seen && key in dbs[n] ==> !IsDirty(dbs[n][key]) && flushID == Some(dbs[n][key]))
    && (nonInit <==> exists n :: n in seen && key !in dbs[n])
    && (given.Some? ==> flushID == given)
    && (flushID.Some? && given.None? ==> exists n :: n in seen && key in dbs[n])
  }

  /** CheckDBsSynced: its verdict is Synced, whatever the order of visiting; the result is the common mark. */
  method CheckDBsSynced(dbs: Databases, key: Bytes, given: Option<Bytes>) returns (flushID: Option<Bytes>, ok: bool)
    ensures ok <==> Synced(dbs, key, given)
    ensures ok ==> (given.Some? ==> flushID == given) && forall n :: n in dbs ==> MarkOf(dbs[n], key) == flushID
    ensures dbs == map[] ==> ok && flushID == given
  {
    flushID := given;
    var nonInit := false;
    var rest := dbs.Keys;
    while rest != {}
      invariant rest <= dbs.Keys && Agreed(dbs, key, given, dbs.Keys - rest, flushID, nonInit)
    {
      var name :| name in rest;
      var mark := MarkOf(dbs[name], key);
      if mark.None? {
        assert name in dbs.Keys - (rest - {name});
        nonInit := true;
      } else {
        if IsDirty(mark.value) {
          return flushID, false;
        }
        if flushID.None? {
          flushID := mark;
        }
        if mark != flushID {
          return flushID, false;
        }
      }
      assert dbs.Keys - (rest - {name}) == (dbs.Keys - rest) + {name};
      rest := rest - {name};
    }
    assert dbs.Keys - {} == dbs.Keys;
    ok := !(flushID.Some? && nonInit);
  }

  // ---------------------------------------------------------------- flushing

  /** Some databases carry the mark, the others are untouched. */
  ghost function Marked(dbs: Databases, done: set<Name>, key: Bytes, mark: Bytes): Databases {
    map n | n in dbs :: if n in done then dbs[n][key := mark] else dbs[n]
  }

  /** What a complete flush leaves: every database as its readers saw it, with the clean mark. */
  ghost function Flushed(dbs: Databases, pending: map<Name, Changes>, key: Bytes, id: Bytes): Databases
    requires dbs.Keys == pending.Keys
  {
    map n | n in dbs :: Overlay(dbs[n], pending[n])[key := [0x00] + id]
  }

  /** How many pending pairs the wrappers of some databases hold. */
  ghost function PendingPairs(pending: map<Name, Changes>, names: set<Name>): nat
    requires names <= pending.Keys
  {
    if names == {} then 0
    else
      var n :| n in names;
      |pending[n]| + PendingPairs(pending, names - {n})
  }

  lemma {:induction false} PendingWithout(pending: map<Name, Changes>, names: set<Name>, n: Name)
    requires names <= pending.Keys && n in names
    ensures PendingPairs(pending, names) == |pending[n]| + PendingPairs(pending, names - {n})
    decreases names
  {
    var m :| m in names && PendingPairs(pending, names) == |pending[m]| + PendingPairs(pending, names - {m});
    if m != n {
      PendingWithout(pending, names - {m}, n);
      PendingWithout(pending, names - {n}, m);
      assert names - {m} - {n} == names - {n} - {m};
    }
  }

  lemma NothingPending(pending: map<Name, Changes>)
    ensures PendingPairs(pending, {}) == 0
  {
  }

  /** Every database is dirty. */
  ghost predicate AllDirty(dbs: Databases, key: Bytes) {
    forall n :: n in dbs ==> key in dbs[n] && IsDirty(dbs[n][key])
  }

  /** A cut flush that the check accepts left everything old or made everything new. */
  ghost predicate AllOrNothing(was: Databases, pending: map<Name, Changes>, key: Bytes, id: Bytes, dbs: Databases)
    requires was.Keys == pending.Keys
  {
    forall flushID :: Synced(dbs, key, flushID) ==> dbs == was || dbs == Flushed(was, pending, key, id)
  }

  lemma DirtyIsRefused(dbs: Databases, key: Bytes, n: Name, flushID: Option<Bytes>)
    requires n in dbs && key in dbs[n] && IsDirty(dbs[n][key])
    ensures !Synced(dbs, key, flushID)
  {
  }

  /** Cut while marking: one mark set and one not means a dirty mark is there. */
  lemma CutMarking(dbs: Databases, done: set<Name>, key: Bytes, mark: Bytes)
    requires done <= dbs.Keys && ((IsDirty(mark) && done != {}) || (AllDirty(dbs, key) && done != dbs.Keys))
    ensures forall flushID :: !Synced(Marked(dbs, done, key, mark), key, flushID)
  {
    var marked := Marked(dbs, done, key, mark);
    var n :| n in dbs && if IsDirty(mark) && done != {} then n in done else n !in done;
    assert n in marked && key in marked[n] && IsDirty(marked[n][key]);
    forall flushID ensures !Synced(marked, key, flushID) {
      DirtyIsRefused(marked, key, n, flushID);
    }
  }

  lemma NoneMarked(dbs: Databases, key: Bytes, mark: Bytes)
    ensures Marked(dbs, {}, key, mark) == dbs
  {
  }

  /** Only the data differs: no mark is touched. */
  ghost predicate SameMarks(was: Databases, dbs: Databases, key: Bytes) {
    dbs.Keys == was.Keys && forall n :: n in dbs ==> MarkOf(dbs[n], key) == MarkOf(was[n], key)
  }

  lemma MarkedMore(was: Databases, dbs: Databases, done: set<Name>, name: Name, key: Bytes, mark: Bytes)
    requires done <= was.Keys && dbs == Marked(was, done, key, mark) && name in was.Keys - done
    ensures name in dbs && dbs.Keys == was.Keys
    ensures dbs[name := dbs[name][key := mark]] == Marked(was, done + {name}, key, mark)
  {
  }

  lemma SameMarksStart(dbs: Databases, key: Bytes)
    ensures SameMarks(dbs, dbs, key)
  {
  }

  lemma SameMarksStep(was: Databases, before: Databases, dbs: Databases, name: Name, key: Bytes)
    requires SameMarks(was, before, key) && name in before && dbs.Keys == before.Keys
    requires (forall n :: n in dbs && n != name ==> dbs[n] == before[n])
    requires MarkOf(dbs[name], key) == MarkOf(before[name], key)
    ensures SameMarks(was, dbs, key) && dbs.Keys == was.Keys
  {
    hide MarkOf;
  }

  /** Readers of the wrappers see the same, apart from the mark. */
  ghost predicate SameViews(
    was: Databases, wasPending: map<Name, Changes>, dbs: Databases, pending: map<Name, Changes>, key: Bytes)
  {
    && was.Keys == wasPending.Keys == dbs.Keys == pending.Keys
    && forall n :: n in dbs ==> Overlay(dbs[n], pending[n]) - {key} == Overlay(was[n], wasPending[n]) - {key}
  }

  lemma SameViewsTrans(
    a: Databases, pa: map<Name, Changes>, b: Databases, pb: map<Name, Changes>, c: Databases, pc: map<Name, Changes>,
    key: Bytes)
    requires SameViews(a, pa, b, pb, key) && SameViews(b, pb, c, pc, key)
    ensures SameViews(a, pa, c, pc, key)
  {
    hide Overlay;
  }

  /** Everything but the databases of `rest` is flushed. */
  ghost predicate FlushedBut(
    was: Databases, wasPending: map<Name, Changes>, dbs: Databases, pending: map<Name, Changes>, rest: set<Name>)
  {
    && was.Keys == wasPending.Keys == dbs.Keys == pending.Keys && rest <= dbs.Keys
    && (forall n :: n in rest ==> dbs[n] == was[n] && pending[n] == wasPending[n])
    && (forall n :: n in dbs && n !in rest ==> dbs[n] == Overlay(was[n], wasPending[n]) && pending[n] == map[])
  }

  lemma FlushedNone(dbs: Databases, pending: map<Name, Changes>)
    requires dbs.Keys == pending.Keys
    ensures FlushedBut(dbs, pending, dbs, pending, dbs.Keys)
  {
    hide Overlay;
  }

  lemma FlushedButOne(
    was: Databases, wasPending: map<Name, Changes>, dbs: Databases, pending: map<Name, Changes>, rest: set<Name>,
    name: Name)
    requires FlushedBut(was, wasPending, dbs, pending, rest) && name in rest
    ensures name in dbs && name in pending && name in was && name in wasPending
    ensures dbs[name] == was[name] && pending[name] == wasPending[name]
  {
    hide Overlay;
  }

  lemma FlushedStep(
    was: Databases, wasPending: map<Name, Changes>, before: Databases, waiting: map<Name, Changes>, rest: set<Name>,
    dbs: Databases, pending: map<Name, Changes>, name: Name)
    requires FlushedBut(was, wasPending, before, waiting, rest) && name in rest && name in dbs
    requires name in was && name in wasPending && dbs.Keys == before.Keys
    requires pending.Keys == waiting.Keys && name in pending && pending[name] == map[]
    requires forall n :: n in dbs && n != name ==> dbs[n] == before[n]
    requires forall n :: n in pending && n != name ==> pending[n] == waiting[n]
    requires dbs[name] == Overlay(was[name], wasPending[name])
    ensures FlushedBut(was, wasPending, dbs, pending, rest - {name})
  {
    hide Overlay;
    forall n | n in rest - {name} ensures n in dbs && dbs[n] == was[n] && pending[n] == wasPending[n] {
      assert n in rest && n != name;
    }
    forall n | n in dbs && n !in rest - {name}
      ensures dbs[n] == Overlay(was[n], wasPending[n]) && pending[n] == map[]
    {
      if n != name {
        assert n in before && n !in rest;
      }
    }
  }

  lemma NothingOver(db: Table)
    ensures Overlay(db, map[]) == db
  {
  }

  /** With one database under way, readers see no difference. */
  lemma FlushedViews(
    was: Databases, wasPending: map<Name, Changes>, before: Databases, waiting: map<Name, Changes>, rest: set<Name>,
    dbs: Databases, pending: map<Name, Changes>, name: Name, key: Bytes)
    requires FlushedBut(was, wasPending, before, waiting, rest) && name in rest && dbs.Keys == before.Keys
    requires pending.Keys == waiting.Keys && name in dbs && name in pending && name in was && name in wasPending
    requires forall n :: n in dbs && n != name ==> dbs[n] == before[n]
    requires forall n :: n in pending && n != name ==> pending[n] == waiting[n]
    requires Overlay(dbs[name], pending[name]) == Overlay(was[name], wasPending[name])
    ensures SameViews(was, wasPending, dbs, pending, key)
  {
    hide Overlay;
    forall n | n in dbs ensures Overlay(dbs[n], pending[n]) == Overlay(was[n], wasPending[n]) {
      if n !in rest {
        NothingOver(dbs[n]);
      }
    }
  }

  lemma FlushedAll(
    was: Databases, wasPending: map<Name, Changes>, dbs: Databases, pending: map<Name, Changes>, key: Bytes)
    requires FlushedBut(was, wasPending, dbs, pending, {})
    ensures SameViews(was, wasPending, dbs, pending, key)
    ensures forall n :: n in dbs ==> n in was && n in wasPending && n in pending && pending[n] == map[]
    ensures forall n :: n in dbs ==> dbs[n] == Overlay(was[n], wasPending[n])
  {
    hide Overlay;
    forall n | n in dbs ensures Overlay(dbs[n], pending[n]) == Overlay(was[n], wasPending[n]) {
      NothingOver(dbs[n]);
    }
  }

  lemma MarkedView(db: Table, modified: Changes, key: Bytes, mark: Bytes)
    ensures Overlay(db[key := mark], modified) - {key} == Overlay(db, modified) - {key}
  {
    assert (Overlay(db[key := mark], modified) - {key}).Keys == (Overlay(db, modified) - {key}).Keys;
  }

  lemma MarkedViews(dbs: Databases, pending: map<Name, Changes>, done: set<Name>, key: Bytes, mark: Bytes)
    requires dbs.Keys == pending.Keys
    ensures SameViews(dbs, pending, Marked(dbs, done, key, mark), pending, key)
  {
    hide Overlay;
    forall n | n in dbs
      ensures Overlay(dbs[n][key := mark], pending[n]) - {key} == Overlay(dbs[n], pending[n]) - {key}
    {
      MarkedView(dbs[n], pending[n], key, mark);
    }
  }

  class SyncedPool {
    const flushIDKey: Bytes
    var dbs: Databases                      // what is on disk
    var pending: map<Name, Changes>         // what the wrappers cache

    /** The application does not write the mark's key. */
    ghost predicate Valid()
      reads this
    {
      dbs.Keys == pending.Keys && forall n :: n in pending ==> flushIDKey !in pending[n]
    }

    constructor (flushIDKey: Bytes, dbs: Databases)
      ensures Valid() && this.flushIDKey == flushIDKey && this.dbs == dbs
    {
      this.flushIDKey, this.dbs, this.pending := flushIDKey, dbs, map n | n in dbs :: map[];
    }

    /** MarkFlushID on every database, in any order; None when the writes run out. */
    method MarkAll(prefix: byte, id: Bytes, writes: nat) returns (left: Option<nat>, ghost done: set<Name>)
      modifies this`dbs
      ensures done <= old(dbs).Keys && dbs == Marked(old(dbs), done, flushIDKey, [prefix] + id)
      ensures left.Some? <==> done == old(dbs).Keys
      ensures left.Some? <==> writes >= |old(dbs).Keys|
      ensures left.Some? ==> left.value == writes - |old(dbs).Keys|
    {
      hide Marked;
      var rest, budget: nat := dbs.Keys, writes;
      done := {};
      NoneMarked(dbs, flushIDKey, [prefix] + id);
      while rest != {}
        invariant dbs.Keys == old(dbs).Keys && rest <= dbs.Keys && done == dbs.Keys - rest
        invariant budget + |dbs.Keys| == writes + |rest|
        invariant dbs == Marked(old(dbs), done, flushIDKey, [prefix] + id)
      {
        if budget == 0 {
          assert |rest| > 0;
          return None, done;
        }
        var name :| name in rest;
        MarkedMore(old(dbs), dbs, done, name, flushIDKey, [prefix] + id);
        dbs := dbs[name := dbs[name][flushIDKey := [prefix] + id]];
        budget := budget - 1;
        rest := rest - {name};
        done := done + {name};
      }
      left := Some(budget);
    }

    /** Flush of one wrapper, write by write; nothing is pending in it afterwards unless the writes ran out. */
    method FlushOne(name: Name, writes: nat) returns (left: Option<nat>)
      requires Valid() && name in dbs
      modifies this`dbs, this`pending
      ensures dbs.Keys == old(dbs).Keys && (forall n :: n in dbs && n != name ==> dbs[n] == old(dbs)[n])
      ensures MarkOf(dbs[name], flushIDKey) == MarkOf(old(dbs)[name], flushIDKey)
      ensures left.Some? <==> writes >= |old(pending)[name]|
      ensures left.Some? ==>
                && left.value == writes - |old(pending)[name]|
                && dbs[name] == Overlay(old(dbs)[name], old(pending)[name])
      ensures pending == if left.Some? then old(pending)[name := map[]] else old(pending)
      ensures Overlay(dbs[name], pending[name]) == Overlay(old(dbs)[name], old(pending)[name])
    {
      hide Overlay, Apply, ApplyOne, Agrees, Flushing, Ascending;
      var modified, budget: nat := pending[name], writes;
      ghost var was := dbs[name];
      var keys := Sorted(modified.Keys);
      FlushStart(was, modified, keys);
      for i := 0 to |keys|
        invariant dbs.Keys == old(dbs).Keys && (forall n :: n in dbs && n != name ==> dbs[n] == old(dbs)[n])
        invariant budget + i == writes && pending == old(pending)
        invariant Flushing(was, dbs[name], modified, keys, i)
      {
        MarkKept(was, dbs[name], modified, keys, i, flushIDKey);
        FlushingKeepsView(was, dbs[name], modified, keys, i);
        if budget == 0 {
          return None;
        }
        assert keys[i] in keys;
        var w := Write(keys[i], modified[keys[i]]);
        FlushingOne(was, dbs[name], modified, keys, i, w);
        dbs := dbs[name := ApplyOne(dbs[name], w)];
        budget := budget - 1;
      }
      MarkKept(was, dbs[name], modified, keys, |keys|, flushIDKey);
      FlushingDone(was, dbs[name], modified, keys);
      pending := pending[name := map[]];
      left := Some(budget);
    }

    /** Flush of every wrapper, in any order; None when the writes run out. */
    method FlushAll(writes: nat) returns (left: Option<nat>)
      requires Valid()
      modifies this`dbs, this`pending
      ensures dbs.Keys == old(dbs).Keys && SameMarks(old(dbs), dbs, flushIDKey) && Valid()
      ensures left.Some? <==> writes >= PendingPairs(old(pending), old(dbs).Keys)
      ensures left.Some? ==> left.value == writes - PendingPairs(old(pending), old(dbs).Keys)
      ensures left.Some? ==>
                forall n :: n in dbs ==> dbs[n] == Overlay(old(dbs)[n], old(pending)[n]) && pending[n] == map[]
      ensures SameViews(old(dbs), old(pending), dbs, pending, flushIDKey)
    {
      hide Overlay, MarkOf, SameMarks, PendingPairs, SameViews, FlushedBut;
      SameMarksStart(dbs, flushIDKey);
      FlushedNone(dbs, pending);
      var rest, budget: nat := dbs.Keys, writes;
      while rest != {}
        invariant rest <= dbs.Keys == old(dbs).Keys && SameMarks(old(dbs), dbs, flushIDKey) && Valid()
        invariant budget + PendingPairs(old(pending), old(dbs).Keys) == writes + PendingPairs(old(pending), rest)
        invariant FlushedBut(old(dbs), old(pending), dbs, pending, rest)
      {
        var name :| name in rest;
        PendingWithout(old(pending), rest, name);
        ghost var before, waiting := dbs, pending;
        FlushedButOne(old(dbs), old(pending), before, waiting, rest, name);
        var r := FlushOne(name, budget);
        SameMarksStep(old(dbs), before, dbs, name, flushIDKey);
        FlushedViews(old(dbs), old(pending), before, waiting, rest, dbs, pending, name, flushIDKey);
        if r.None? {
          return None;
        }
        FlushedStep(old(dbs), old(pending), before, waiting, rest, dbs, pending, name);
        budget := r.value;
        rest := rest - {name};
      }
      NothingPending(old(pending));
      FlushedAll(old(dbs), old(pending), dbs, pending, flushIDKey);
      left := Some(budget);
    }

    /**
     flush, cut after any number of writes: what the check would accept is all old or all new.
     It completes when the writes cover two marks a database and every pending pair.
     A complete flush leaves everything new, and the check accepts it with the clean mark of the id. Readers of the
     wrappers see what they saw, wherever it is cut.
     */
    method Flush(id: Bytes, writes: nat) returns (complete: bool)
      requires Valid()
      modifies this
      ensures dbs.Keys == old(dbs).Keys
      ensures AllOrNothing(old(dbs), old(pending), flushIDKey, id, dbs)
      ensures old(dbs).Keys <= old(pending).Keys
      ensures complete <==> writes >= 2 * |old(dbs).Keys| + PendingPairs(old(pending), old(dbs).Keys)
      ensures Valid() && SameViews(old(dbs), old(pending), dbs, pending, flushIDKey)
      ensures complete ==> dbs == Flushed(old(dbs), old(pending), flushIDKey, id)
      ensures complete ==> forall n :: n in dbs ==> pending[n] == map[]
      ensures complete ==> Synced(dbs, flushIDKey, if dbs.Keys == {} then None else Some([0x00] + id))
    {
      hide Synced, Overlay, MarkOf, Marked, AllDirty, SameMarks, Flushed, AllOrNothing, PendingPairs, SameViews;
      ghost var was := pending;
      var left, done := MarkAll(DIRTY_PREFIX, id, writes);
      DirtyPhase(old(dbs), was, done, flushIDKey, id, dbs);
      MarkedViews(old(dbs), was, done, flushIDKey, [DIRTY_PREFIX] + id);
      if left.None? {
        return false;
      }
      ghost var dirty := dbs;
      left := FlushAll(left.value);
      DataPhase(old(dbs), was, dirty, dbs, flushIDKey, id);
      SameViewsTrans(old(dbs), was, dirty, was, dbs, pending, flushIDKey);
      if left.None? {
        return false;
      }
      ghost var data := dbs;
      left, done := MarkAll(CLEAN_PREFIX, id, left.value);
      CleanPhase(old(dbs), was, dirty, data, done, flushIDKey, id, dbs);
      MarkedViews(data, pending, done, flushIDKey, [CLEAN_PREFIX] + id);
      SameViewsTrans(old(dbs), was, data, pending, dbs, pending, flushIDKey);
      return left.Some?;
    }
  }

  lemma FlushingOne(was: Table, db: Table, modified: Changes, keys: seq<Bytes>, i: nat, w: Write)
    requires Flushing(was, db, modified, keys, i) && Ascending(keys) && i < |keys| && keys[i] in modified
    requires w == Write(keys[i], modified[keys[i]])
    ensures Flushing(was, ApplyOne(db, w), modified, keys, i + 1)
  {
    hide Flushing, Ascending, ApplyOne;
    assert [w][..1] == [w] && [w][..0] == [];
    WritesNone(modified, keys, i);
    WritesNext(modified, keys, i, i, []);
    assert [] + [w] == [w];
    FlushingMore(was, db, modified, keys, i, i + 1, [w], 1, ApplyOne(db, w));
  }

  lemma MarkKept(was: Table, db: Table, modified: Changes, keys: seq<Bytes>, i: nat, key: Bytes)
    requires Flushing(was, db, modified, keys, i) && key !in modified
    ensures MarkOf(db, key) == MarkOf(was, key)
  {
  }

  /** Up to the last dirty mark: untouched, or refused. */
  lemma DirtyPhase(was: Databases, pending: map<Name, Changes>, done: set<Name>, key: Bytes, id: Bytes, dbs: Databases)
    requires was.Keys == pending.Keys && done <= was.Keys && dbs == Marked(was, done, key, [DIRTY_PREFIX] + id)
    ensures dbs.Keys == was.Keys && AllOrNothing(was, pending, key, id, dbs)
    ensures done == was.Keys ==> AllDirty(dbs, key)
  {
    hide Synced, Flushed;
    if done == {} {
      NoneMarked(was, key, [DIRTY_PREFIX] + id);
    } else {
      CutMarking(was, done, key, [DIRTY_PREFIX] + id);
    }
  }

  /** While the data goes down every database is dirty. */
  lemma DataPhase(was: Databases, pending: map<Name, Changes>, dirty: Databases, dbs: Databases, key: Bytes, id: Bytes)
    requires was.Keys == pending.Keys == dirty.Keys && AllDirty(dirty, key) && SameMarks(dirty, dbs, key)
    ensures AllDirty(dbs, key) && AllOrNothing(was, pending, key, id, dbs)
  {
    hide Synced, Flushed;
    forall n | n in dbs ensures key in dbs[n] && IsDirty(dbs[n][key]) {
      assert MarkOf(dbs[n], key) == MarkOf(dirty[n], key);
    }
    if n :| n in dbs {
      forall flushID ensures !Synced(dbs, key, flushID) {
        DirtyIsRefused(dbs, key, n, flushID);
      }
    } else {
      assert dbs == was;
    }
  }

  /** Up to the last clean mark: refused, then all new. */
  lemma CleanPhase(
    was: Databases, pending: map<Name, Changes>, dirty: Databases, data: Databases, done: set<Name>, key: Bytes,
        id: Bytes, dbs: Databases)
    requires was.Keys == pending.Keys == data.Keys == dirty.Keys && AllDirty(data, key) && done <= data.Keys
    requires dirty == Marked(was, was.Keys, key, [DIRTY_PREFIX] + id)
    requires forall n :: n in data ==> key !in pending[n] && data[n] == Overlay(dirty[n], pending[n])
    requires dbs == Marked(data, done, key, [CLEAN_PREFIX] + id)
    ensures dbs.Keys == was.Keys && AllOrNothing(was, pending, key, id, dbs)
    ensures done == data.Keys ==> dbs == Flushed(was, pending, key, id)
    ensures done == data.Keys ==> Synced(dbs, key, if dbs.Keys == {} then None else Some([CLEAN_PREFIX] + id))
  {
    hide Synced, Overlay, Flushed, AllDirty;
    if done == data.Keys {
      CleanDone(was, pending, dirty, data, key, id, dbs);
      CleanIsSynced(was, pending, key, id);
    } else {
      CutMarking(data, done, key, [CLEAN_PREFIX] + id);
    }
  }

  lemma CleanDone(
    was: Databases, pending: map<Name, Changes>, dirty: Databases, data: Databases, key: Bytes, id: Bytes,
        dbs: Databases)
    requires was.Keys == pending.Keys == data.Keys == dirty.Keys
    requires dirty == Marked(was, was.Keys, key, [DIRTY_PREFIX] + id)
    requires forall n :: n in data ==> key !in pending[n] && data[n] == Overlay(dirty[n], pending[n])
    requires dbs == Marked(data, data.Keys, key, [CLEAN_PREFIX] + id)
    ensures dbs == Flushed(was, pending, key, id)
  {
    hide Overlay;
    forall n | n in dbs ensures dbs[n] == Overlay(was[n], pending[n])[key := [CLEAN_PREFIX] + id] {
      MarkedOverlay(was[n], pending[n], key, [DIRTY_PREFIX] + id, [CLEAN_PREFIX] + id);
    }
  }

  lemma CleanIsSynced(was: Databases, pending: map<Name, Changes>, key: Bytes, id: Bytes)
    requires was.Keys == pending.Keys
    ensures var dbs := Flushed(was, pending, key, id);
            Synced(dbs, key, if dbs.Keys == {} then None else Some([CLEAN_PREFIX] + id))
  {
    hide Overlay;
    var dbs, mark := Flushed(was, pending, key, id), [CLEAN_PREFIX] + id;
    assert mark[0] != DIRTY_PREFIX && !IsDirty(mark);
    assert forall n :: n in dbs ==> key in dbs[n] && dbs[n][key] == mark;
  }

  lemma MarkedOverlay(db: Table, modified: Changes, key: Bytes, dirty: Bytes, clean: Bytes)
    requires key !in modified
    ensures Overlay(db[key := dirty], modified)[key := clean] == Overlay(db, modified)[key := clean]
  {
  }
}
