/** The write cache over a database (kvdb/flushable/flushable.go): reads see the overlay, flush moves it down. */
module Flushables {
  import opened Basics
  import opened KeyOrder

  type Table = map<Bytes, Bytes>
  type Changes = map<Bytes, Option<Bytes>>    // None is a deletion

  datatype Write = Write(key: Bytes, value: Option<Bytes>)

  datatype Answer<T> = Closed | Answer(value: T)

  /** What a reader of the cache sees. */
  ghost function Overlay(db: Table, modified: Changes): Table {
    map k | k in db.Keys + modified.Keys && (k in modified ==> modified[k].Some?) ::
      if k in modified then modified[k].value else db[k]
  }

  function ApplyOne(db: Table, w: Write): Table {
    match w.value
    case Some(v) => db[w.key := v]
    case None => db - {w.key}
  }

  function Apply(db: Table, writes: seq<Write>): Table {
    if writes == [] then db else ApplyOne(Apply(db, writes[..|writes| - 1]), writes[|writes| - 1])
  }

  ghost predicate Agrees(db: Table, k: Bytes, v: Option<Bytes>) {
    if k in db then v == Some(db[k]) else v == None
  }

  // ---------------------------------------------------------------- writing through

  lemma OverlayChange(db: Table, modified: Changes, w: Write)
    ensures Overlay(db, modified[w.key := w.value]) == ApplyOne(Overlay(db, modified), w)
  {
  }

  /** Only keys pending in the cache differ: readers of the cache see no difference. */
  lemma OverlaySame(was: Table, db: Table, modified: Changes)
    requires forall k :: k !in modified ==> (k in db <==> k in was) && (k in db ==> db[k] == was[k])
    ensures Overlay(db, modified) == Overlay(was, modified)
  {
    assert Overlay(db, modified).Keys == Overlay(was, modified).Keys;
  }

  /** All pending keys written: the database is what readers saw. */
  lemma OverlayReached(was: Table, db: Table, modified: Changes)
    requires forall k :: k !in modified ==> (k in db <==> k in was) && (k in db ==> db[k] == was[k])
    requires forall k :: k in modified ==> Agrees(db, k, modified[k])
    ensures db == Overlay(was, modified)
  {
    assert db.Keys == Overlay(was, modified).Keys;
  }

  lemma {:induction false} ApplyOthers(db: Table, writes: seq<Write>, k: Bytes)
    requires forall i :: 0 <= i < |writes| ==> writes[i].key != k
    ensures (k in Apply(db, writes) <==> k in db) && (k in db ==> Apply(db, writes)[k] == db[k])
  {
    if writes != [] {
      ApplyOthers(db, writes[..|writes| - 1], k);
    }
  }

  lemma {:induction false} ApplyHits(db: Table, writes: seq<Write>, i: nat)
    requires i < |writes| && forall j, k :: 0 <= j < k < |writes| ==> writes[j].key != writes[k].key
    ensures Agrees(Apply(db, writes), writes[i].key, writes[i].value)
  {
    var init := writes[..|writes| - 1];
    if i < |init| {
      ApplyHits(db, init, i);
      assert writes[i].key != writes[|writes| - 1].key;
    }
  }

  /** The i-th write of a batch that starts at key `from`. */
  ghost predicate WriteAt(modified: Changes, keys: seq<Bytes>, from: nat, i: nat, w: Write) {
    from + i < |keys| && w.key == keys[from + i] && w.key in modified && w.value == modified[w.key]
  }

  /** The writes for some of the pending keys. */
  ghost predicate WritesFor(modified: Changes, keys: seq<Bytes>, from: nat, to: nat, batch: seq<Write>) {
    && from <= to <= |keys| && |batch| == to - from
    && forall i :: 0 <= i < |batch| ==> WriteAt(modified, keys, from, i, batch[i])
  }

  /** Under way: pending keys below `from` are written, keys that are not pending are as before. */
  ghost predicate Flushing(was: Table, db: Table, modified: Changes, keys: seq<Bytes>, from: nat) {
    && from <= |keys|
    && (forall k :: k !in modified ==> (k in db <==> k in was) && (k in db ==> db[k] == was[k]))
    && (forall i :: 0 <= i < from ==> keys[i] in modified && Agrees(db, keys[i], modified[keys[i]]))
  }

  lemma FlushingMore(
    was: Table, db: Table, modified: Changes, keys: seq<Bytes>, from: nat, to: nat, batch: seq<Write>, n: nat,
        next: Table)
    requires Flushing(was, db, modified, keys, from) && WritesFor(modified, keys, from, to, batch) && Ascending(keys)
    requires n <= |batch| && next == Apply(db, batch[..n])
    ensures Flushing(was, next, modified, keys, from + n)
  {
    var part := batch[..n];
    forall i, j | 0 <= i < j < |keys| ensures keys[i] != keys[j] {
      LessIrreflexive(keys[i]);
    }
    forall k | k !in modified ensures (k in next <==> k in was) && (k in next ==> next[k] == was[k]) {
      ApplyOthers(db, part, k);
    }
    forall i | 0 <= i < from + n ensures keys[i] in modified && Agrees(next, keys[i], modified[keys[i]]) {
      if i < from {
        ApplyOthers(db, part, keys[i]);
      } else {
        assert part[i - from] == batch[i - from];
        assert WriteAt(modified, keys, from, i - from, batch[i - from]);
        ApplyHits(db, part, i - from);
      }
    }
  }

  lemma FlushingKeepsView(was: Table, db: Table, modified: Changes, keys: seq<Bytes>, from: nat)
    requires Flushing(was, db, modified, keys, from)
    ensures Overlay(db, modified) == Overlay(was, modified)
  {
    hide Overlay, Agrees;
    OverlaySame(was, db, modified);
  }

  lemma FlushingDone(was: Table, db: Table, modified: Changes, keys: seq<Bytes>)
    requires Flushing(was, db, modified, keys, |keys|) && forall k :: k in keys <==> k in modified
    ensures db == Overlay(was, modified) && Overlay(db, map[]) == Overlay(was, modified)
  {
    forall k | k in modified ensures Agrees(db, k, modified[k]) {
      var i :| 0 <= i < |keys| && keys[i] == k;
    }
    OverlayReached(was, db, modified);
    hide Agrees;
    assert Overlay(db, map[]) == db;
  }

  // ---------------------------------------------------------------- batches

  /** The pending pairs of the first n keys, as writes. */
  ghost function WritesOf(modified: Changes, keys: seq<Bytes>, n: nat): (w: seq<Write>)
    requires n <= |keys| && forall k :: k in keys ==> k in modified
    ensures |w| == n && forall i :: 0 <= i < n ==> w[i] == Write(keys[i], modified[keys[i]])
  {
    seq(n, i requires 0 <= i < n => assert keys[i] in keys; Write(keys[i], modified[keys[i]]))
  }

  function PairSize(modified: Changes, k: Bytes): nat
    requires k in modified
  {
    |k| + if modified[k].Some? then |modified[k].value| else 0
  }

  /** What the pairs from key `from` up to key n weigh. */
  ghost function SizeOf(modified: Changes, keys: seq<Bytes>, from: nat, n: nat): nat
    requires from <= n <= |keys| && forall k :: k in keys ==> k in modified
  {
    if n == from then 0
    else
      assert keys[n - 1] in keys;
      SizeOf(modified, keys, from, n - 1) + PairSize(modified, keys[n - 1])
  }

  /** Where the batch under way starts once n keys are in: a batch ends as soon as it weighs more than 100 KiB. */
  ghost function LastCut(modified: Changes, keys: seq<Bytes>, n: nat): (c: nat)
    requires n <= |keys| && forall k :: k in keys ==> k in modified
    ensures c <= n
  {
    if n == 0 then 0
    else
      var from := LastCut(modified, keys, n - 1);
      if SizeOf(modified, keys, from, n) > 102400 then n else from
  }

  /** How many batches have ended by then. */
  ghost function Cuts(modified: Changes, keys: seq<Bytes>, n: nat): nat
    requires n <= |keys| && forall k :: k in keys ==> k in modified
  {
    if n == 0 then 0 else Cuts(modified, keys, n - 1) + if LastCut(modified, keys, n) == n then 1 else 0
  }

  /** The operations on the parent's batch that a flush makes: one a pair, one a full batch, and the last write. */
  ghost function FlushOps(modified: Changes, keys: seq<Bytes>): nat
    requires forall k :: k in keys ==> k in modified
  {
    |keys| + Cuts(modified, keys, |keys|) + 1
  }

  /** The pairs of the batches, among the first n keys, that are written within this many operations. */
  ghost function WrittenBy(modified: Changes, keys: seq<Bytes>, n: nat, ops: nat): (c: nat)
    requires n <= |keys| && forall k :: k in keys ==> k in modified
    ensures c <= n
  {
    if n == 0 then 0
    else if LastCut(modified, keys, n) == n && n + Cuts(modified, keys, n) <= ops then n
    else WrittenBy(modified, keys, n - 1, ops)
  }

  lemma {:induction false} CutsGrow(modified: Changes, keys: seq<Bytes>, n: nat, m: nat)
    requires n < m <= |keys| && forall k :: k in keys ==> k in modified
    ensures Cuts(modified, keys, n) <= Cuts(modified, keys, m)
    ensures LastCut(modified, keys, m) == m ==> Cuts(modified, keys, n) < Cuts(modified, keys, m)
  {
    hide LastCut;
    if n < m - 1 {
      CutsGrow(modified, keys, n, m - 1);
    }
  }

  /** With enough operations for the first n keys, all the batches that have ended are written. */
  lemma {:induction false} AllWritten(modified: Changes, keys: seq<Bytes>, n: nat, ops: nat)
    requires n <= |keys| && (forall k :: k in keys ==> k in modified) && n + Cuts(modified, keys, n) <= ops
    ensures WrittenBy(modified, keys, n, ops) == LastCut(modified, keys, n)
  {
    hide SizeOf;
    if n > 0 {
      AllWritten(modified, keys, n - 1, ops);
    }
  }

  /** When the operations end right after the first n keys, no later batch is written. */
  lemma {:induction false} NoneLater(modified: Changes, keys: seq<Bytes>, n: nat, m: nat, ops: nat)
    requires n <= m <= |keys| && forall k :: k in keys ==> k in modified
    requires n + Cuts(modified, keys, n) <= ops < n + Cuts(modified, keys, n) + 2
    ensures WrittenBy(modified, keys, m, ops) == LastCut(modified, keys, n)
  {
    hide LastCut, Cuts;
    if m == n {
      AllWritten(modified, keys, n, ops);
    } else {
      CutsGrow(modified, keys, n, m);
      NoneLater(modified, keys, n, m - 1, ops);
    }
  }

  lemma {:induction false} ApplyApply(db: Table, a: seq<Write>, b: seq<Write>)
    ensures Apply(Apply(db, a), b) == Apply(db, a + b)
  {
    hide ApplyOne;
    if b == [] {
      assert a + b == a;
    } else {
      var init := b[..|b| - 1];
      ApplyApply(db, a, init);
      assert (a + b)[..|a + b| - 1] == a + init;
    }
  }

  /** n more writes of the batch under way are the next n pending pairs. */
  lemma ReachedMore(was: Table, db: Table, modified: Changes, keys: seq<Bytes>, from: nat, to: nat, batch: seq<Write>,
                    n: nat)
    requires (forall k :: k in keys ==> k in modified) && WritesFor(modified, keys, from, to, batch) && n <= |batch|
    requires db == Apply(was, WritesOf(modified, keys, from))
    ensures from + n <= |keys| && Apply(db, batch[..n]) == Apply(was, WritesOf(modified, keys, from + n))
  {
    hide Apply;
    ApplyApply(was, WritesOf(modified, keys, from), batch[..n]);
    forall i | 0 <= i < n ensures batch[i] == WritesOf(modified, keys, from + n)[from + i] {
      assert WriteAt(modified, keys, from, i, batch[i]);
      assert keys[from + i] in keys;
    }
    assert WritesOf(modified, keys, from) + batch[..n] == WritesOf(modified, keys, from + n);
  }

  class Flushable {
    var underlying: Table
    var modified: Changes
    var isClosed: bool

    ghost function View(): Table
      reads this
    {
      Overlay(underlying, modified)
    }

    constructor (parent: Table)
      ensures underlying == parent && modified == map[] && !isClosed && View() == parent
    {
      underlying, modified, isClosed := parent, map[], false;
    }

    /** Put: a nil key or value is refused. */
    method Put(key: Option<Bytes>, value: Option<Bytes>) returns (ok: bool)
      requires !isClosed
      modifies this`modified
      ensures ok <==> key.Some? && value.Some?
      ensures View() == if ok then old(View())[key.value := value.value] else old(View())
    {
      if value.None? || key.None? {
        return false;
      }
      OverlayChange(underlying, modified, Write(key.value, value));
      modified := modified[key.value := value];
      return true;
    }

    method Delete(key: Bytes)
      requires !isClosed
      modifies this`modified
      ensures View() == old(View()) - {key}
    {
      OverlayChange(underlying, modified, Write(key, None));
      modified := modified[key := None];
    }

    method Has(key: Bytes) returns (r: Answer<bool>)
      ensures r == if isClosed then Closed else Answer(key in View())
    {
      if isClosed {
        return Closed;
      }
      if key in modified {
        return Answer(modified[key] != None);
      }
      return Answer(key in underlying);
    }

    method Get(key: Bytes) returns (r: Answer<Option<Bytes>>)
      ensures r == if isClosed then Closed else Answer(if key in View() then Some(View()[key]) else None)
    {
      if isClosed {
        return Closed;
      }
      if key in modified {
        return Answer(modified[key]);
      }
      return Answer(if key in underlying then Some(underlying[key]) else None);
    }

    method DropNotFlushed()
      requires !isClosed
      modifies this`modified
      ensures modified == map[] && View() == underlying
    {
      modified := map[];
    }

    /** Write of the parent's batch: when it fails, a prefix of it may have reached the database. */
    method WriteBatch(batch: seq<Write>, succeeds: bool, reached: nat) returns (ghost n: nat)
      modifies this`underlying
      ensures n == if succeeds || reached > |batch| then |batch| else reached
      ensures underlying == Apply(old(underlying), batch[..n])
    {
      n := if succeeds || reached > |batch| then |batch| else reached;
      underlying := Apply(underlying, batch[..if succeeds || reached > |batch| then |batch| else reached]);
    }

    /**
     flush: pending pairs go down in batches, in key order. The database serves `healthy` operations on a batch and
     then fails one; if that is a write, `reached` of its pairs get through. The flush succeeds exactly if the
     operations suffice. Wherever it fails, readers of the cache see what they saw and the database has the pairs of
     the batches written before; when it succeeds the database is what they saw and nothing is pending.
     */
    method Flush(healthy: nat, reached: nat) returns (ok: bool, ghost keys: seq<Bytes>, ghost n: nat)
      modifies this`underlying, this`modified
      ensures Ascending(keys) && (forall k :: k in keys <==> k in old(modified)) && n <= |keys|
      ensures ok <==> !isClosed && healthy >= FlushOps(old(modified), keys)
      ensures View() == old(View())
      ensures underlying == Apply(old(underlying), WritesOf(old(modified), keys, n))
      ensures ok ==> n == |keys| && modified == map[] && underlying == old(View())
      ensures !ok ==> modified == old(modified)
      ensures !ok && isClosed ==> n == 0
      ensures !ok && !isClosed ==>
                var written := WrittenBy(old(modified), keys, |keys|, healthy);
                written <= n <= written + reached
    {
      hide *;
      ViewIs();
      var sorted := Sorted(modified.Keys);
      keys, n := sorted, 0;
      NoWrites(underlying, modified, keys);
      if isClosed {
        return false, keys, 0;
      }
      ghost var was := underlying;
      var batch: seq<Write>, size, ops := [], 0, 0;
      ghost var from := 0;
      FlushStart(was, modified, keys);
      BatchStart(modified, keys);
      for i := 0 to |sorted|
        invariant modified == old(modified) && from == LastCut(modified, keys, i) <= i
        invariant Flushing(was, underlying, modified, keys, from) && WritesFor(modified, keys, from, i, batch)
        invariant underlying == Apply(was, WritesOf(modified, keys, from)) && size == SizeOf(modified, keys, from, i)
        invariant ops == i + Cuts(modified, keys, i) <= healthy
      {
        FlushingKeepsView(was, underlying, modified, keys, from);
        assert keys[i] in keys;
        BatchNext(modified, keys, i);
        if ops == healthy {
          Fails(modified, keys, i, healthy);
          ViewIs();
          return false, keys, from;
        }
        ops := ops + 1;
        WritesNext(modified, keys, from, i, batch);
        batch := batch + [Write(sorted[i], modified[sorted[i]])];
        size := size + PairSize(modified, sorted[i]);
        if size > 102400 {
          ghost var before := underlying;
          WritesLen(modified, keys, from, i + 1, batch);
          var succeeds := ops < healthy;
          n := WriteBatch(batch, succeeds, reached);
          FlushingMore(was, before, modified, keys, from, i + 1, batch, n, underlying);
          ReachedMore(was, before, modified, keys, from, i + 1, batch, n);
          n := from + n;
          if !succeeds {
            FlushingKeepsView(was, underlying, modified, keys, n);
            Fails(modified, keys, i, healthy);
            ViewIs();
            return false, keys, n;
          }
          ops := ops + 1;
          from := i + 1;
          batch, size := [], 0;
          WritesNone(modified, keys, from);
        }
      }
      ghost var before := underlying;
      WritesLen(modified, keys, from, |keys|, batch);
      FlushOpsIs(modified, keys);
      var succeeds := ops < healthy;
      n := WriteBatch(batch, succeeds, reached);
      FlushingMore(was, before, modified, keys, from, |keys|, batch, n, underlying);
      ReachedMore(was, before, modified, keys, from, |keys|, batch, n);
      n := from + n;
      if !succeeds {
        FlushingKeepsView(was, underlying, modified, keys, n);
        Fails(modified, keys, |keys|, healthy);
        ViewIs();
        return false, keys, n;
      }
      FlushingDone(was, underlying, modified, keys);
      modified := map[];
      ViewIs();
      return true, keys, n;
    }

    lemma ViewIs()
      ensures View() == Overlay(underlying, modified)
    {
    }
  }

  lemma NoWrites(db: Table, modified: Changes, keys: seq<Bytes>)
    requires forall k :: k in keys ==> k in modified
    ensures WritesOf(modified, keys, 0) == [] && Apply(db, WritesOf(modified, keys, 0)) == db
  {
  }

  lemma BatchStart(modified: Changes, keys: seq<Bytes>)
    requires forall k :: k in keys ==> k in modified
    ensures LastCut(modified, keys, 0) == 0 && Cuts(modified, keys, 0) == 0 && SizeOf(modified, keys, 0, 0) == 0
  {
  }

  lemma BatchNext(modified: Changes, keys: seq<Bytes>, i: nat)
    requires (forall k :: k in keys ==> k in modified) && i < |keys| && keys[i] in modified
    ensures var from := LastCut(modified, keys, i);
            var size := SizeOf(modified, keys, from, i) + PairSize(modified, keys[i]);
            var cut := size > 102400;
            && from <= i && LastCut(modified, keys, i + 1) == (if cut then i + 1 else from)
            && Cuts(modified, keys, i + 1) == Cuts(modified, keys, i) + (if cut then 1 else 0)
            && SizeOf(modified, keys, LastCut(modified, keys, i + 1), i + 1) == if cut then 0 else size
  {
    hide PairSize;
  }

  lemma FlushOpsIs(modified: Changes, keys: seq<Bytes>)
    requires forall k :: k in keys ==> k in modified
    ensures FlushOps(modified, keys) == |keys| + Cuts(modified, keys, |keys|) + 1
  {
    hide Cuts;
  }

  /** A flush whose operations end right after the first i keys. */
  lemma Fails(modified: Changes, keys: seq<Bytes>, i: nat, healthy: nat)
    requires i <= |keys| && forall k :: k in keys ==> k in modified
    requires i + Cuts(modified, keys, i) <= healthy < i + Cuts(modified, keys, i) + 2
    requires i == |keys| ==> healthy == i + Cuts(modified, keys, i)
    ensures WrittenBy(modified, keys, |keys|, healthy) == LastCut(modified, keys, i)
    ensures healthy < FlushOps(modified, keys)
  {
    hide LastCut, Cuts, WrittenBy;
    NoneLater(modified, keys, i, |keys|, healthy);
    if i < |keys| {
      CutsGrow(modified, keys, i, |keys|);
    }
  }

  lemma FlushStart(was: Table, modified: Changes, keys: seq<Bytes>)
    ensures Flushing(was, was, modified, keys, 0) && WritesFor(modified, keys, 0, 0, [])
  {
  }

  lemma WritesNext(modified: Changes, keys: seq<Bytes>, from: nat, i: nat, batch: seq<Write>)
    requires WritesFor(modified, keys, from, i, batch) && i < |keys| && keys[i] in modified
    ensures WritesFor(modified, keys, from, i + 1, batch + [Write(keys[i], modified[keys[i]])])
  {
  }

  lemma WritesLen(modified: Changes, keys: seq<Bytes>, from: nat, i: nat, batch: seq<Write>)
    requires WritesFor(modified, keys, from, i, batch)
    ensures from + |batch| == i
  {
  }

  lemma WritesNone(modified: Changes, keys: seq<Bytes>, from: nat)
    requires from <= |keys|
    ensures WritesFor(modified, keys, from, from, [])
  {
  }

  /** The batch over the cache (cacheBatch). */
  class CacheBatch {
    const db: Flushable
    var writes: seq<Write>

    constructor (db: Flushable)
      ensures this.db == db && writes == []
    {
      this.db := db;
      writes := [];
    }

    method Put(key: Bytes, value: Bytes)
      modifies this
      ensures writes == old(writes) + [Write(key, Some(value))]
    {
      writes := writes + [Write(key, Some(value))];
    }

    method Delete(key: Bytes)
      modifies this
      ensures writes == old(writes) + [Write(key, None)]
    {
      writes := writes + [Write(key, None)];
    }

    /**
     Write: the cache reads as if the collected writes had been applied to it in order; the database is not touched.
     */
    method Commit() returns (ok: bool)
      modifies db`modified
      ensures ok <==> !db.isClosed
      ensures db.View() == if ok then Apply(old(db.View()), writes) else old(db.View())
    {
      if db.isClosed {
        return false;
      }
      for i := 0 to |writes|
        invariant db.View() == Apply(old(db.View()), writes[..i])
      {
        assert writes[..i + 1][..i] == writes[..i];
        OverlayChange(db.underlying, db.modified, writes[i]);
        db.modified := db.modified[writes[i].key := writes[i].value];
      }
      assert writes[..|writes|] == writes;
      return true;
    }
  }
}
