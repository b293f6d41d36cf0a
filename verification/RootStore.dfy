/** Root records and their per-frame cache (abft/store_roots.go). */
module RootStore {
  import opened Dags
  import opened Basics
  import opened ElectionSpec
  import Lru

  /** The list holds exactly the stored roots of frame f. */
  ghost predicate HoldsFrame(table: set<Root>, f: nat, list: seq<Root>) {
    forall r :: r in list <==> r in table && r.slot.frame == f
  }

  /** ... and each of them once. */
  ghost predicate ListsFrame(table: set<Root>, f: nat, list: seq<Root>) {
    HoldsFrame(table, f, list) && NoDup(list)
  }

  /** The records of an event that is a root of every frame above `from`, up to frame `upTo`. */
  ghost function RootsOf(e: Event, from: nat, upTo: nat): set<Root> {
    set f | from < f <= upTo :: Root(e.id, Slot(f, e.creator))
  }

  lemma OtherFrame(table: set<Root>, r: Root, f: nat, list: seq<Root>)
    requires HoldsFrame(table, f, list) && r.slot.frame != f
    ensures HoldsFrame(table + {r}, f, list)
  {
  }

  lemma SameFrame(table: set<Root>, r: Root, list: seq<Root>)
    requires HoldsFrame(table, r.slot.frame, list)
    ensures HoldsFrame(table + {r}, r.slot.frame, list + [r])
    ensures NoDup(list) && r !in table ==> NoDup(list + [r])
  {
  }

  class Store {
    var table: set<Root>
    const frameRoots: Lru.Cache<nat, seq<Root>>

    /** A cached frame has the stored roots of the frame. */
    ghost predicate Current()
      reads this, frameRoots
    {
      frameRoots.Valid() && forall f :: f in frameRoots.items ==> HoldsFrame(table, f, frameRoots.items[f].value)
    }

    /** ... each of them once. */
    ghost predicate Valid()
      reads this, frameRoots
    {
      frameRoots.Valid() && forall f :: f in frameRoots.items ==> ListsFrame(table, f, frameRoots.items[f].value)
    }

    constructor (cacheNum: nat, cacheFrames: nat)
      ensures Valid() && fresh(frameRoots) && table == {}
    {
      table := {};
      frameRoots := new Lru.Cache(cacheNum, cacheFrames);
    }

    /**
     AddRoot: one record per frame that the event newly reaches. Only records stored twice can repeat in a cached
     frame.
     */
    method AddRoot(selfParentFrame: nat, e: Event)
      requires Current()
      modifies this`table, frameRoots
      ensures Current() && table == old(table) + RootsOf(e, selfParentFrame, e.frame)
      ensures old(Valid()) && RootsOf(e, selfParentFrame, e.frame) !! old(table) ==> Valid()
    {
      hide HoldsFrame, NoDup, frameRoots.Valid;
      var f := selfParentFrame + 1;
      ghost var once := Valid() && RootsOf(e, selfParentFrame, e.frame) !! table;
      assert RootsOf(e, selfParentFrame, selfParentFrame) == {};
      while f <= e.frame
        invariant selfParentFrame < f && (f > selfParentFrame + 1 ==> f <= e.frame + 1)
        invariant Current() && table == old(table) + RootsOf(e, selfParentFrame, f - 1) && (once ==> Valid())
        decreases e.frame + 1 - f
      {
        assert Root(e.id, Slot(f, e.creator)) in RootsOf(e, selfParentFrame, e.frame);
        AddRecord(e, f);
        assert RootsOf(e, selfParentFrame, f) == RootsOf(e, selfParentFrame, f - 1) + {Root(e.id, Slot(f, e.creator))};
        f := f + 1;
      }
      assert selfParentFrame >= e.frame ==> RootsOf(e, selfParentFrame, e.frame) == {};
    }

    /** addRoot: the record, and the cached list of its frame if there is one. */
    method AddRecord(e: Event, frame: nat)
      requires Current()
      modifies this`table, frameRoots
      ensures Current() && table == old(table) + {Root(e.id, Slot(frame, e.creator))}
      ensures old(Valid()) && Root(e.id, Slot(frame, e.creator)) !in old(table) ==> Valid()
    {
      hide NoDup, Lru.Without, Lru.WeightSum, Lru.LongestFit, HoldsFrame;
      var r := Root(e.id, Slot(frame, e.creator));
      forall f | f in frameRoots.items && f != frame ensures HoldsFrame(table + {r}, f, frameRoots.items[f].value) {
        OtherFrame(table, r, f, frameRoots.items[f].value);
      }
      table := table + {r};
      var c := frameRoots.Get(frame);
      if c.Some? {
        var rr := c.value + [r];
        SameFrame(old(table), r, c.value);
        var _ := frameRoots.Add(frame, rr, |rr|);
      }
    }

    /** GetFrameRoots: all stored roots of a frame, from the cache or from the table in some order. */
    method GetFrameRoots(f: nat) returns (rr: seq<Root>)
      requires Valid()
      modifies frameRoots
      ensures Valid() && ListsFrame(table, f, rr)
    {
      var c := frameRoots.Get(f);
      if c.Some? {
        return c.value;
      }
      rr := [];
      var rest := set r | r in table && r.slot.frame == f;
      while rest != {}
        invariant NoDup(rr) && (forall r :: r in rr ==> r !in rest)
        invariant forall r :: r in table && r.slot.frame == f <==> r in rr || r in rest
      {
        var r :| r in rest;
        rest := rest - {r};
        rr := rr + [r];
      }
      var _ := frameRoots.Add(f, rr, |rr|);
    }
  }
}
