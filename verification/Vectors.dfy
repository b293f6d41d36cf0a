/** Zero-extended vectors of sequence numbers and their byte encoding (vecfc/vector.go, vecfc/vector_ops.go). */
module Vectors {
  import opened Basics
  import opened Dags

  /** Highest and lowest observed sequence number on a branch. */
  datatype BranchSeq = BranchSeq(seqno: nat, minSeq: nat) {
    predicate IsForkDetected() {
      this == FORK
    }

    predicate IsEmpty() {
      !IsForkDetected() && seqno == 0
    }
  }

  const EMPTY := BranchSeq(0, 0)
  const FORK := BranchSeq(0, MAX_INT32)

  /** Entries past the end read as the zero entry. */
  function Get<T>(v: seq<T>, i: nat, zero: T): T {
    if i < |v| then v[i] else zero
  }

  function Zeros<T>(n: nat, zero: T): (r: seq<T>)
    ensures |r| == n && forall i :: 0 <= i < n ==> r[i] == zero
  {
    seq(n, _ => zero)
  }

  /** Writing past the end first appends zero entries. */
  function Set<T>(v: seq<T>, i: nat, x: T, zero: T): (r: seq<T>)
    ensures |r| == (if i < |v| then |v| else i + 1)
    ensures forall j :: Get(r, j, zero) == if j == i then x else Get(v, j, zero)
  {
    if i < |v| then v[i := x] else v + Zeros(i - |v|, zero) + [x]
  }

  /** CollectFrom on one branch: what mine becomes after learning his. */
  function Merge(mine: BranchSeq, his: BranchSeq): BranchSeq {
    if his.IsEmpty() || mine.IsForkDetected() then mine
    else if his.IsForkDetected() then FORK
    else BranchSeq(if mine.seqno < his.seqno then his.seqno else mine.seqno,
                   if mine.seqno == 0 || mine.minSeq > his.minSeq then his.minSeq else mine.minSeq)
  }

  /** CollectFrom: merges the first `num` branches of another vector into this one, in place. */
  method CollectFrom(v: seq<BranchSeq>, other: seq<BranchSeq>, num: nat) returns (r: seq<BranchSeq>)
    requires |v| == num
    ensures |r| == num
    ensures forall b :: 0 <= b < num ==> r[b] == Merge(v[b], Get(other, b, EMPTY))
  {
    r := v;
    for b := 0 to num
      invariant |r| == num
      invariant forall j :: 0 <= j < b ==> r[j] == Merge(v[j], Get(other, j, EMPTY))
      invariant forall j :: b <= j < num ==> r[j] == v[j]
    {
      var his := Get(other, b, EMPTY);
      if his.seqno == 0 && !his.IsForkDetected() {
        continue;
      }
      var mine := r[b];
      if mine.IsForkDetected() {
        continue;
      }
      if his.IsForkDetected() {
        r := Set(r, b, FORK, EMPTY);
      } else {
        if mine.seqno == 0 || mine.minSeq > his.minSeq {
          mine := mine.(minSeq := his.minSeq);
          r := Set(r, b, mine, EMPTY);
        }
        if mine.seqno < his.seqno {
          mine := mine.(seqno := his.seqno);
          r := Set(r, b, mine, EMPTY);
        }
      }
    }
  }

  /** GatherFrom: the first fork marker among the branches, or else the entry with the highest sequence number. */
  method GatherFrom(other: seq<BranchSeq>, from: seq<nat>) returns (r: BranchSeq)
    ensures r == FORK <==> exists i :: 0 <= i < |from| && Get(other, from[i], EMPTY) == FORK
    ensures r != FORK ==> forall i :: 0 <= i < |from| ==> Get(other, from[i], EMPTY).seqno <= r.seqno
    ensures r == EMPTY || exists i :: 0 <= i < |from| && Get(other, from[i], EMPTY) == r
  {
    r := EMPTY;
    for i := 0 to |from|
      invariant r != FORK
      invariant forall j :: 0 <= j < i ==>
                  Get(other, from[j], EMPTY) != FORK && Get(other, from[j], EMPTY).seqno <= r.seqno
      invariant r == EMPTY || exists j :: 0 <= j < i && Get(other, from[j], EMPTY) == r
    {
      var branch := Get(other, from[i], EMPTY);
      if branch.IsForkDetected() {
        return branch;
      }
      if branch.seqno > r.seqno {
        r := branch;
      }
    }
  }

  // ---------------------------------------------------------------- byte encoding

  function Uint32(b: seq<byte>, at: nat): nat
    requires at + 4 <= |b|
  {
    b[at] as nat + 0x100 * b[at + 1] as nat + 0x1_0000 * b[at + 2] as nat + 0x100_0000 * b[at + 3] as nat
  }

  function Word(x: nat): (w: seq<byte>)
    requires x < 0x1_0000_0000
    ensures |w| == 4 && Uint32(w, 0) == x
  {
    var x1 := x / 0x100;
    var x2 := x1 / 0x100;
    [(x % 0x100) as byte, (x1 % 0x100) as byte, (x2 % 0x100) as byte, (x2 / 0x100) as byte]
  }

  /** PutUint32. */
  function PutUint32(b: seq<byte>, at: nat, x: nat): (r: seq<byte>)
    requires at + 4 <= |b| && x < 0x1_0000_0000
    ensures |r| == |b| && Uint32(r, at) == x
    ensures forall k :: 0 <= k && (k + 4 <= at || at + 4 <= k) && k + 4 <= |b| ==> Uint32(r, k) == Uint32(b, k)
  {
    var w := Word(x);
    b[at := w[0]][at + 1 := w[1]][at + 2 := w[2]][at + 3 := w[3]]
  }

  /** LowestAfterSeq: four little-endian bytes an entry. */
  class LowestAfterSeq {
    var bytes: seq<byte>

    function Size(): nat
      reads this
    {
      |bytes| / 4
    }

    function Get(i: nat): nat
      reads this
    {
      if i >= Size() then 0 else Uint32(bytes, i * 4)
    }

    constructor (size: nat)
      ensures Size() == size && forall i :: Get(i) == 0
    {
      bytes := Zeros(size * 4, 0);
    }

    /** Set grows the slice with zero entries up to i and overwrites entry i only. */
    method Set(i: nat, x: nat)
      requires |bytes| % 4 == 0 && x < 0x1_0000_0000
      modifies this
      ensures |bytes| % 4 == 0
      ensures Size() == if i < old(Size()) then old(Size()) else i + 1
      ensures forall j :: Get(j) == if j == i then x else old(Get(j))
    {
      while i >= Size()
        invariant |bytes| % 4 == 0 && old(Size()) <= Size()
        invariant Size() == old(Size()) || Size() <= i + 1
        invariant forall j :: Get(j) == old(Get(j))
        decreases i + 1 - Size()
      {
        GrowKeeps(bytes, [0, 0, 0, 0]);
        bytes := bytes + [0, 0, 0, 0];
      }
      bytes := PutUint32(bytes, i * 4, x);
    }
  }

  lemma GrowKeeps(b: seq<byte>, z: seq<byte>)
    requires forall k :: 0 <= k < |z| ==> z[k] == 0
    ensures forall k :: 0 <= k && k + 4 <= |b| ==> Uint32(b + z, k) == Uint32(b, k)
    ensures forall k :: |b| <= k && k + 4 <= |b| + |z| ==> Uint32(b + z, k) == 0
  {
  }

  /** HighestBeforeSeq: two little-endian words an entry. */
  class HighestBeforeSeq {
    var bytes: seq<byte>

    function Size(): nat
      reads this
    {
      |bytes| / 8
    }

    function Get(i: nat): BranchSeq
      reads this
    {
      if i >= Size() then EMPTY else BranchSeq(Uint32(bytes, i * 8), Uint32(bytes, i * 8 + 4))
    }

    constructor (size: nat)
      ensures Size() == size && forall i :: Get(i) == EMPTY
    {
      bytes := Zeros(size * 8, 0);
    }

    method Set(i: nat, x: BranchSeq)
      requires |bytes| % 8 == 0 && x.seqno < 0x1_0000_0000 && x.minSeq < 0x1_0000_0000
      modifies this
      ensures |bytes| % 8 == 0
      ensures Size() == if i < old(Size()) then old(Size()) else i + 1
      ensures forall j :: Get(j) == if j == i then x else old(Get(j))
    {
      while i >= Size()
        invariant |bytes| % 8 == 0 && old(Size()) <= Size()
        invariant Size() == old(Size()) || Size() <= i + 1
        invariant forall j :: Get(j) == old(Get(j))
        decreases i + 1 - Size()
      {
        GrowKeeps(bytes, [0, 0, 0, 0, 0, 0, 0, 0]);
        bytes := bytes + [0, 0, 0, 0, 0, 0, 0, 0];
      }
      bytes := PutUint32(bytes, i * 8, x.seqno);
      bytes := PutUint32(bytes, i * 8 + 4, x.minSeq);
    }
  }
}
