/** Byte-string keys in binary-alphabetical order. */
module KeyOrder {
  import opened Basics

  type Bytes = seq<byte>

  /** bytes.Compare(a, b) < 0. */
  predicate Less(a: Bytes, b: Bytes) {
    if b == [] then false
    else if a == [] then true
    else a[0] < b[0] || (a[0] == b[0] && Less(a[1..], b[1..]))
  }

  predicate AtMost(a: Bytes, b: Bytes) {
    a == b || Less(a, b)
  }

  predicate HasPrefix(k: Bytes, prefix: Bytes) {
    prefix <= k
  }

  lemma {:induction false} LessIrreflexive(a: Bytes)
    ensures !Less(a, a)
  {
    if a != [] {
      LessIrreflexive(a[1..]);
    }
  }

  lemma {:induction false} LessTrans(a: Bytes, b: Bytes, c: Bytes)
    requires Less(a, b) && Less(b, c)
    ensures Less(a, c)
  {
    if a != [] && a[0] == b[0] && b[0] == c[0] {
      LessTrans(a[1..], b[1..], c[1..]);
    }
  }

  lemma {:induction false} LessTotal(a: Bytes, b: Bytes)
    ensures Less(a, b) || a == b || Less(b, a)
  {
    if a != [] && b != [] && a[0] == b[0] {
      LessTotal(a[1..], b[1..]);
      assert a == [a[0]] + a[1..] && b == [b[0]] + b[1..];
    }
  }

  /** Keys between prefix+start and a key with the prefix have the prefix. */
  lemma {:induction false} PrefixConvex(prefix: Bytes, start: Bytes, a: Bytes, b: Bytes)
    requires AtMost(prefix + start, a) && AtMost(a, b) && HasPrefix(b, prefix)
    ensures HasPrefix(a, prefix)
  {
    if prefix != [] {
      var low := prefix + start;
      assert low[0] == prefix[0] && low[1..] == prefix[1..] + start;
      assert b[0] == prefix[0];
      PrefixConvex(prefix[1..], start, a[1..], b[1..]);
      assert a == [a[0]] + a[1..];
    }
  }

  // ---------------------------------------------------------------- ascending listings

  ghost predicate Ascending(s: seq<Bytes>) {
    forall i, j :: 0 <= i < j < |s| ==> Less(s[i], s[j])
  }

  /** x put in its place. */
  function Insert(s: seq<Bytes>, x: Bytes): seq<Bytes> {
    if s == [] then [x]
    else if Less(x, s[0]) then [x] + s
    else [s[0]] + Insert(s[1..], x)
  }

  lemma {:induction false} InsertIn(s: seq<Bytes>, x: Bytes)
    ensures forall k :: k in Insert(s, x) <==> k in s || k == x
    ensures |Insert(s, x)| == |s| + 1
  {
    if s != [] {
      InsertIn(s[1..], x);
      assert s == [s[0]] + s[1..];
    }
  }

  lemma {:induction false} InsertAscends(s: seq<Bytes>, x: Bytes)
    requires Ascending(s) && x !in s
    ensures Ascending(Insert(s, x))
  {
    if s != [] {
      LessTotal(x, s[0]);
      if Less(x, s[0]) {
        forall i | 0 <= i < |s| ensures Less(x, s[i]) {
          if i > 0 {
            LessTrans(x, s[0], s[i]);
          }
        }
      } else {
        assert s == [s[0]] + s[1..];
        InsertAscends(s[1..], x);
        InsertIn(s[1..], x);
        var rest := Insert(s[1..], x);
        forall j | 0 <= j < |rest| ensures Less(s[0], rest[j]) {
          assert rest[j] in rest;
        }
      }
    }
  }

  /** The keys of a set in order. */
  method Sorted(keys: set<Bytes>) returns (r: seq<Bytes>)
    ensures Ascending(r) && |r| == |keys| && forall k :: k in r <==> k in keys
  {
    r := [];
    var rest := keys;
    while rest != {}
      invariant Ascending(r) && rest <= keys && |r| + |rest| == |keys|
      invariant (forall k :: k in r <==> k in keys && k !in rest)
    {
      var x :| x in rest;
      InsertIn(r, x);
      InsertAscends(r, x);
      r := Insert(r, x);
      rest := rest - {x};
    }
  }
}
