/** The part of bbolt the history store relies on: a bucket is an ordered map from byte keys,
    walked by a cursor with First, Next, Seek and Delete. */
module Bolt {
  import opened Text

  datatype Entry = Entry(key: string, value: real)

  /** The pairs of a bucket in cursor order. */
  type Bucket = seq<Entry>

  ghost predicate InOrder(b: Bucket) {
    forall i, j :: 0 <= i < j < |b| ==> Less(b[i].key, b[j].key)
  }

  /** Put: replaces the pair with this key, or inserts one in order. */
  function Put(b: Bucket, key: string, value: real): Bucket {
    if b == [] then [Entry(key, value)]
    else if b[0].key == key then [Entry(key, value)] + b[1..]
    else if Less(key, b[0].key) then [Entry(key, value)] + b
    else [b[0]] + Put(b[1..], key, value)
  }

  /** Seek: the position of the first key not below this one. */
  function Seek(b: Bucket, key: string): (i: nat)
    ensures i <= |b|
  {
    if b == [] || !Less(b[0].key, key) then 0 else 1 + Seek(b[1..], key)
  }

  /** The pairs whose key is not below this one, whatever the order of b. */
  ghost function From(b: Bucket, key: string): Bucket {
    if b == [] then []
    else (if Less(b[0].key, key) then [] else [b[0]]) + From(b[1..], key)
  }

  lemma {:induction false} FromKeepsAll(b: Bucket, key: string)
    requires forall e :: e in b ==> !Less(e.key, key)
    ensures From(b, key) == b
  {
    if b != [] {
      assert b[0] in b;
      FromKeepsAll(b[1..], key);
    }
  }

  /** On an ordered bucket, seeking finds exactly the pairs that are not below the key. */
  lemma {:induction false} SeekMeaning(b: Bucket, key: string)
    requires InOrder(b)
    ensures b[Seek(b, key)..] == From(b, key)
  {
    if b != [] {
      if Less(b[0].key, key) {
        SeekMeaning(b[1..], key);
        assert b[Seek(b, key)..] == b[1..][Seek(b[1..], key)..];
      } else {
        forall e | e in b ensures !Less(e.key, key) {
          var i :| 0 <= i < |b| && b[i] == e;
          NotBelowAfter(b, i, key);
        }
        FromKeepsAll(b, key);
      }
    }
  }

  lemma NotBelowAfter(b: Bucket, i: nat, key: string)
    requires InOrder(b) && i < |b| && !Less(b[0].key, key)
    ensures !Less(b[i].key, key)
  {
    if i > 0 && Less(b[i].key, key) {
      LessTransitive(b[0].key, b[i].key, key);
    }
  }

  /** A key past all others is appended. */
  lemma {:induction false} PutAtEnd(b: Bucket, key: string, value: real)
    requires forall e :: e in b ==> Less(e.key, key)
    ensures Put(b, key, value) == b + [Entry(key, value)]
  {
    if b != [] {
      assert b[0] in b;
      LessTotal(b[0].key, key);
      PutAtEnd(b[1..], key, value);
      assert b == [b[0]] + b[1..];
    }
  }

  /** Put keeps the order and touches no other key. */
  lemma {:induction false} PutMeaning(b: Bucket, key: string, value: real)
    requires InOrder(b)
    ensures InOrder(Put(b, key, value))
    ensures forall e :: e in Put(b, key, value) <==> e == Entry(key, value) || (e in b && e.key != key)
  {
    hide Less, InOrder, Put;
    if b == [] {
      PutAlone(key, value);
    } else {
      LessTotal(b[0].key, key);
      FirstIsBelow(b);
      if b[0].key == key {
        PutOver(b, key, value);
      } else if Less(key, b[0].key) {
        PutFirst(b, key, value);
      } else {
        PutMeaning(b[1..], key, value);
        PutLater(b, key, value, Put(b[1..], key, value));
      }
    }
  }

  lemma PutAlone(key: string, value: real)
    ensures Put([], key, value) == [Entry(key, value)] && InOrder([Entry(key, value)])
  {}

  lemma PutOver(b: Bucket, key: string, value: real)
    requires InOrder(b) && b != [] && b[0].key == key
    ensures Put(b, key, value) == [Entry(key, value)] + b[1..]
    ensures InOrder([Entry(key, value)] + b[1..])
    ensures forall e :: e in [Entry(key, value)] + b[1..] <==> e == Entry(key, value) || (e in b && e.key != key)
  {
    hide Less;
    FirstIsBelow(b);
    forall e | e in b[1..] ensures e.key != key { LessTotal(e.key, key); }
  }

  lemma FirstIsBelow(b: Bucket)
    requires InOrder(b) && b != []
    ensures forall e :: e in b <==> e == b[0] || e in b[1..]
    ensures forall e :: e in b[1..] ==> Less(b[0].key, e.key)
    ensures InOrder(b[1..])
  {
    hide Less;
    forall e | e in b[1..] ensures Less(b[0].key, e.key) {
      var i :| 0 <= i < |b[1..]| && b[1..][i] == e;
      assert b[i + 1] == e;
    }
  }

  lemma PutLater(b: Bucket, key: string, value: real, rest: Bucket)
    requires InOrder(b) && b != [] && Less(b[0].key, key) && b[0].key != key && !Less(key, b[0].key)
    requires InOrder(rest) && rest == Put(b[1..], key, value)
    requires forall e :: e in rest <==> e == Entry(key, value) || (e in b[1..] && e.key != key)
    ensures Put(b, key, value) == [b[0]] + rest && InOrder([b[0]] + rest)
    ensures forall e :: e in [b[0]] + rest <==> e == Entry(key, value) || (e in b && e.key != key)
  {
    hide Less;
    FirstIsBelow(b);
    forall e | e in rest ensures Less(b[0].key, e.key) {}
  }

  lemma PutFirst(b: Bucket, key: string, value: real)
    requires InOrder(b) && b != [] && Less(key, b[0].key) && b[0].key != key
    ensures Put(b, key, value) == [Entry(key, value)] + b && InOrder([Entry(key, value)] + b)
    ensures forall e :: e in b ==> e.key != key
  {
    hide Less;
    FirstIsBelow(b);
    forall e | e in b ensures Less(key, e.key) && e.key != key {
      if e != b[0] { LessTransitive(key, b[0].key, e.key); }
      LessTotal(key, e.key);
    }
  }

  /** The cursor loop of the prune pass: First, then Delete and Next while below the cutoff. */
  method DeleteBelow(b: Bucket, cutoff: string) returns (r: Bucket)
    requires InOrder(b)
    ensures r == From(b, cutoff)
  {
    hide InOrder, From, Less;
    r := b;
    var at := 0;
    while at < |r| && Less(r[at].key, cutoff)
      invariant at == 0 && InOrder(r)
      invariant From(r, cutoff) == From(b, cutoff)
      decreases |r|
    {
      // Deleting leaves the cursor before the pair that followed.
      DropFirst(r, cutoff);
      assert r[..at] + r[at + 1..] == r[1..];
      r := r[..at] + r[at + 1..];
    }
    NothingToDrop(r, cutoff);
  }

  lemma DropFirst(b: Bucket, cutoff: string)
    requires InOrder(b) && b != [] && Less(b[0].key, cutoff)
    ensures InOrder(b[1..]) && From(b[1..], cutoff) == From(b, cutoff)
  {
    hide Less;
  }

  lemma NothingToDrop(b: Bucket, cutoff: string)
    requires InOrder(b) && (b != [] ==> !Less(b[0].key, cutoff))
    ensures From(b, cutoff) == b
  {
    forall e | e in b ensures !Less(e.key, cutoff) {
      var i :| 0 <= i < |b| && b[i] == e;
      NotBelowAfter(b, i, cutoff);
    }
    FromKeepsAll(b, cutoff);
  }

}
