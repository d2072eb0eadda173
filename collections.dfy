/** The part of the document store the routes rely on: a collection is a sequence of
    documents in creation order, a query is a value `q` with a match function `m`, and
    `find`, `findOne`, `countDocuments`, `deleteMany`, `sort({createdAt: -1})` and
    `limit` become the functions below. Match functions are passed as named functions. */
module Collections {
  import opened Basics

  /** `find(q)`: the matching documents, in store order. */
  function Select<T, Q>(s: seq<T>, m: (T, Q) -> bool, q: Q): (r: seq<T>)
    ensures |r| <= |s|
    ensures forall i :: 0 <= i < |r| ==> r[i] in s && m(r[i], q)
    ensures forall x :: x in s && m(x, q) ==> x in r
  {
    if s == [] then []
    else (if m(s[0], q) then [s[0]] else []) + Select(s[1..], m, q)
  }

  /** `deleteMany(q)`: the documents that remain, in store order. */
  function Reject<T, Q>(s: seq<T>, m: (T, Q) -> bool, q: Q): (r: seq<T>)
    ensures |r| <= |s|
    ensures forall i :: 0 <= i < |r| ==> r[i] in s && !m(r[i], q)
    ensures forall x :: x in s && !m(x, q) ==> x in r
  {
    if s == [] then []
    else (if m(s[0], q) then [] else [s[0]]) + Reject(s[1..], m, q)
  }

  /** `countDocuments(q)`. */
  function Count<T, Q>(s: seq<T>, m: (T, Q) -> bool, q: Q): nat
  {
    |Select(s, m, q)|
  }

  /** `findOne(q)`: the position of the first matching document, if any. */
  function First<T, Q>(s: seq<T>, m: (T, Q) -> bool, q: Q): (r: Option<nat>)
    ensures r.Some? ==> r.value < |s| && m(s[r.value], q)
    ensures r.Some? ==> forall k :: 0 <= k < r.value ==> !m(s[k], q)
    ensures r.None? <==> forall k :: 0 <= k < |s| ==> !m(s[k], q)
  {
    if s == [] then None
    else if m(s[0], q) then Some(0)
    else
      var k := First(s[1..], m, q);
      if k.None? then None else Some(k.value + 1)
  }

  /** `sort({ createdAt: -1 })`: newest first. */
  function Newest<T>(s: seq<T>): (r: seq<T>)
    ensures |r| == |s|
    ensures forall i :: 0 <= i < |s| ==> r[i] == s[|s| - 1 - i]
  {
    if s == [] then [] else [s[|s| - 1]] + Newest(s[..|s| - 1])
  }

  /** `limit(n)`. */
  function Limit<T>(s: seq<T>, n: nat): (r: seq<T>)
    ensures |r| == if |s| <= n then |s| else n
    ensures |s| <= n ==> r == s
    ensures r == s[..|r|]
  {
    if |s| <= n then s else s[..n]
  }

  /** Removing the document at position `i` (`findOneAndDelete` after `findOne`). */
  function RemoveAt<T>(s: seq<T>, i: nat): (r: seq<T>)
    requires i < |s|
    ensures |r| == |s| - 1
    ensures forall k :: 0 <= k < i ==> r[k] == s[k]
    ensures forall k :: i <= k < |r| ==> r[k] == s[k + 1]
  {
    s[..i] + s[i + 1..]
  }

  /** An element other than the removed one is still there. */
  lemma RemoveAtKeeps<T>(s: seq<T>, i: nat, x: T)
    requires i < |s| && x in s && x != s[i]
    ensures x in RemoveAt(s, i)
  {
    var j :| 0 <= j < |s| && s[j] == x;
    var r := RemoveAt(s, i);
    if j < i {
      assert r[j] == x;
    } else {
      assert r[j - 1] == x;
    }
  }

  /** Nothing a `deleteMany` leaves behind matches its query. */
  lemma RejectExcludes<T, Q>(s: seq<T>, m: (T, Q) -> bool, q: Q)
    ensures forall x :: x in Reject(s, m, q) ==> !m(x, q)
  {
    var r := Reject(s, m, q);
    forall x | x in r
      ensures !m(x, q)
    {
      var i :| 0 <= i < |r| && r[i] == x;
    }
  }

  /** Every earlier document stands in relation `rel` to every later one. */
  predicate Pairwise<T>(s: seq<T>, rel: (T, T) -> bool)
  {
    forall i, j :: 0 <= i < j < |s| ==> rel(s[i], s[j])
  }

  // ---------------------------------------------------------------- counting

  /** Every document is either kept by a query or removed by the matching `deleteMany`. */
  lemma {:induction false} SelectRejectPartition<T, Q>(s: seq<T>, m: (T, Q) -> bool, q: Q)
    ensures |Select(s, m, q)| + |Reject(s, m, q)| == |s|
  {
    if s != [] {
      SelectRejectPartition(s[1..], m, q);
    }
  }

  /** Two queries that no document matches together count at most the whole collection. */
  lemma {:induction false} DisjointCounts<T, Q, R>(s: seq<T>, m1: (T, Q) -> bool, q1: Q, m2: (T, R) -> bool, q2: R)
    requires forall x :: m1(x, q1) ==> !m2(x, q2)
    ensures Count(s, m1, q1) + Count(s, m2, q2) <= |s|
  {
    if s != [] {
      DisjointCounts(s[1..], m1, q1, m2, q2);
    }
  }

  /** Two queries that every document matches exactly one of count the whole collection. */
  lemma {:induction false} ComplementCounts<T, Q, R>(s: seq<T>, m1: (T, Q) -> bool, q1: Q, m2: (T, R) -> bool, q2: R)
    requires forall x :: m1(x, q1) <==> !m2(x, q2)
    ensures Count(s, m1, q1) + Count(s, m2, q2) == |s|
  {
    if s != [] {
      ComplementCounts(s[1..], m1, q1, m2, q2);
    }
  }

  /** A query that every match of another one also matches counts at least as many. */
  lemma {:induction false} CountMonotone<T, Q, R>(s: seq<T>, m1: (T, Q) -> bool, q1: Q, m2: (T, R) -> bool, q2: R)
    requires forall x :: m1(x, q1) ==> m2(x, q2)
    ensures Count(s, m1, q1) <= Count(s, m2, q2)
  {
    if s != [] {
      CountMonotone(s[1..], m1, q1, m2, q2);
    }
  }

  /** Filtering the result of a query is the same as one query asking for both. */
  lemma {:induction false} SelectSelect<T, Q, R, P>(s: seq<T>, m1: (T, Q) -> bool, q1: Q, m2: (T, R) -> bool, q2: R, m3: (T, P) -> bool, q3: P)
    requires forall x :: m3(x, q3) <==> m1(x, q1) && m2(x, q2)
    ensures Select(Select(s, m1, q1), m2, q2) == Select(s, m3, q3)
  {
    if s != [] {
      SelectSelect(s[1..], m1, q1, m2, q2, m3, q3);
      var rest := Select(s[1..], m1, q1);
      assert m3(s[0], q3) <==> m1(s[0], q1) && m2(s[0], q2);
      if m1(s[0], q1) {
        var inner := Select(s, m1, q1);
        assert inner == [s[0]] + rest;
        assert inner[0] == s[0] && inner[1..] == rest;
        if m2(s[0], q2) {
          assert Select(inner, m2, q2) == [s[0]] + Select(rest, m2, q2);
        } else {
          assert Select(inner, m2, q2) == Select(rest, m2, q2);
        }
      } else {
        assert Select(s, m1, q1) == rest;
      }
    }
  }

  // ---------------------------------------------------------------- store invariants

  /** A query result keeps every pairwise property of the collection (ascending ids,
      unique keys), because it is a subsequence of it. */
  lemma {:induction false} SelectPairwise<T, Q>(s: seq<T>, m: (T, Q) -> bool, q: Q, rel: (T, T) -> bool)
    requires Pairwise(s, rel)
    ensures Pairwise(Select(s, m, q), rel)
  {
    if s != [] {
      SelectPairwise(s[1..], m, q, rel);
      var rest := Select(s[1..], m, q);
      forall j | 0 <= j < |rest| ensures rel(s[0], rest[j]) {
        var k :| 0 <= k < |s[1..]| && s[1..][k] == rest[j];
        assert rel(s[0], s[k + 1]);
      }
    }
  }

  /** So does what `deleteMany` leaves. */
  lemma {:induction false} RejectPairwise<T, Q>(s: seq<T>, m: (T, Q) -> bool, q: Q, rel: (T, T) -> bool)
    requires Pairwise(s, rel)
    ensures Pairwise(Reject(s, m, q), rel)
  {
    if s != [] {
      RejectPairwise(s[1..], m, q, rel);
      var rest := Reject(s[1..], m, q);
      forall j | 0 <= j < |rest| ensures rel(s[0], rest[j]) {
        var k :| 0 <= k < |s[1..]| && s[1..][k] == rest[j];
        assert rel(s[0], s[k + 1]);
      }
    }
  }
}
