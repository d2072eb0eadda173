/** `sort({ field: 1 })` on a text field: MongoDB's binary order on strings, compared
    character by character, a prefix first. */
module Sorting {
  /** `a` comes no later than `b`. */
  predicate LexLeq(a: string, b: string)
  {
    a == [] || (b != [] && (a[0] < b[0] || (a[0] == b[0] && LexLeq(a[1..], b[1..]))))
  }

  lemma {:induction false} LexTotal(a: string, b: string)
    ensures LexLeq(a, b) || LexLeq(b, a)
  {
    if a != [] && b != [] && a[0] == b[0] {
      LexTotal(a[1..], b[1..]);
    }
  }

  lemma {:induction false} LexTrans(a: string, b: string, c: string)
    requires LexLeq(a, b) && LexLeq(b, c)
    ensures LexLeq(a, c)
  {
    if a != [] && b != [] && c != [] && a[0] == b[0] && b[0] == c[0] {
      LexTrans(a[1..], b[1..], c[1..]);
    }
  }

  /** The documents are in ascending order of their `key` text. */
  predicate SortedBy<T>(s: seq<T>, key: T -> string)
  {
    forall i, j :: 0 <= i < j < |s| ==> LexLeq(key(s[i]), key(s[j]))
  }

  /** The documents of `s` in ascending order of `key`. */
  function SortBy<T>(s: seq<T>, key: T -> string): (r: seq<T>)
    ensures SortedBy(r, key)
    ensures multiset(r) == multiset(s)
  {
    if s == [] then []
    else
      var rest := SortBy(s[1..], key);
      assert s == [s[0]] + s[1..];
      InsertSorted(s[0], rest, key)
  }

  /** `x` placed before the first document that comes after it. */
  function InsertSorted<T>(x: T, s: seq<T>, key: T -> string): (r: seq<T>)
    requires SortedBy(s, key)
    ensures SortedBy(r, key)
    ensures multiset(r) == multiset(s) + multiset{x}
  {
    if s == [] then [x]
    else if LexLeq(key(x), key(s[0])) then
      forall j | 0 <= j < |s| ensures LexLeq(key(x), key(s[j])) {
        if j > 0 { LexTrans(key(x), key(s[0]), key(s[j])); }
      }
      [x] + s
    else
      LexTotal(key(x), key(s[0]));
      var rest := InsertSorted(x, s[1..], key);
      assert s == [s[0]] + s[1..];
      assert forall y :: y in multiset(rest) ==> y == x || y in multiset(s[1..]);
      forall j | 0 <= j < |rest| ensures LexLeq(key(s[0]), key(rest[j])) {
        assert rest[j] in multiset(rest);
        if rest[j] != x {
          var k :| 0 <= k < |s[1..]| && s[1..][k] == rest[j];
          assert LexLeq(key(s[0]), key(s[k + 1]));
        }
      }
      [s[0]] + rest
  }
}
