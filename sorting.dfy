/** The two sorts the price pipeline uses: JavaScript's default `Array.prototype.sort`
    (ascending by text) and a sort descending by a numeric field. Both are stable
    insertion sorts on sequences. */
module Sorting {
  import Text

  predicate LexLt(a: string, b: string)
  {
    Text.LexLe(a, b) && a != b
  }

  lemma {:induction false} LexLeReflexive(a: string)
    ensures Text.LexLe(a, a)
  {
    if a != [] {
      LexLeReflexive(a[1..]);
    }
  }

  /** Neighbours are in ascending text order of their keys. */
  ghost predicate SortedByText<T>(s: seq<T>, key: T -> string)
  {
    forall i :: 0 < i < |s| ==> Text.LexLe(key(s[i - 1]), key(s[i]))
  }

  function InsertByText<T>(x: T, s: seq<T>, key: T -> string): (r: seq<T>)
    requires SortedByText(s, key)
    ensures SortedByText(r, key) && multiset(r) == multiset(s) + multiset{x}
    ensures |r| == |s| + 1 && (r[0] == x || (s != [] && r[0] == s[0]))
  {
    if s == [] then [x]
    else if LexLt(key(x), key(s[0])) then [x] + s
    else
      Text.LexLeTotal(key(x), key(s[0]));
      LexLeReflexive(key(x));
      var rest := InsertByText(x, s[1..], key);
      assert s == [s[0]] + s[1..];
      [s[0]] + rest
  }

  /** Stable sort ascending by the text of each element's key. */
  function SortByText<T>(s: seq<T>, key: T -> string): (r: seq<T>)
    ensures SortedByText(r, key) && multiset(r) == multiset(s) && |r| == |s|
  {
    if s == [] then []
    else
      assert s == s[..|s| - 1] + [s[|s| - 1]];
      InsertByText(s[|s| - 1], SortByText(s[..|s| - 1], key), key)
  }

  /** Neighbours are in non-increasing order of their keys. */
  ghost predicate SortedDesc<T>(s: seq<T>, key: T -> real)
  {
    forall i :: 0 < i < |s| ==> key(s[i - 1]) >= key(s[i])
  }

  function InsertDesc<T>(x: T, s: seq<T>, key: T -> real): (r: seq<T>)
    requires SortedDesc(s, key)
    ensures SortedDesc(r, key) && multiset(r) == multiset(s) + multiset{x}
    ensures |r| == |s| + 1 && (r[0] == x || (s != [] && r[0] == s[0]))
  {
    if s == [] then [x]
    else if key(x) > key(s[0]) then [x] + s
    else
      var rest := InsertDesc(x, s[1..], key);
      assert s == [s[0]] + s[1..];
      [s[0]] + rest
  }

  /** Stable sort, largest key first. */
  function SortDesc<T>(s: seq<T>, key: T -> real): (r: seq<T>)
    ensures SortedDesc(r, key) && multiset(r) == multiset(s) && |r| == |s|
  {
    if s == [] then []
    else
      assert s == s[..|s| - 1] + [s[|s| - 1]];
      InsertDesc(s[|s| - 1], SortDesc(s[..|s| - 1], key), key)
  }

  /** Neighbour order extends to every pair. */
  lemma {:induction false} SortedDescPairs<T>(s: seq<T>, key: T -> real, i: int, j: int)
    requires SortedDesc(s, key) && 0 <= i <= j < |s|
    ensures key(s[i]) >= key(s[j])
    decreases j - i
  {
    if i < j {
      SortedDescPairs(s, key, i + 1, j);
    }
  }
}
