/**
 * `[...xs].sort(comparator)` for comparators that order by an integer key.
 * `Array.prototype.sort` is stable, so the model is a stable insertion sort:
 * each element is placed after every element already placed whose key is at
 * least its own.
 */
module Sorting {

  ghost predicate SortedDesc<T>(s: seq<T>, key: T -> int)
  {
    forall i, j :: 0 <= i < j < |s| ==> key(s[i]) >= key(s[j])
  }

  function Insert<T(!new)>(t: seq<T>, x: T, key: T -> int): (r: seq<T>)
    requires SortedDesc(t, key)
    ensures multiset(r) == multiset(t) + multiset{x}
    ensures SortedDesc(r, key)
    ensures |r| == |t| + 1
    ensures r[0] == x || (t != [] && r[0] == t[0])
    decreases |t|
  {
    if t == [] then [x]
    else if key(t[0]) < key(x) then [x] + t
    else
      var rest := Insert(t[1..], x, key);
      assert t == [t[0]] + t[1..];
      assert key(t[0]) >= key(rest[0]);
      [t[0]] + rest
  }

  /** Sorted by non-increasing key, equal keys kept in input order. */
  function SortDesc<T(!new)>(s: seq<T>, key: T -> int): (r: seq<T>)
    ensures multiset(r) == multiset(s)
    ensures SortedDesc(r, key)
    decreases |s|
  {
    if s == [] then []
    else
      assert s == s[..|s| - 1] + [s[|s| - 1]];
      Insert(SortDesc(s[..|s| - 1], key), s[|s| - 1], key)
  }

  function Negated<T>(key: T -> int): T -> int
  {
    x => -key(x)
  }

  /** Sorted by `key`, ascending or descending; a new sequence, the input is left as it is. */
  function SortBy<T(!new)>(s: seq<T>, key: T -> int, ascending: bool): (r: seq<T>)
    ensures multiset(r) == multiset(s)
    ensures ascending ==> forall i, j :: 0 <= i < j < |r| ==> key(r[i]) <= key(r[j])
    ensures !ascending ==> forall i, j :: 0 <= i < j < |r| ==> key(r[i]) >= key(r[j])
  {
    if ascending then
      var r := SortDesc(s, Negated(key));
      assert forall i, j :: 0 <= i < j < |r| ==> Negated(key)(r[i]) >= Negated(key)(r[j]);
      r
    else SortDesc(s, key)
  }
}
