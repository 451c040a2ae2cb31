/** Cypher's `ORDER BY key ASC|DESC` over rows whose key may be null. Neo4j treats
    null as larger than every value, so nulls come last in ascending order and first
    in descending order. The order among rows with equal keys is unspecified by
    Cypher; this model keeps their original order (a stable sort). */
module Ordering {
  import opened Common

  /** `a` may come before `b` in ascending order (nulls last). */
  predicate AscLe(a: Option<int>, b: Option<int>) {
    b.None? || (a.Some? && a.value <= b.value)
  }

  /** `a` may come before `b` under the requested direction. */
  predicate KeyLe(a: Option<int>, b: Option<int>, desc: bool) {
    if desc then AscLe(b, a) else AscLe(a, b)
  }

  lemma KeyLeTotal(a: Option<int>, b: Option<int>, desc: bool)
    ensures KeyLe(a, b, desc) || KeyLe(b, a, desc)
  {
  }

  lemma KeyLeTransitive(a: Option<int>, b: Option<int>, c: Option<int>, desc: bool)
    requires KeyLe(a, b, desc) && KeyLe(b, c, desc)
    ensures KeyLe(a, c, desc)
  {
  }

  predicate SortedBy<T>(s: seq<T>, key: T -> Option<int>, desc: bool) {
    forall i, j :: 0 <= i < j < |s| ==> KeyLe(key(s[i]), key(s[j]), desc)
  }

  /** The position before which `x` goes in the sorted `s`: after every element
      that may precede it, which keeps equal keys in arrival order. */
  function InsertPos<T>(s: seq<T>, key: T -> Option<int>, desc: bool, x: T): (j: nat)
    requires SortedBy(s, key, desc)
    ensures j <= |s|
    ensures forall i :: 0 <= i < j ==> KeyLe(key(s[i]), key(x), desc)
    ensures forall i :: j <= i < |s| ==> KeyLe(key(x), key(s[i]), desc)
  {
    if s == [] then 0
    else if KeyLe(key(s[|s| - 1]), key(x), desc) then
      |s|
    else
      KeyLeTotal(key(s[|s| - 1]), key(x), desc);
      var j := InsertPos(s[..|s| - 1], key, desc, x);
      assert forall i :: j <= i < |s| - 1 ==> KeyLe(key(x), key(s[i]), desc);
      j
  }

  /** `x` placed into the sorted `s` at its position. */
  function Insert<T>(s: seq<T>, key: T -> Option<int>, desc: bool, x: T): (r: seq<T>)
    requires SortedBy(s, key, desc)
    ensures SortedBy(r, key, desc)
    ensures multiset(r) == multiset(s) + multiset{x}
  {
    var j := InsertPos(s, key, desc, x);
    var r := s[..j] + [x] + s[j..];
    assert forall i :: 0 <= i < |r| ==> r[i] == if i < j then s[i] else if i == j then x else s[i - 1];
    forall a, b | 0 <= a < b < |r| ensures KeyLe(key(r[a]), key(r[b]), desc) {
      if a < j && b > j {
        KeyLeTransitive(key(s[a]), key(x), key(s[b - 1]), desc);
      }
    }
    assert s == s[..j] + s[j..];
    r
  }

  /** A stable insertion sort. */
  function SortBy<T>(s: seq<T>, key: T -> Option<int>, desc: bool): (r: seq<T>)
    ensures SortedBy(r, key, desc)
    ensures multiset(r) == multiset(s)
  {
    if s == [] then []
    else
      assert s == s[..|s| - 1] + [s[|s| - 1]];
      Insert(SortBy(s[..|s| - 1], key, desc), key, desc, s[|s| - 1])
  }

  /** Sorting keeps membership in both directions. */
  lemma SortByMembers<T>(s: seq<T>, key: T -> Option<int>, desc: bool, x: T)
    ensures x in SortBy(s, key, desc) <==> x in s
  {
    var r := SortBy(s, key, desc);
    assert x in r <==> x in multiset(r);
    assert x in s <==> x in multiset(s);
  }
}
