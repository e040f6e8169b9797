/**
 * The comparator of `NoteListItem.prototype.compare` on modification times,
 * and a sort by that comparator. The source sorts with the JavaScript
 * engine's `Array.prototype.sort`; the model uses an insertion sort and
 * promises only what any sort by the comparator gives: a permutation of the
 * input that is ordered newest first.
 */
module Ordering {

  /** 1 when `x` is older than `y`, -1 when newer, 0 when equal. */
  function Compare(x: int, y: int): (r: int)
    ensures r == 1 <==> x < y
    ensures r == -1 <==> x > y
    ensures r == 0 <==> x == y
  {
    if x < y then 1 else if x > y then -1 else 0
  }

  /** The comparator is antisymmetric, zero on equal times, and transitive: a descending order. */
  lemma CompareIsDescendingOrder(x: int, y: int, z: int)
    ensures Compare(x, y) == -Compare(y, x)
    ensures Compare(x, x) == 0
    ensures Compare(x, y) <= 0 && Compare(y, z) <= 0 ==> Compare(x, z) <= 0
  {
  }

  /** Every element of `s` has a time in `key`. */
  predicate Keyed<T(==)>(s: seq<T>, key: map<T, int>)
  {
    forall x | x in s :: x in key
  }

  /** No element is older than one after it. */
  predicate SortedBy<T(==)>(s: seq<T>, key: map<T, int>)
    requires Keyed(s, key)
  {
    forall i, j | 0 <= i < j < |s| :: Compare(key[s[i]], key[s[j]]) <= 0
  }

  /** Putting in front an element no older than any of a sorted sequence keeps it sorted. */
  lemma PrependSorted<T>(a: T, s: seq<T>, key: map<T, int>)
    requires a in key && Keyed(s, key) && SortedBy(s, key)
    requires forall y | y in s :: Compare(key[a], key[y]) <= 0
    ensures Keyed([a] + s, key) && SortedBy([a] + s, key)
  {
  }

  /** The tail of a sorted sequence is sorted. */
  lemma TailSorted<T>(s: seq<T>, key: map<T, int>)
    requires s != [] && Keyed(s, key) && SortedBy(s, key)
    ensures Keyed(s[1..], key) && SortedBy(s[1..], key)
  {
  }

  /** The head of a sorted sequence is no older than anything in its tail, nor than a newer `x`. */
  lemma HeadFirst<T>(x: T, s: seq<T>, rest: seq<T>, key: map<T, int>)
    requires s != [] && x in key && Keyed(s, key) && SortedBy(s, key)
    requires Compare(key[x], key[s[0]]) > 0
    requires Keyed(rest, key) && multiset(rest) == multiset(s[1..]) + multiset{x}
    ensures forall y | y in rest :: Compare(key[s[0]], key[y]) <= 0
  {
    forall y | y in rest ensures Compare(key[s[0]], key[y]) <= 0 {
      assert y in multiset(rest);
      if y != x {
        assert y in multiset(s[1..]);
        var j :| 0 <= j < |s[1..]| && s[1..][j] == y;
        assert s[j + 1] == y;
      }
    }
  }

  /** An element no newer than the head of a sorted sequence is no older than any of its elements. */
  lemma NewerThanAll<T>(x: T, s: seq<T>, key: map<T, int>)
    requires s != [] && x in key && Keyed(s, key) && SortedBy(s, key)
    requires Compare(key[x], key[s[0]]) <= 0
    ensures forall y | y in s :: Compare(key[x], key[y]) <= 0
  {
  }

  /** Insert `x` into a sorted sequence before the first element not newer than it. */
  function Insert<T(==)>(x: T, s: seq<T>, key: map<T, int>): (r: seq<T>)
    requires x in key && Keyed(s, key) && SortedBy(s, key)
    ensures multiset(r) == multiset(s) + multiset{x}
    ensures Keyed(r, key) && SortedBy(r, key)
    decreases |s|
  {
    if s == [] then [x]
    else if Compare(key[x], key[s[0]]) > 0 then
      TailSorted(s, key);
      var rest := Insert(x, s[1..], key);
      HeadFirst(x, s, rest, key);
      PrependSorted(s[0], rest, key);
      assert s == [s[0]] + s[1..];
      [s[0]] + rest
    else
      NewerThanAll(x, s, key);
      PrependSorted(x, s, key);
      [x] + s
  }

  /** An element no older than the head of a sorted sequence goes in front of it. */
  lemma InsertFront<T>(x: T, s: seq<T>, key: map<T, int>)
    requires x in key && Keyed(s, key) && SortedBy(s, key)
    requires s != [] ==> Compare(key[x], key[s[0]]) <= 0
    ensures Insert(x, s, key) == [x] + s
  {
  }

  /** The elements of `s`, newest first. */
  function Sort<T(==)>(s: seq<T>, key: map<T, int>): (r: seq<T>)
    requires Keyed(s, key)
    ensures multiset(r) == multiset(s)
    ensures Keyed(r, key) && SortedBy(r, key)
    decreases |s|
  {
    if s == [] then []
    else
      assert s == [s[0]] + s[1..];
      Insert(s[0], Sort(s[1..], key), key)
  }

  /** Sorting what is already sorted changes nothing. */
  lemma {:induction false} SortSorted<T>(s: seq<T>, key: map<T, int>)
    requires Keyed(s, key) && SortedBy(s, key)
    ensures Sort(s, key) == s
    decreases |s|
  {
    if s != [] {
      TailSorted(s, key);
      SortSorted(s[1..], key);
      if |s| > 1 {
        assert Compare(key[s[0]], key[s[1]]) <= 0;
      }
      InsertFront(s[0], s[1..], key);
      assert s == [s[0]] + s[1..];
    }
  }
}
