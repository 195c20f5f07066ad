/**
 * The in-place array sort that both the board (slots by depth, height and
 * horizontal position) and the level list (entries by level and round) rely
 * on. Each comparison delegate of the source orders by up to three integer
 * components lexicographically, which is what `Key` captures.
 */
module Sorting {

  datatype Key = Key(major: int, middle: int, minor: int)

  /** Lexicographic order on keys: the comparison delegate returns a value <= 0. */
  predicate KeyLe(a: Key, b: Key) {
    a.major < b.major ||
    (a.major == b.major && (a.middle < b.middle || (a.middle == b.middle && a.minor <= b.minor)))
  }

  /** KeyLe is a total order on keys. */
  lemma KeyLeTotalOrder(a: Key, b: Key, c: Key)
    ensures KeyLe(a, a)
    ensures KeyLe(a, b) || KeyLe(b, a)
    ensures KeyLe(a, b) && KeyLe(b, a) ==> a == b
    ensures KeyLe(a, b) && KeyLe(b, c) ==> KeyLe(a, c)
  {
  }

  ghost predicate SortedBy<T>(s: seq<T>, key: T -> Key) {
    forall i, j :: 0 <= i < j < |s| ==> KeyLe(key(s[i]), key(s[j]))
  }

  /**
   * Sorts `a` in place by `key` (an insertion sort; the source's Array.Sort
   * promises only the ordered permutation, which is what is stated here).
   */
  method SortByKey<T>(a: array<T>, key: T -> Key)
    modifies a
    ensures SortedBy(a[..], key)
    ensures multiset(a[..]) == old(multiset(a[..]))
  {
    var i := 0;
    while i < a.Length
      invariant 0 <= i <= a.Length
      invariant SortedBy(a[..i], key)
      invariant multiset(a[..]) == old(multiset(a[..]))
    {
      InsertIntoPrefix(a, i, key);
      i := i + 1;
    }
    assert a[..] == a[..a.Length];
  }

  /** Moves a[i] leftwards into the sorted prefix a[..i], leaving a[..i+1] sorted. */
  method InsertIntoPrefix<T>(a: array<T>, i: nat, key: T -> Key)
    requires i < a.Length
    requires SortedBy(a[..i], key)
    modifies a
    ensures SortedBy(a[..i + 1], key)
    ensures multiset(a[..]) == old(multiset(a[..]))
  {
    var j := i;
    while j > 0 && !KeyLe(key(a[j - 1]), key(a[j]))
      invariant 0 <= j <= i
      invariant forall k, l :: 0 <= k < l <= i && l != j ==> KeyLe(key(a[k]), key(a[l]))
      invariant forall l :: j < l <= i ==> KeyLe(key(a[j]), key(a[l]))
      invariant multiset(a[..]) == old(multiset(a[..]))
    {
      Swap(a, j - 1, j);
      j := j - 1;
    }
  }

  method Swap<T>(a: array<T>, i: nat, j: nat)
    requires i < j < a.Length
    modifies a
    ensures a[..] == old(a[..])[i := old(a[j])][j := old(a[i])]
    ensures multiset(a[..]) == old(multiset(a[..]))
  {
    a[i], a[j] := a[j], a[i];
  }
}
