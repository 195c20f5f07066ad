/** Facts about sequences and multisets shared by the card containers. */
module Collections {

  /** No element occurs at two positions of `s`. */
  ghost predicate NoDuplicates<T>(s: seq<T>) {
    forall i, j :: 0 <= i < j < |s| ==> s[i] != s[j]
  }

  /** Every element of `m` occurs at most once. */
  ghost predicate Unique<T>(m: multiset<T>) {
    forall x | x in m :: m[x] == 1
  }

  /** A sequence has no duplicates exactly when its multiset is a set. */
  lemma {:induction false} NoDuplicatesIffUnique<T>(s: seq<T>)
    ensures NoDuplicates(s) <==> Unique(multiset(s))
  {
    if NoDuplicates(s) {
      UniqueOfNoDuplicates(s);
    }
    if Unique(multiset(s)) {
      forall i, j | 0 <= i < j < |s| ensures s[i] != s[j] {
        RepeatCountsTwice(s, i, j);
      }
    }
  }

  lemma RepeatCountsTwice<T>(s: seq<T>, i: nat, j: nat)
    requires i < j < |s|
    ensures s[i] == s[j] ==> multiset(s)[s[i]] >= 2
  {
    assert s == s[..i] + [s[i]] + s[i+1..j] + [s[j]] + s[j+1..];
  }

  lemma {:induction false} UniqueOfNoDuplicates<T>(s: seq<T>)
    requires NoDuplicates(s)
    ensures Unique(multiset(s))
  {
    if s != [] {
      assert s == [s[0]] + s[1..];
      UniqueOfNoDuplicates(s[1..]);
      assert s[0] !in s[1..];
      forall x | x in multiset(s) ensures multiset(s)[x] == 1 {
        assert multiset(s) == multiset{s[0]} + multiset(s[1..]);
      }
    }
  }

  /** Exchanging two positions keeps a duplicate-free sequence duplicate-free. */
  lemma SwapNoDuplicates<T>(s: seq<T>, i: nat, r: nat)
    requires NoDuplicates(s) && i < |s| && r < |s|
    ensures NoDuplicates(s[r := s[i]][i := s[r]])
  {
    var t := s[r := s[i]][i := s[r]];
    forall a, b | 0 <= a < b < |t| ensures t[a] != t[b] {
      var a' := if a == i then r else if a == r then i else a;
      var b' := if b == i then r else if b == r then i else b;
      assert t[a] == s[a'] && t[b] == s[b'];
    }
  }

  /** Applies `f` to every element of `s`. */
  function Map<A, B>(s: seq<A>, f: A -> B): (r: seq<B>)
    ensures |r| == |s| && forall i :: 0 <= i < |s| ==> r[i] == f(s[i])
  {
    seq(|s|, i requires 0 <= i < |s| => f(s[i]))
  }

  /** Mapping a permutation of a sequence gives a permutation of the mapped sequence. */
  lemma {:induction false} MapPermutation<A, B>(s: seq<A>, t: seq<A>, f: A -> B)
    requires multiset(s) == multiset(t)
    ensures multiset(Map(s, f)) == multiset(Map(t, f))
    decreases |s|
  {
    if s == [] {
      assert |t| == |multiset(t)| == 0;
    } else {
      var x := s[0];
      assert x in multiset(t);
      var j :| 0 <= j < |t| && t[j] == x;
      var rest := t[..j] + t[j + 1..];
      RemoveFirst(s);
      RemoveAt(t, j);
      MultisetCancel(multiset(s[1..]), multiset(rest), x);
      MapPermutation(s[1..], rest, f);
      MapRemoveFirst(s, f);
      MapRemoveAt(t, j, f);
    }
  }

  lemma RemoveFirst<T>(s: seq<T>)
    requires s != []
    ensures multiset(s) == multiset(s[1..]) + multiset{s[0]}
  {
    assert s == [s[0]] + s[1..];
  }

  lemma RemoveAt<T>(t: seq<T>, j: nat)
    requires j < |t|
    ensures multiset(t) == multiset(t[..j] + t[j + 1..]) + multiset{t[j]}
  {
    assert t == t[..j] + [t[j]] + t[j + 1..];
  }

  lemma MultisetCancel<T>(a: multiset<T>, b: multiset<T>, x: T)
    requires a + multiset{x} == b + multiset{x}
    ensures a == b
  {
    forall y
      ensures a[y] == b[y]
    {
      assert (a + multiset{x})[y] == (b + multiset{x})[y];
    }
  }

  /** A common part cancels from both sides of a multiset equation. */
  lemma MultisetCancelPart<T>(a: multiset<T>, b: multiset<T>, m: multiset<T>)
    requires a + m == b + m
    ensures a == b
  {
    forall y
      ensures a[y] == b[y]
    {
      assert (a + m)[y] == (b + m)[y];
    }
  }

  lemma MapRemoveFirst<A, B>(s: seq<A>, f: A -> B)
    requires s != []
    ensures multiset(Map(s, f)) == multiset(Map(s[1..], f)) + multiset{f(s[0])}
  {
    MapConcat([s[0]], s[1..], f);
    assert s == [s[0]] + s[1..];
    RemoveFirst(Map(s, f));
    assert Map(s, f)[1..] == Map(s[1..], f);
  }

  lemma MapRemoveAt<A, B>(t: seq<A>, j: nat, f: A -> B)
    requires j < |t|
    ensures multiset(Map(t, f)) == multiset(Map(t[..j] + t[j + 1..], f)) + multiset{f(t[j])}
  {
    RemoveAt(Map(t, f), j);
    assert Map(t, f)[..j] + Map(t, f)[j + 1..] == Map(t[..j] + t[j + 1..], f);
  }

  lemma MapConcat<A, B>(a: seq<A>, b: seq<A>, f: A -> B)
    ensures Map(a + b, f) == Map(a, f) + Map(b, f)
  {
  }

  /** Joining two duplicate-free sequences with no element in common gives a duplicate-free sequence. */
  lemma NoDuplicatesConcat<T>(a: seq<T>, b: seq<T>)
    requires NoDuplicates(a) && NoDuplicates(b)
    requires forall x, y | x in a && y in b :: x != y
    ensures NoDuplicates(a + b)
  {
    var s := a + b;
    forall i, j | 0 <= i < j < |s|
      ensures s[i] != s[j]
    {
      if j >= |a| && i < |a| {
        assert s[i] in a && s[j] in b;
      }
    }
  }

  /** Putting an element in front of a split sequence: the grouping does not matter. */
  lemma PrependRegroup<T>(x: T, a: seq<T>, b: seq<T>)
    ensures [x] + (a + b) == ([x] + a) + b
  {
  }

  /** Joining three sequences: the grouping does not matter. */
  lemma ConcatRegroup<T>(a: seq<T>, b: seq<T>, c: seq<T>)
    ensures a + (b + c) == a + b + c
  {
  }

  /** Dropping an element from a duplicate-free sequence leaves it duplicate-free, and without that element. */
  lemma NoDuplicatesRemove<T>(a: seq<T>, b: seq<T>, x: T)
    requires NoDuplicates(a + [x] + b)
    ensures NoDuplicates(a + b) && x !in a + b
  {
    var s, t := a + b, a + [x] + b;
    forall i, j | 0 <= i < j < |s| ensures s[i] != s[j] {
      var i', j' := if i < |a| then i else i + 1, if j < |a| then j else j + 1;
      assert s[i] == t[i'] && s[j] == t[j'];
    }
    forall k | 0 <= k < |s| ensures s[k] != x {
      var k' := if k < |a| then k else k + 1;
      assert s[k] == t[k'] && t[|a|] == x;
    }
  }

  /** A new element joins a duplicate-free sequence anywhere without creating a duplicate. */
  lemma NoDuplicatesInsert<T>(a: seq<T>, b: seq<T>, x: T)
    requires NoDuplicates(a + b) && x !in a + b
    ensures NoDuplicates(a + [x] + b)
  {
    var s, t := a + b, a + [x] + b;
    forall i, j | 0 <= i < j < |t| ensures t[i] != t[j] {
      if i < |a| && j < |a| {
        assert t[i] == s[i] && t[j] == s[j];
      } else if i < |a| && j > |a| {
        assert t[i] == s[i] && t[j] == s[j - 1];
      } else if i > |a| {
        assert t[i] == s[i - 1] && t[j] == s[j - 1];
      } else if i == |a| {
        assert t[j] == s[j - 1];
      }
    }
  }

  /** Both parts of a duplicate-free sequence are duplicate-free. */
  lemma NoDuplicatesSplit<T>(a: seq<T>, b: seq<T>)
    requires NoDuplicates(a + b)
    ensures NoDuplicates(a) && NoDuplicates(b)
  {
    var s := a + b;
    forall i, j | 0 <= i < j < |a| ensures a[i] != a[j] {
      assert a[i] == s[i] && a[j] == s[j];
    }
    forall i, j | 0 <= i < j < |b| ensures b[i] != b[j] {
      assert b[i] == s[|a| + i] && b[j] == s[|a| + j];
    }
  }

  /** Two sequences that are permutations of each other have the same elements. */
  lemma PermutationMembers<T>(s: seq<T>, t: seq<T>)
    requires multiset(s) == multiset(t)
    ensures forall x | x in s :: x in t
  {
    forall x | x in s ensures x in t {
      assert x in multiset(s);
    }
  }
}
