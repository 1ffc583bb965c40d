/** The library sort the sources call on rings, member lists, file versions and worker lists: some
    permutation that respects the comparison; the order of equal elements is not promised. */
module Sorting {
  import opened Api

  ghost predicate WeakOrder<T(!new)>(less: (T, T) -> bool) {
    && (forall x, y :: less(x, y) ==> !less(y, x))
    && (forall x, y, z :: less(x, z) ==> less(x, y) || less(y, z))
  }

  ghost predicate Sorted<T>(less: (T, T) -> bool, s: seq<T>) {
    forall i, j :: 0 <= i < j < |s| ==> !less(s[j], s[i])
  }

  method Sort<T(!new)>(less: (T, T) -> bool, s: seq<T>) returns (t: seq<T>)
    requires WeakOrder(less)
    ensures Sorted(less, t) && multiset(t) == multiset(s)
  {
    t := [];
    for n := 0 to |s|
      invariant Sorted(less, t) && multiset(t) == multiset(s[..n])
    {
      var i := |t|;
      while i > 0 && less(s[n], t[i - 1])
        invariant 0 <= i <= |t|
        invariant forall k :: i <= k < |t| ==> less(s[n], t[k])
      {
        i := i - 1;
      }
      InsertKeepsSorted(less, t, i, s[n]);
      assert t == t[..i] + t[i..];
      assert s[..n + 1] == s[..n] + [s[n]];
      t := t[..i] + [s[n]] + t[i..];
    }
    assert s[..|s|] == s;
  }

  lemma InsertKeepsSorted<T(!new)>(less: (T, T) -> bool, t: seq<T>, i: nat, x: T)
    requires WeakOrder(less) && Sorted(less, t) && i <= |t|
    requires forall k :: i <= k < |t| ==> less(x, t[k])
    requires i > 0 ==> !less(x, t[i - 1])
    ensures Sorted(less, t[..i] + [x] + t[i..])
  {
    assert forall k :: 0 <= k < i ==> !less(t[i - 1], t[k]) || k == i - 1;
  }

  lemma SamePermutation<T>(s: seq<T>, t: seq<T>)
    requires multiset(s) == multiset(t)
    ensures |s| == |t|
    ensures forall x :: x in s <==> x in t
  {
    assert |multiset(s)| == |multiset(t)|;
    forall x
      ensures x in s <==> x in t
    {
      assert x in s <==> x in multiset(s);
    }
  }

  lemma PermutationKeepsDistinct<T>(s: seq<T>, t: seq<T>)
    requires multiset(s) == multiset(t) && NoDuplicates(t)
    ensures NoDuplicates(s)
  {
    forall i, j | 0 <= i < j < |s|
      ensures s[i] != s[j]
    {
      if s[i] == s[j] {
        CountTwice(s, i, j);
        CountOnce(t, s[i]);
      }
    }
  }

  lemma CountTwice<T>(s: seq<T>, i: nat, j: nat)
    requires i < j < |s| && s[i] == s[j]
    ensures multiset(s)[s[i]] >= 2
  {
    assert s == s[..j] + s[j..];
    assert s[i] in s[..j] && s[j] in s[j..] by {
      assert s[..j][i] == s[i];
      assert s[j..][0] == s[j];
    }
    assert multiset(s) == multiset(s[..j]) + multiset(s[j..]);
  }

  lemma {:induction false} CountOnce<T>(s: seq<T>, x: T)
    requires NoDuplicates(s)
    ensures multiset(s)[x] <= 1
  {
    if s != [] {
      var n := |s| - 1;
      CountOnce(s[..n], x);
      assert s == s[..n] + [s[n]];
      assert x == s[n] ==> x !in s[..n];
    }
  }
}
