/** Array.prototype.sort with the comparator (a, b) => key(b) - key(a):
    since ES2019 the sort is stable, so the result is the unique stable
    ordering by non-increasing key. It is modelled as an insertion sort in
    place, specified by the functional insertion sort SortDesc. */
module Sorting {

  /** Inserts x after every element whose key is at least key(x), scanning
      from the end as the in-place sort does. */
  function InsertDesc<T>(sorted: seq<T>, x: T, key: T -> int): (r: seq<T>)
    ensures |r| == |sorted| + 1
  {
    if sorted == [] then [x]
    else if key(sorted[|sorted| - 1]) < key(x) then InsertDesc(sorted[..|sorted| - 1], x, key) + [sorted[|sorted| - 1]]
    else sorted + [x]
  }

  /** The stable sort by non-increasing key. */
  function SortDesc<T>(s: seq<T>, key: T -> int): (r: seq<T>)
    ensures |r| == |s|
  {
    if s == [] then [] else InsertDesc(SortDesc(s[..|s| - 1], key), s[|s| - 1], key)
  }

  ghost predicate NonIncreasing<T>(s: seq<T>, key: T -> int) {
    forall i, j :: 0 <= i < j < |s| ==> key(s[i]) >= key(s[j])
  }

  /** The elements of s with the given key, in their order in s. */
  function WithKey<T>(s: seq<T>, key: T -> int, k: int): seq<T> {
    if s == [] then []
    else WithKey(s[..|s| - 1], key, k) + (if key(s[|s| - 1]) == k then [s[|s| - 1]] else [])
  }

  lemma {:induction false} InsertDescPermutes<T>(sorted: seq<T>, x: T, key: T -> int)
    ensures multiset(InsertDesc(sorted, x, key)) == multiset(sorted) + multiset{x}
    decreases |sorted|
  {
    if sorted != [] {
      var n := |sorted|;
      assert sorted == sorted[..n - 1] + [sorted[n - 1]];
      InsertDescPermutes(sorted[..n - 1], x, key);
    }
  }

  lemma {:induction false} InsertDescSorted<T>(sorted: seq<T>, x: T, key: T -> int)
    requires NonIncreasing(sorted, key)
    ensures NonIncreasing(InsertDesc(sorted, x, key), key)
    decreases |sorted|
  {
    if sorted != [] {
      var n := |sorted|;
      var init, last := sorted[..n - 1], sorted[n - 1];
      if key(last) < key(x) {
        InsertDescSorted(init, x, key);
        InsertDescPermutes(init, x, key);
        var r := InsertDesc(init, x, key);
        forall i | 0 <= i < |r| ensures key(r[i]) >= key(last) {
          assert r[i] in multiset(r);
          if r[i] != x {
            assert r[i] in init;
          }
        }
      }
    }
  }

  lemma {:induction false} InsertDescWithKey<T>(sorted: seq<T>, x: T, key: T -> int, k: int)
    ensures WithKey(InsertDesc(sorted, x, key), key, k) == WithKey(sorted, key, k) + (if key(x) == k then [x] else [])
    decreases |sorted|
  {
    if sorted != [] {
      var n := |sorted|;
      var init, last := sorted[..n - 1], sorted[n - 1];
      if key(last) < key(x) {
        InsertDescWithKey(init, x, key, k);
        var r := InsertDesc(init, x, key);
        assert (r + [last])[..|r|] == r;
      } else {
        assert (sorted + [x])[..n] == sorted;
      }
    }
  }

  lemma {:induction false} SortDescSorted<T>(s: seq<T>, key: T -> int)
    ensures NonIncreasing(SortDesc(s, key), key)
    decreases |s|
  {
    if s != [] {
      var init, x := s[..|s| - 1], s[|s| - 1];
      SortDescSorted(init, key);
      InsertDescSorted(SortDesc(init, key), x, key);
    }
  }

  lemma {:induction false} SortDescPermutes<T>(s: seq<T>, key: T -> int)
    ensures multiset(SortDesc(s, key)) == multiset(s)
    decreases |s|
  {
    if s != [] {
      var init, x := s[..|s| - 1], s[|s| - 1];
      SortDescPermutes(init, key);
      InsertDescPermutes(SortDesc(init, key), x, key);
      assert s == init + [x];
    }
  }

  lemma {:induction false} SortDescStable<T>(s: seq<T>, key: T -> int, k: int)
    ensures WithKey(SortDesc(s, key), key, k) == WithKey(s, key, k)
    decreases |s|
  {
    if s != [] {
      var init, x := s[..|s| - 1], s[|s| - 1];
      SortDescStable(init, key, k);
      InsertDescWithKey(SortDesc(init, key), x, key, k);
    }
  }

  /** The result is ordered newest first, holds the same elements, and keeps
      each group of equal keys in input order (stability). */
  lemma SortDescSpec<T>(s: seq<T>, key: T -> int)
    ensures NonIncreasing(SortDesc(s, key), key)
    ensures multiset(SortDesc(s, key)) == multiset(s)
    ensures forall k :: WithKey(SortDesc(s, key), key, k) == WithKey(s, key, k)
  {
    SortDescSorted(s, key);
    SortDescPermutes(s, key);
    forall k ensures WithKey(SortDesc(s, key), key, k) == WithKey(s, key, k) {
      SortDescStable(s, key, k);
    }
  }

  /** Input that is already newest first comes back unchanged. */
  lemma {:induction false} SortDescOfSorted<T>(s: seq<T>, key: T -> int)
    requires NonIncreasing(s, key)
    ensures SortDesc(s, key) == s
    decreases |s|
  {
    if s != [] {
      var n := |s|;
      var init, x := s[..n - 1], s[n - 1];
      assert NonIncreasing(init, key) by {
        forall i, j | 0 <= i < j < |init| ensures key(init[i]) >= key(init[j]) {
          assert init[i] == s[i] && init[j] == s[j];
        }
      }
      SortDescOfSorted(init, key);
      assert SortDesc(s, key) == InsertDesc(init, x, key);
      if n > 1 {
        assert init[n - 2] == s[n - 2];
        assert key(s[n - 2]) >= key(x);
      }
      assert init + [x] == s;
    }
  }

  /** Some element has key k exactly when the key's group is non-empty. */
  lemma {:induction false} WithKeyNonEmpty<T>(s: seq<T>, key: T -> int, k: int)
    ensures WithKey(s, key, k) != [] <==> exists i :: 0 <= i < |s| && key(s[i]) == k
    decreases |s|
  {
    if s != [] {
      var n := |s|;
      var init := s[..n - 1];
      WithKeyNonEmpty(init, key, k);
      if exists i :: 0 <= i < |init| && key(init[i]) == k {
        var i :| 0 <= i < |init| && key(init[i]) == k;
        assert key(s[i]) == k;
      }
      if exists i :: 0 <= i < n && key(s[i]) == k {
        var i :| 0 <= i < n && key(s[i]) == k;
        if i < n - 1 {
          assert key(init[i]) == k;
        }
      }
    }
  }

  /** Equal groups for every key leave no element unmatched. */
  lemma SameGroupsEmpty<T>(t1: seq<T>, t2: seq<T>, key: T -> int)
    requires forall k :: WithKey(t1, key, k) == WithKey(t2, key, k)
    ensures t1 == [] <==> t2 == []
  {
    if t1 != [] {
      WithKeyNonEmpty(t1, key, key(t1[0]));
      WithKeyNonEmpty(t2, key, key(t1[0]));
    } else if t2 != [] {
      WithKeyNonEmpty(t2, key, key(t2[0]));
      WithKeyNonEmpty(t1, key, key(t2[0]));
    }
  }

  /** The last element of a non-increasing sequence has the least key, so
      two such sequences with equal groups end in the same key. */
  lemma SameGroupsLastKey<T>(t1: seq<T>, t2: seq<T>, key: T -> int)
    requires t1 != [] && t2 != []
    requires NonIncreasing(t1, key) && NonIncreasing(t2, key)
    requires forall k :: WithKey(t1, key, k) == WithKey(t2, key, k)
    ensures key(t1[|t1| - 1]) == key(t2[|t2| - 1])
  {
    var x1, x2 := t1[|t1| - 1], t2[|t2| - 1];
    WithKeyNonEmpty(t1, key, key(x2));
    WithKeyNonEmpty(t2, key, key(x2));
    WithKeyNonEmpty(t1, key, key(x1));
    WithKeyNonEmpty(t2, key, key(x1));
    var i1 :| 0 <= i1 < |t1| && key(t1[i1]) == key(x2);
    var i2 :| 0 <= i2 < |t2| && key(t2[i2]) == key(x1);
    if i1 < |t1| - 1 { assert key(t1[i1]) >= key(x1); }
    if i2 < |t2| - 1 { assert key(t2[i2]) >= key(x2); }
  }

  /** Dropping last elements with the same key: they are the same element,
      and the rest still have equal groups. */
  lemma SameGroupsDropLast<T>(init1: seq<T>, x1: T, init2: seq<T>, x2: T, key: T -> int)
    requires key(x1) == key(x2)
    requires forall k :: WithKey(init1 + [x1], key, k) == WithKey(init2 + [x2], key, k)
    ensures x1 == x2
    ensures forall k :: WithKey(init1, key, k) == WithKey(init2, key, k)
  {
    var t1, t2 := init1 + [x1], init2 + [x2];
    assert t1[..|t1| - 1] == init1 && t1[|t1| - 1] == x1;
    assert t2[..|t2| - 1] == init2 && t2[|t2| - 1] == x2;
    var g1, g2 := WithKey(init1, key, key(x1)), WithKey(init2, key, key(x1));
    assert WithKey(t1, key, key(x1)) == g1 + [x1];
    assert WithKey(t2, key, key(x1)) == g2 + [x2];
    assert |g1| == |g2|;
    assert x1 == (g1 + [x1])[|g1|] == (g2 + [x2])[|g2|] == x2;
    assert g1 == (g1 + [x1])[..|g1|] == (g2 + [x2])[..|g2|] == g2;
    forall k ensures WithKey(init1, key, k) == WithKey(init2, key, k) {
      if k != key(x1) {
        var w1, w2 := WithKey(init1, key, k), WithKey(init2, key, k);
        assert WithKey(t1, key, k) == w1 + [] == w1;
        assert WithKey(t2, key, k) == w2 + [] == w2;
      } else {
        assert WithKey(init1, key, k) == g1;
      }
    }
  }

  /** Two non-increasing sequences with the same group for every key are
      equal: a stable sort by non-increasing key has only one possible
      result, so any stable sort, the platform's included, returns
      SortDesc. */
  lemma {:induction false} StableSortUnique<T>(t1: seq<T>, t2: seq<T>, key: T -> int)
    requires NonIncreasing(t1, key) && NonIncreasing(t2, key)
    requires forall k :: WithKey(t1, key, k) == WithKey(t2, key, k)
    ensures t1 == t2
    decreases |t1|
  {
    SameGroupsEmpty(t1, t2, key);
    if t1 != [] {
      SameGroupsLastKey(t1, t2, key);
      var init1, init2 := t1[..|t1| - 1], t2[..|t2| - 1];
      assert t1 == init1 + [t1[|t1| - 1]] && t2 == init2 + [t2[|t2| - 1]];
      SameGroupsDropLast(init1, t1[|t1| - 1], init2, t2[|t2| - 1], key);
      StableSortUnique(init1, init2, key);
    }
  }

  /** SortDesc is the stable sort: any non-increasing rearrangement that
      keeps every group of equal keys in input order is SortDesc. */
  lemma SortDescIsTheStableSort<T>(s: seq<T>, t: seq<T>, key: T -> int)
    requires NonIncreasing(t, key)
    requires forall k :: WithKey(t, key, k) == WithKey(s, key, k)
    ensures t == SortDesc(s, key)
  {
    SortDescSpec(s, key);
    StableSortUnique(t, SortDesc(s, key), key);
  }

  /** x goes right after the last element whose key is at least key(x):
      every element after position j has a smaller key, and the one before
      it (if any) does not. */
  lemma {:induction false} InsertDescAt<T>(p: seq<T>, j: int, x: T, key: T -> int)
    requires 0 <= j <= |p|
    requires forall k :: j <= k < |p| ==> key(p[k]) < key(x)
    requires j == 0 || key(p[j - 1]) >= key(x)
    ensures InsertDesc(p, x, key) == p[..j] + [x] + p[j..]
    decreases |p|
  {
    var n := |p|;
    if n == 0 {
    } else if j == n {
      assert p[..j] == p && p[j..] == [];
    } else {
      var init, last := p[..n - 1], p[n - 1];
      assert key(last) < key(x);
      assert InsertDesc(p, x, key) == InsertDesc(init, x, key) + [last];
      InsertDescAt(init, j, x, key);
      DropLastSlices(p, j);
      AppendAssoc(p[..j] + [x], init[j..], [last]);
    }
  }

  lemma DropLastSlices<T>(p: seq<T>, j: int)
    requires 0 <= j < |p|
    ensures p[..|p| - 1][..j] == p[..j] && p[..|p| - 1][j..] + [p[|p| - 1]] == p[j..]
  {
  }

  lemma AppendAssoc<T>(a: seq<T>, b: seq<T>, c: seq<T>)
    ensures (a + b) + c == a + (b + c)
  {
  }

  /** A sequence that agrees with p before j, holds x at j and p shifted
      one place right after j is p with x inserted at j. */
  lemma Assemble<T>(s: seq<T>, p: seq<T>, j: int, x: T)
    requires 0 <= j <= |p| && |s| == |p| + 1
    requires forall k :: 0 <= k < j ==> s[k] == p[k]
    requires s[j] == x
    requires forall k :: j < k < |s| ==> s[k] == p[k - 1]
    ensures s == p[..j] + [x] + p[j..]
  {
    var t := p[..j] + [x] + p[j..];
    forall k | 0 <= k < |s| ensures s[k] == t[k] {
      if k < j {
        assert t[k] == p[k];
      } else if k > j {
        assert t[k] == p[k - 1];
      }
    }
  }

  /** One step of the insertion sort: a[..i] is sorted, and a[i] moves left
      past every element with a smaller key, which shift one place right. */
  method InsertAt<T>(a: array<T>, i: int, key: T -> int)
    requires 0 <= i < a.Length
    modifies a
    ensures a[..i + 1] == InsertDesc(old(a[..i]), old(a[i]), key)
    ensures forall k :: i < k < a.Length ==> a[k] == old(a[k])
  {
    ghost var prefix := a[..i];
    var x := a[i];
    var j := i;
    while j > 0 && key(a[j - 1]) < key(x)
      invariant 0 <= j <= i
      invariant forall k {:trigger a[k]} :: 0 <= k < j ==> a[k] == prefix[k]
      invariant forall k {:trigger a[k]} :: j < k <= i ==> a[k] == prefix[k - 1]
      invariant forall k {:trigger a[k]} :: i < k < a.Length ==> a[k] == old(a[k])
      invariant forall k :: j <= k < i ==> key(prefix[k]) < key(x)
    {
      a[j] := a[j - 1];
      j := j - 1;
    }
    a[j] := x;
    InsertDescAt(prefix, j, x, key);
    Assemble(a[..i + 1], prefix, j, x);
  }

  /** [...a].sort(...) on the copy: sorts a in place by non-increasing key,
      stably. */
  method SortInPlace<T>(a: array<T>, key: T -> int)
    modifies a
    ensures a[..] == SortDesc(old(a[..]), key)
  {
    ghost var input := a[..];
    var i := 0;
    while i < a.Length
      invariant 0 <= i <= a.Length
      invariant a[..i] == SortDesc(input[..i], key)
      invariant forall k :: i <= k < a.Length ==> a[k] == input[k]
    {
      assert input[..i + 1][..i] == input[..i];
      InsertAt(a, i, key);
      i := i + 1;
    }
    assert a[..] == a[..a.Length];
    assert input == input[..a.Length];
  }
}
