/** The two array operations the ranking pipeline relies on, as JavaScript
    defines them: `filter` keeps, in order, the elements its callback accepts;
    `sort` reorders an array in place by a comparator, and is stable (an
    element comes after another one exactly when the comparator does not
    return a positive number for the pair, and equal elements keep their input
    order). The stable sort is given as an insertion sort on sequences
    (SortBy), an in-place version on arrays is proved equal to it, and any
    stable sorted permutation is shown to be that same sequence. */
module JsArray {

  // ---------------------------------------------------------------- filter

  /** `s.filter(keep)`. */
  function Filter<T>(s: seq<T>, keep: T -> bool): (r: seq<T>)
    ensures |r| <= |s|
    ensures forall i :: 0 <= i < |r| ==> keep(r[i])
  {
    if |s| == 0 then []
    else (if keep(s[0]) then [s[0]] else []) + Filter(s[1..], keep)
  }

  /** xs can be obtained from ys by deleting elements. */
  ghost predicate IsSubsequence<T>(xs: seq<T>, ys: seq<T>)
    decreases |ys|
  {
    |xs| == 0 ||
    (|ys| > 0 &&
     ((xs[0] == ys[0] && IsSubsequence(xs[1..], ys[1..])) || IsSubsequence(xs, ys[1..])))
  }

  lemma {:induction false} FilterIsSubsequence<T>(s: seq<T>, keep: T -> bool)
    ensures IsSubsequence(Filter(s, keep), s)
  {
    if |s| > 0 {
      FilterIsSubsequence(s[1..], keep);
      var r := Filter(s, keep);
      if keep(s[0]) {
        assert r[0] == s[0] && r[1..] == Filter(s[1..], keep);
      } else {
        assert r == Filter(s[1..], keep);
      }
    }
  }

  /** Each element occurs in the result as often as in the input when the
      callback accepts it, and never otherwise. */
  lemma {:induction false} FilterCounts<T>(s: seq<T>, keep: T -> bool, x: T)
    ensures multiset(Filter(s, keep))[x] == if keep(x) then multiset(s)[x] else 0
  {
    if |s| > 0 {
      FilterCounts(s[1..], keep, x);
      assert s == [s[0]] + s[1..];
    }
  }

  lemma FilterMembers<T>(s: seq<T>, keep: T -> bool, x: T)
    ensures x in Filter(s, keep) <==> x in s && keep(x)
  {
    FilterCounts(s, keep, x);
    assert x in Filter(s, keep) <==> multiset(Filter(s, keep))[x] > 0;
  }

  /** Filtering a sequence whose every element is accepted changes nothing. */
  lemma {:induction false} FilterOfAccepted<T>(s: seq<T>, keep: T -> bool)
    requires forall i :: 0 <= i < |s| ==> keep(s[i])
    ensures Filter(s, keep) == s
  {
    if |s| > 0 {
      FilterOfAccepted(s[1..], keep);
    }
  }

  /** Only the callback's answers matter. */
  lemma {:induction false} FilterSameCallback<T>(s: seq<T>, k1: T -> bool, k2: T -> bool)
    requires forall x :: k1(x) == k2(x)
    ensures Filter(s, k1) == Filter(s, k2)
  {
    if |s| > 0 {
      FilterSameCallback(s[1..], k1, k2);
    }
  }

  lemma {:induction false} FilterAppend<T>(s: seq<T>, t: seq<T>, keep: T -> bool)
    ensures Filter(s + t, keep) == Filter(s, keep) + Filter(t, keep)
  {
    if |s| == 0 {
      assert s + t == t;
    } else {
      assert (s + t)[1..] == s[1..] + t;
      FilterAppend(s[1..], t, keep);
    }
  }

  // ------------------------------------------------------------ stable sort

  /** Insert x into t from the right: x moves left past every element e with
      cmp(e, x) > 0 and stops after the first one with cmp(e, x) <= 0. */
  function Insert<T>(x: T, t: seq<T>, cmp: (T, T) -> int): seq<T>
  {
    if |t| == 0 then [x]
    else if cmp(t[|t| - 1], x) <= 0 then t + [x]
    else Insert(x, t[..|t| - 1], cmp) + [t[|t| - 1]]
  }

  lemma {:induction false} InsertPermutes<T>(x: T, t: seq<T>, cmp: (T, T) -> int)
    ensures multiset(Insert(x, t, cmp)) == multiset(t) + multiset{x}
  {
    if |t| > 0 && cmp(t[|t| - 1], x) > 0 {
      InsertPermutes(x, t[..|t| - 1], cmp);
      assert t == t[..|t| - 1] + [t[|t| - 1]];
    }
  }

  /** `s.sort(cmp)` for a stable sort: the elements are inserted one by one,
      left to right, into the already sorted prefix. */
  function SortBy<T>(s: seq<T>, cmp: (T, T) -> int): seq<T>
  {
    if |s| == 0 then []
    else Insert(s[|s| - 1], SortBy(s[..|s| - 1], cmp), cmp)
  }

  /** The sorted result is a permutation of the input. */
  lemma {:induction false} SortByPermutes<T>(s: seq<T>, cmp: (T, T) -> int)
    ensures multiset(SortBy(s, cmp)) == multiset(s)
  {
    if |s| > 0 {
      SortByPermutes(s[..|s| - 1], cmp);
      InsertPermutes(s[|s| - 1], SortBy(s[..|s| - 1], cmp), cmp);
      assert s == s[..|s| - 1] + [s[|s| - 1]];
    }
  }

  /** Only whether the comparator is positive matters, so comparators with
      the same sign give the same order. */
  lemma {:induction false} InsertSameSign<T>(x: T, t: seq<T>, c1: (T, T) -> int, c2: (T, T) -> int)
    requires forall a, b :: (c1(a, b) <= 0) == (c2(a, b) <= 0)
    ensures Insert(x, t, c1) == Insert(x, t, c2)
  {
    if |t| > 0 {
      InsertSameSign(x, t[..|t| - 1], c1, c2);
    }
  }

  lemma {:induction false} SortBySameSign<T>(s: seq<T>, c1: (T, T) -> int, c2: (T, T) -> int)
    requires forall a, b :: (c1(a, b) <= 0) == (c2(a, b) <= 0)
    ensures SortBy(s, c1) == SortBy(s, c2)
  {
    if |s| > 0 {
      SortBySameSign(s[..|s| - 1], c1, c2);
      InsertSameSign(s[|s| - 1], SortBy(s[..|s| - 1], c1), c1, c2);
    }
  }

  // ------------------------------------------- comparators ordering by a key

  /** cmp orders by key, highest first: it is positive for (a, b) exactly when
      b has the strictly higher key. */
  ghost predicate OrdersByKeyDescending<T(!new)>(cmp: (T, T) -> int, key: T -> int)
  {
    forall a, b :: (cmp(a, b) <= 0) == (key(b) <= key(a))
  }

  /** Consecutive keys never increase. */
  ghost predicate NonIncreasing<T>(t: seq<T>, key: T -> int)
  {
    forall i :: 0 < i < |t| ==> key(t[i]) <= key(t[i - 1])
  }

  /** The elements of t whose key is k, in their order in t. */
  function WithKey<T>(t: seq<T>, key: T -> int, k: int): (r: seq<T>)
    ensures forall i :: 0 <= i < |r| ==> key(r[i]) == k
  {
    Filter(t, x => key(x) == k)
  }

  lemma {:induction false} InsertNonIncreasing<T(!new)>(x: T, t: seq<T>, cmp: (T, T) -> int, key: T -> int)
    requires OrdersByKeyDescending(cmp, key)
    requires NonIncreasing(t, key)
    ensures NonIncreasing(Insert(x, t, cmp), key)
    ensures |t| > 0 ==> Insert(x, t, cmp)[0] == t[0] || Insert(x, t, cmp)[0] == x
  {
    if |t| > 0 && cmp(t[|t| - 1], x) > 0 {
      var init := t[..|t| - 1];
      InsertNonIncreasing(x, init, cmp, key);
      var r := Insert(x, init, cmp);
      InsertPermutes(x, init, cmp);
      assert |r| == |init| + 1 by {
        assert |multiset(r)| == |multiset(init)| + 1;
      }
      if |init| > 0 {
        assert key(r[|r| - 1]) >= key(t[|t| - 1]) by {
          if r[|r| - 1] != x {
            assert r[|r| - 1] in multiset(init);
            var j :| 0 <= j < |init| && init[j] == r[|r| - 1];
            NonIncreasingAt(t, key, j, |t| - 1);
          }
        }
      }
    }
  }

  /** In a non-increasing sequence every earlier key is at least every later one. */
  lemma {:induction false} NonIncreasingAt<T>(t: seq<T>, key: T -> int, i: int, j: int)
    requires NonIncreasing(t, key)
    requires 0 <= i <= j < |t|
    ensures key(t[j]) <= key(t[i])
    decreases j - i
  {
    if i < j {
      NonIncreasingAt(t, key, i, j - 1);
    }
  }

  /** The sorted result lists the keys highest first. */
  lemma {:induction false} SortByNonIncreasing<T(!new)>(s: seq<T>, cmp: (T, T) -> int, key: T -> int)
    requires OrdersByKeyDescending(cmp, key)
    ensures NonIncreasing(SortBy(s, cmp), key)
  {
    if |s| > 0 {
      SortByNonIncreasing(s[..|s| - 1], cmp, key);
      InsertNonIncreasing(s[|s| - 1], SortBy(s[..|s| - 1], cmp), cmp, key);
    }
  }

  lemma {:induction false} InsertWithKey<T(!new)>(x: T, t: seq<T>, cmp: (T, T) -> int, key: T -> int, k: int)
    requires OrdersByKeyDescending(cmp, key)
    ensures WithKey(Insert(x, t, cmp), key, k) == WithKey(t, key, k) + WithKey([x], key, k)
  {
    var p := x => key(x) == k;
    if |t| == 0 {
    } else if cmp(t[|t| - 1], x) <= 0 {
      FilterAppend(t, [x], p);
    } else {
      var init, last := t[..|t| - 1], t[|t| - 1];
      assert t == init + [last];
      InsertWithKey(x, init, cmp, key, k);
      FilterAppend(Insert(x, init, cmp), [last], p);
      FilterAppend(init, [last], p);
      assert key(last) != key(x);
    }
  }

  /** Stability: the elements sharing a key keep their input order. */
  lemma {:induction false} SortByStable<T(!new)>(s: seq<T>, cmp: (T, T) -> int, key: T -> int, k: int)
    requires OrdersByKeyDescending(cmp, key)
    ensures WithKey(SortBy(s, cmp), key, k) == WithKey(s, key, k)
  {
    if |s| > 0 {
      var init, last := s[..|s| - 1], s[|s| - 1];
      assert s == init + [last];
      SortByStable(init, cmp, key, k);
      InsertWithKey(last, SortBy(init, cmp), cmp, key, k);
      FilterAppend(init, [last], x => key(x) == k);
    }
  }

  /** Sorting an already sorted sequence is a no-op. */
  lemma {:induction false} SortByOfNonIncreasing<T(!new)>(t: seq<T>, cmp: (T, T) -> int, key: T -> int)
    requires OrdersByKeyDescending(cmp, key)
    requires NonIncreasing(t, key)
    ensures SortBy(t, cmp) == t
  {
    if |t| > 0 {
      var init := t[..|t| - 1];
      SortByOfNonIncreasing(init, cmp, key);
      if |init| > 0 {
        assert key(t[|t| - 1]) <= key(init[|init| - 1]);
      }
      assert init + [t[|t| - 1]] == t;
    }
  }

  /** Two sequences ordered highest key first that agree on the order within
      every key are equal; so any stable sort yields SortBy's result. */
  lemma {:induction false} NonIncreasingUnique<T>(t1: seq<T>, t2: seq<T>, key: T -> int)
    requires NonIncreasing(t1, key) && NonIncreasing(t2, key)
    requires forall k :: WithKey(t1, key, k) == WithKey(t2, key, k)
    ensures t1 == t2
  {
    WithKeysAgreeOnEmptiness(t1, t2, key);
    if |t1| > 0 {
      var k1, k2 := key(t1[0]), key(t2[0]);
      WithKeyHead(t1, key);
      WithKeyHead(t2, key);
      // t2[0] occurs in t1 and t1[0] in t2, so neither head key exceeds the other
      assert t2[0] in WithKey(t1, key, k2);
      FilterMembers(t1, x => key(x) == k2, t2[0]);
      var j1 :| 0 <= j1 < |t1| && t1[j1] == t2[0];
      NonIncreasingAt(t1, key, 0, j1);
      assert t1[0] in WithKey(t2, key, k1);
      FilterMembers(t2, x => key(x) == k1, t1[0]);
      var j2 :| 0 <= j2 < |t2| && t2[j2] == t1[0];
      NonIncreasingAt(t2, key, 0, j2);
      assert k1 == k2;
      assert t1[0] == WithKey(t1, key, k1)[0] == WithKey(t2, key, k1)[0] == t2[0];
      forall k
        ensures WithKey(t1[1..], key, k) == WithKey(t2[1..], key, k)
      {
        WithKeyTail(t1, key, k);
        WithKeyTail(t2, key, k);
      }
      NonIncreasingUnique(t1[1..], t2[1..], key);
      assert t1 == [t1[0]] + t1[1..] && t2 == [t2[0]] + t2[1..];
    }
  }

  /** Sequences that agree on the elements of every key are empty together. */
  lemma WithKeysAgreeOnEmptiness<T>(t1: seq<T>, t2: seq<T>, key: T -> int)
    requires forall k :: WithKey(t1, key, k) == WithKey(t2, key, k)
    ensures |t1| == 0 <==> |t2| == 0
  {
    if |t1| > 0 {
      WithKeyHead(t1, key);
      assert WithKey(t2, key, key(t1[0])) != [];
    }
    if |t2| > 0 {
      WithKeyHead(t2, key);
      assert WithKey(t1, key, key(t2[0])) != [];
    }
  }

  /** The first element leads the elements sharing its key. */
  lemma WithKeyHead<T>(t: seq<T>, key: T -> int)
    requires |t| > 0
    ensures WithKey(t, key, key(t[0])) == [t[0]] + WithKey(t[1..], key, key(t[0]))
  {
  }

  lemma WithKeyTail<T>(t: seq<T>, key: T -> int, k: int)
    requires |t| > 0
    ensures WithKey(t[1..], key, k) ==
            if key(t[0]) == k then WithKey(t, key, k)[1..] else WithKey(t, key, k)
  {
  }

  /** The characterisation of a stable sort by key: a permutation whose keys
      never increase and that keeps the input order within each key is exactly
      SortBy's result. */
  lemma StableSortIsSortBy<T(!new)>(s: seq<T>, t: seq<T>, cmp: (T, T) -> int, key: T -> int)
    requires OrdersByKeyDescending(cmp, key)
    requires NonIncreasing(t, key)
    requires forall k :: WithKey(t, key, k) == WithKey(s, key, k)
    ensures t == SortBy(s, cmp)
  {
    SortByNonIncreasing(s, cmp, key);
    forall k ensures WithKey(t, key, k) == WithKey(SortBy(s, cmp), key, k) {
      SortByStable(s, cmp, key, k);
    }
    NonIncreasingUnique(t, SortBy(s, cmp), key);
  }

  // ------------------------------------------------------- sorting in place

  /** Where Insert puts x: after t[..j] when every element from j on compares
      positive against x and the one before j does not. */
  lemma {:induction false} InsertAt<T>(x: T, t: seq<T>, cmp: (T, T) -> int, j: int)
    requires 0 <= j <= |t|
    requires j > 0 ==> cmp(t[j - 1], x) <= 0
    requires forall k :: j <= k < |t| ==> cmp(t[k], x) > 0
    ensures Insert(x, t, cmp) == t[..j] + [x] + t[j..]
    decreases |t|
  {
    if j == |t| {
      assert t[..j] == t && t[j..] == [];
    } else {
      var init, last := t[..|t| - 1], t[|t| - 1];
      InsertAt(x, init, cmp, j);
      SplitAppend(init, last, x, j);
      assert t == init + [last];
    }
  }

  /** Appending after an insertion point is appending to the part after it. */
  lemma SplitAppend<T>(init: seq<T>, last: T, x: T, j: int)
    requires 0 <= j <= |init|
    ensures init[..j] + [x] + init[j..] + [last] ==
            (init + [last])[..j] + [x] + (init + [last])[j..]
  {
    assert (init + [last])[..j] == init[..j];
    assert (init + [last])[j..] == init[j..] + [last];
  }

  /** A sequence that holds t[..j], then x, then the rest of t shifted one to
      the right, is t with x inserted at j. */
  lemma ShiftedIsInserted<T>(shifted: seq<T>, t: seq<T>, x: T, j: int)
    requires 0 <= j <= |t| && |shifted| == |t| + 1
    requires forall k :: 0 <= k < j ==> shifted[k] == t[k]
    requires shifted[j] == x
    requires forall k :: j < k < |shifted| ==> shifted[k] == t[k - 1]
    ensures shifted == t[..j] + [x] + t[j..]
  {
    var inserted := t[..j] + [x] + t[j..];
    forall k | j < k < |shifted|
      ensures shifted[k] == inserted[k]
    {
      assert inserted[k] == t[j..][k - j - 1];
    }
  }

  /** Sorting one more element of a prefix inserts it into the sorted prefix. */
  lemma SortByPrefixStep<T>(s: seq<T>, i: int, cmp: (T, T) -> int)
    requires 0 <= i < |s|
    ensures SortBy(s[..i + 1], cmp) == Insert(s[i], SortBy(s[..i], cmp), cmp)
  {
    assert s[..i + 1][..i] == s[..i];
  }

  /** One step of the in-place insertion sort: a[i] is shifted left past
      every element of the prefix a[..i] that compares positive against it. */
  method InsertInPlace<T>(a: array<T>, i: int, cmp: (T, T) -> int)
    requires 0 <= i < a.Length
    modifies a
    ensures a[..i + 1] == Insert(old(a[i]), old(a[..i]), cmp)
    ensures forall k :: i < k < a.Length ==> a[k] == old(a[k])
  {
    var x := a[i];
    ghost var sorted := a[..i];
    var j := i;
    while j > 0 && cmp(a[j - 1], x) > 0
      invariant 0 <= j <= i
      invariant forall k :: 0 <= k < j ==> a[k] == sorted[k]
      invariant forall k :: j < k <= i ==> a[k] == sorted[k - 1]
      invariant forall k :: i < k < a.Length ==> a[k] == old(a[k])
      invariant forall k :: j <= k < i ==> cmp(sorted[k], x) > 0
    {
      a[j] := a[j - 1];
      j := j - 1;
    }
    a[j] := x;
    InsertAt(x, sorted, cmp, j);
    ShiftedIsInserted(a[..i + 1], sorted, x, j);
  }

  /** `a.sort(cmp)`: insertion sort in place; after step i the prefix
      a[..i] is the sorted prefix of the input. */
  method SortInPlace<T>(a: array<T>, cmp: (T, T) -> int)
    modifies a
    ensures a[..] == SortBy(old(a[..]), cmp)
  {
    ghost var input := a[..];
    var i := 0;
    while i < a.Length
      invariant 0 <= i <= a.Length
      invariant a[..i] == SortBy(input[..i], cmp)
      invariant forall k :: i <= k < a.Length ==> a[k] == input[k]
    {
      InsertInPlace(a, i, cmp);
      SortByPrefixStep(input, i, cmp);
      i := i + 1;
    }
    assert input[..a.Length] == input;
  }
}
