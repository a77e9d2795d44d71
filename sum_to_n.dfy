/** Five ways of computing 1 + 2 + ... + n: an accumulating loop, the same loop
    behind a memo table, a recursion, the recursion behind a memo table, and
    the closed form n * (n + 1) / 2. JavaScript numbers are modelled as
    unbounded integers. */
module SumToN {

  /** Reference definition: the sum of the integers 1..n, empty (0) when n <= 0. */
  function SumUpTo(n: int): (r: int)
    ensures n >= 1 ==> r >= n
    ensures n <= 0 ==> r == 0
  {
    if n <= 0 then 0 else SumUpTo(n - 1) + n
  }

  /** The product of two consecutive integers is even, for negative n too. */
  lemma {:induction false} ConsecutiveProductIsEven(n: int)
    ensures (n * (n + 1)) % 2 == 0
    decreases if n < 0 then -n else n
  {
    if n > 0 {
      ConsecutiveProductIsEven(n - 1);
      assert n * (n + 1) == (n - 1) * n + 2 * n;
    } else if n < 0 {
      ConsecutiveProductIsEven(-n - 1);
      assert n * (n + 1) == (-n - 1) * (-n);
    }
  }

  /** sum_to_n_c: the closed form. The division is exact for every integer n. */
  function SumToNC(n: int): (r: int)
    ensures 2 * r == n * (n + 1)
  {
    ConsecutiveProductIsEven(n);
    n * (n + 1) / 2
  }

  /** The sum 1..n agrees with the closed form for every n >= 0. */
  lemma {:induction false} SumUpToClosedForm(n: int)
    requires n >= 0
    ensures SumUpTo(n) == SumToNC(n)
  {
    if n > 0 {
      SumUpToClosedForm(n - 1);
      assert 2 * SumToNC(n - 1) == (n - 1) * n;
      assert 2 * SumUpTo(n) == (n - 1) * n + 2 * n == n * (n + 1);
    }
  }

  /** For negative n the loop sums nothing. The closed form is 0 at n == -1
      too, but positive for every n <= -2, so the two formulas agree exactly
      from -1 upwards. */
  lemma {:induction false} ClosedFormAgreesExactlyFromMinusOne(n: int)
    ensures SumUpTo(n) == SumToNC(n) <==> n >= -1
  {
    if n >= 0 {
      SumUpToClosedForm(n);
    } else if n <= -2 {
      var m := -n - 1;
      assert m >= 1;
      assert n * (n + 1) == (m + 1) * m == m * m + m;
      assert m * m >= m;
      assert 2 * SumToNC(n) >= 2;
    }
  }

  /** sum_to_n_a: `sum` starts at 0 and the loop adds i for i = 1, ..., n;
      when n < 1 the body never runs and the result is 0. */
  method SumToNA(n: int) returns (sum: int)
    ensures sum == SumUpTo(n)
    ensures n >= 0 ==> sum == SumToNC(n)
  {
    sum := 0;
    var i := 1;
    while i <= n
      invariant 1 <= i && (n >= 1 ==> i <= n + 1) && (n < 1 ==> i == 1)
      invariant sum == SumUpTo(i - 1)
    {
      sum := sum + i;
      i := i + 1;
    }
    if n >= 0 {
      SumUpToClosedForm(n);
    }
  }

  /** sum_to_n_b: n + sum_to_n_b(n - 1) with base case 1 at n == 1. The source
      never reaches its base case from n < 1, hence the precondition. */
  function SumToNB(n: int): (r: int)
    requires n >= 1
    ensures 2 * r == n * (n + 1)
    decreases n
  {
    if n == 1 then 1 else n + SumToNB(n - 1)
  }

  /** The recursive definition agrees with the loop and with the closed form. */
  lemma {:induction false} SumToNBAgrees(n: int)
    requires n >= 1
    ensures SumToNB(n) == SumUpTo(n) == SumToNC(n)
  {
    if n > 1 {
      SumToNBAgrees(n - 1);
    }
  }

  /** The memo table behind sum_to_n_a_with_cache: a dictionary from n to the
      loop's result that persists across calls. */
  class SumToNACache {
    var cache: map<int, int>

    /** Every stored entry is the loop's result for its key. */
    ghost predicate Valid()
      reads this
    {
      forall k :: k in cache ==> cache[k] == SumUpTo(k)
    }

    constructor ()
      ensures Valid() && cache == map[]
    {
      cache := map[];
    }

    /** A stored value is returned only when it is truthy; a stored 0 (from any
        n <= 0) is recomputed and written again. Either way the result is the
        loop's, `cache[n]` holds it afterwards, and no other key changes. */
    method SumToN(n: int) returns (sum: int)
      requires Valid()
      modifies this
      ensures Valid()
      ensures sum == SumUpTo(n)
      ensures cache == old(cache)[n := sum]
      ensures n in old(cache) ==> cache == old(cache)
    {
      if n in cache && cache[n] != 0 {
        return cache[n];
      }
      sum := SumToNA(n);
      cache := cache[n := sum];
    }
  }

  /** The memo table behind sum_to_n_b_with_cache. */
  class SumToNBCache {
    var cache: map<int, int>

    /** Every stored entry is the sum 1..k for its key; the keys are at least 2
        (n == 1 is answered without writing), and they are closed downwards:
        storing k means every key 2..k - 1 was stored on the way down. */
    ghost predicate Valid()
      reads this
    {
      (forall k :: k in cache ==> k >= 2 && cache[k] == SumUpTo(k)) &&
      (forall k, j :: k in cache && 2 <= j < k ==> j in cache)
    }

    constructor ()
      ensures Valid() && cache == map[]
    {
      cache := map[];
    }

    /** A truthy stored value is returned; n == 1 returns 1 without writing;
        otherwise n + SumToN(n - 1) is stored under n. Afterwards every key
        2..n is stored, no other key is added, and every entry that was there
        before keeps its value. */
    method SumToN(n: int) returns (sum: int)
      requires n >= 1
      requires Valid()
      modifies this
      decreases n
      ensures Valid()
      ensures sum == SumUpTo(n)
      ensures forall k :: k in cache <==> k in old(cache) || 2 <= k <= n
      ensures forall k :: k in old(cache) ==> cache[k] == old(cache)[k]
      ensures n in old(cache) ==> cache == old(cache)
    {
      if n in cache && cache[n] != 0 {
        return cache[n];
      }
      if n == 1 {
        return 1;
      }
      var rest := SumToN(n - 1);
      sum := n + rest;
      cache := cache[n := sum];
    }
  }

  /** Two calls with the same n give the same result, and the second one
      leaves the memo table as the first one left it. */
  method CallTwiceA(c: SumToNACache, n: int) returns (first: int, second: int)
    requires c.Valid()
    modifies c
    ensures c.Valid()
    ensures first == second == SumUpTo(n)
    ensures c.cache == old(c.cache)[n := first]
  {
    first := c.SumToN(n);
    ghost var afterFirst := c.cache;
    second := c.SumToN(n);
    assert c.cache == afterFirst;
  }

  /** Two calls with the same n give the same result, n * (n + 1) / 2. The
      first call stores every key 2..n, so the second one writes nothing and
      the table ends as the first call left it. */
  method CallTwiceB(c: SumToNBCache, n: int) returns (first: int, second: int)
    requires n >= 1
    requires c.Valid()
    modifies c
    ensures c.Valid()
    ensures first == second == SumUpTo(n) == SumToNC(n)
    ensures forall k :: k in c.cache <==> k in old(c.cache) || 2 <= k <= n
    ensures forall k :: k in old(c.cache) ==> c.cache[k] == old(c.cache)[k]
  {
    first := c.SumToN(n);
    ghost var afterFirst := c.cache;
    second := c.SumToN(n);
    assert forall k :: k in c.cache <==> k in afterFirst;
    assert forall k :: k in afterFirst ==> c.cache[k] == afterFirst[k];
    assert c.cache == afterFirst;
    SumUpToClosedForm(n);
  }
}
