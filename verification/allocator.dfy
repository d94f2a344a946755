/**
 * The ticket allocator of the queue provider: the organisation's effective maximum and
 * the next sequential ticket number with wrap-around.
 */
module Allocator {
  import opened Wrappers

  /** The maximum used when the organisation's `max_count` is not configured. */
  const DefaultMaxCount := 99

  /**
   * `org.max_count || 99`: a missing (null) or zero maximum is falsy and falls back to
   * the default; every other value, negative ones included, is used as it is.
   */
  function EffectiveMaxCount(maxCount: Option<int>): (m: int)
    ensures maxCount == None || maxCount == Some(0) ==> m == DefaultMaxCount
    ensures maxCount.Some? && maxCount.value != 0 ==> m == maxCount.value
  {
    match maxCount
    case Some(v) => if v != 0 then v else DefaultMaxCount
    case None => DefaultMaxCount
  }

  /** A configured positive maximum, or none at all, gives a positive effective maximum. */
  lemma EffectiveMaxCountPositive(maxCount: Option<int>)
    requires maxCount.None? || maxCount.value >= 0
    ensures EffectiveMaxCount(maxCount) >= 1
  {
  }

  /**
   * The number `callNext` issues: one more than the last issued number, 1 when no
   * number was read, and 1 again when the successor would exceed the maximum.
   */
  function NextNumber(last: Option<int>, maxCount: int): (n: int)
    ensures n == 1 || (last.Some? && n == last.value + 1 && n <= maxCount)
  {
    var candidate := if last.Some? then last.value + 1 else 1;
    if candidate > maxCount then 1 else candidate
  }

  /** With no prior call the sequence starts at 1, whatever the maximum. */
  lemma NextNumberFirst(maxCount: int)
    ensures NextNumber(None, maxCount) == 1
  {
  }

  /** Below the maximum the next number is the successor; at or above it, 1. */
  lemma NextNumberCases(last: int, maxCount: int)
    ensures last + 1 <= maxCount ==> NextNumber(Some(last), maxCount) == last + 1
    ensures last + 1 > maxCount ==> NextNumber(Some(last), maxCount) == 1
    ensures last == maxCount ==> NextNumber(Some(last), maxCount) == 1
  {
  }

  /** For a positive maximum and a non-negative last number the result is a valid ticket. */
  lemma NextNumberInRange(last: Option<int>, maxCount: int)
    requires maxCount >= 1
    requires last.None? || last.value >= 0
    ensures 1 <= NextNumber(last, maxCount) <= maxCount
  {
  }

  /** Issuing `k` numbers in a row from `last`, each read back as the next one's last. */
  function Issue(last: Option<int>, maxCount: int, k: nat): (ns: seq<int>)
    ensures |ns| == k
    ensures k > 0 ==> ns[0] == NextNumber(last, maxCount)
    ensures forall i :: 0 < i < k ==> ns[i] == NextNumber(Some(ns[i - 1]), maxCount)
    decreases k
  {
    if k == 0 then []
    else
      var n := NextNumber(last, maxCount);
      [n] + Issue(Some(n), maxCount, k - 1)
  }

  /**
   * Starting from no calls, the sequence counts 1, 2, ..., maxCount and then starts
   * again at 1: the issued number at position `i` is `i % maxCount + 1`.
   */
  lemma {:induction false} IssueCycles(maxCount: int, k: nat)
    requires maxCount >= 1
    ensures forall i :: 0 <= i < k ==> Issue(None, maxCount, k)[i] == i % maxCount + 1
  {
    var ns := Issue(None, maxCount, k);
    forall i | 0 <= i < k
      ensures ns[i] == i % maxCount + 1
    {
      IssueCyclesAt(maxCount, k, i);
    }
  }

  lemma {:induction false} IssueCyclesAt(maxCount: int, k: nat, i: nat)
    requires maxCount >= 1 && i < k
    ensures Issue(None, maxCount, k)[i] == i % maxCount + 1
    decreases i
  {
    var ns := Issue(None, maxCount, k);
    if i > 0 {
      IssueCyclesAt(maxCount, k, i - 1);
      assert ns[i] == NextNumber(Some(ns[i - 1]), maxCount);
      if (i - 1) % maxCount + 1 == maxCount {
        assert i % maxCount == 0 by { ModStep(i - 1, maxCount); }
      } else {
        assert i % maxCount == (i - 1) % maxCount + 1 by { ModStep(i - 1, maxCount); }
      }
    }
  }

  lemma ModStep(j: nat, m: int)
    requires m >= 1
    ensures j % m + 1 == m ==> (j + 1) % m == 0
    ensures j % m + 1 < m ==> (j + 1) % m == j % m + 1
  {
    var q, r := j / m, j % m;
    assert j == q * m + r;
    if r + 1 == m {
      assert j + 1 == (q + 1) * m + 0;
      ModUnique(j + 1, m, q + 1, 0);
    } else {
      ModUnique(j + 1, m, q, r + 1);
    }
  }

  lemma ModUnique(a: int, m: int, q: int, r: int)
    requires m >= 1 && 0 <= r < m && a == q * m + r
    ensures a % m == r
  {
    var q', r' := a / m, a % m;
    assert a == q' * m + r';
    assert (q - q') * m == r' - r by {
      assert q * m - q' * m == (q - q') * m;
    }
    if q > q' {
      MulAtLeast(q - q', m);
    } else if q < q' {
      MulAtLeast(q' - q, m);
    }
  }

  lemma {:induction false} MulAtLeast(d: int, m: int)
    requires d >= 1 && m >= 1
    ensures d * m >= m
    decreases d
  {
    if d > 1 {
      MulAtLeast(d - 1, m);
      assert d * m == (d - 1) * m + m;
    }
  }

  /** The scenario of a maximum of 3: four calls from an empty queue give 1, 2, 3, 1. */
  lemma WrapAroundAtThree()
    ensures Issue(None, 3, 4) == [1, 2, 3, 1]
  {
    IssueCycles(3, 4);
  }
}
