/** What the discount allocation guarantees, and how far it can be from proportional. */
module InvoiceAllocation {
  import opened Money
  import opened Invoice

  /** The guard of `calculateInvoiceTotals`. */
  predicate Accepted(pre: seq<int>, discount: int) {
    0 <= discount <= EligibleBase(pre)
  }

  lemma {:induction false} EligibleMonotone(pre: seq<int>, m: nat, n: nat)
    requires m <= n <= |pre|
    ensures EligibleUpTo(pre, m) <= EligibleUpTo(pre, n)
    decreases n
  {
    if m < n {
      EligibleMonotone(pre, m, n - 1);
    }
  }

  lemma {:induction false} EligibleWitness(pre: seq<int>, n: nat)
    requires n <= |pre|
    ensures EligibleCount(pre, n) <= EligibleUpTo(pre, n)
    ensures EligibleUpTo(pre, n) > 0 <==> LastEligible(pre, n) >= 0
    decreases n
  {
    if n > 0 {
      EligibleWitness(pre, n - 1);
    }
  }

  // ----- the shares add up to the discount -----

  lemma {:induction false} AllocationPrefix(pre: seq<int>, discount: int, n: nat)
    requires n <= |pre|
    ensures Sum(Allocation(pre, discount)[..n])
         == if 0 <= LastEligible(pre, |pre|) < n then discount else RoundedUpTo(pre, discount, n)
    decreases n
  {
    if n > 0 {
      AllocationPrefix(pre, discount, n - 1);
      assert Allocation(pre, discount)[..n][..n - 1] == Allocation(pre, discount)[..n - 1];
    }
  }

  /** For any lines whatever, the shares of an accepted discount sum exactly to it. */
  lemma AllocationSumsToDiscount(pre: seq<int>, discount: int)
    requires Accepted(pre, discount)
    ensures Sum(Allocation(pre, discount)) == discount
  {
    AllocationPrefix(pre, discount, |pre|);
    assert Allocation(pre, discount)[..|pre|] == Allocation(pre, discount);
    EligibleWitness(pre, |pre|);
    if LastEligible(pre, |pre|) < 0 {
      SkipsAddNothing(pre, discount, 0, |pre|);
    }
  }

  // ----- one share -----

  /** `x` is exactly `discount * base / total`. */
  ghost predicate IsShareOf(x: real, total: int, discount: int, base: int) {
    x * total as real == (discount * base) as real
  }

  lemma ExactShareInRange(pre: seq<int>, discount: int, i: nat)
    requires Accepted(pre, discount) && i < |pre| && pre[i] > 0
    ensures EligibleBase(pre) > 0
    ensures 0.0 <= ExactShare(pre, discount, i) <= pre[i] as real
    ensures IsShareOf(ExactShare(pre, discount, i), EligibleBase(pre), discount, pre[i])
    ensures discount > 0 ==> ExactShare(pre, discount, i) > 0.0
    ensures discount < EligibleBase(pre) ==> ExactShare(pre, discount, i) < pre[i] as real
  {
    EligibleWitness(pre, |pre|);
    hide Proportion, IsShareOf;
    QuotientBounds(discount, EligibleBase(pre), pre[i]);
  }

  lemma ScaleOrder(q: real, b: real, e: real)
    requires e > 0.0
    ensures q * e < b * e <==> q < b
    ensures q * e == b * e <==> q == b
  {
    assert (b - q) * e == b * e - q * e;
  }

  lemma QuotientBounds(d: int, e: int, b: int)
    requires b > 0 && e > 0 && 0 <= d <= e
    ensures 0.0 <= Proportion(d, b, e) <= b as real
    ensures IsShareOf(Proportion(d, b, e), e, d, b)
    ensures d > 0 ==> Proportion(d, b, e) > 0.0
    ensures d < e ==> Proportion(d, b, e) < b as real
  {
    var q := Proportion(d, b, e);
    assert q * e as real == (d * b) as real;
    ScaleOrder(q, b as real, e as real);
    ScaleOrder(q, 0.0, e as real);
    assert (e - d) * b == e * b - d * b;
    assert b as real * e as real == (e * b) as real;
    MulSign(d, b);
    MulSign(e - d, b);
  }

  lemma MulSign(a: int, b: int)
    requires a >= 0 && b > 0
    ensures a * b >= 0 && (a * b > 0 <==> a > 0)
  {
  }

  /** Every share but the remainder lies between zero and its line's base. */
  lemma RoundedShareInRange(pre: seq<int>, discount: int, i: nat)
    requires Accepted(pre, discount) && i < |pre|
    ensures 0 <= RoundedShare(pre, discount, i) <= Positive(pre[i])
  {
    if pre[i] > 0 {
      ExactShareInRange(pre, discount, i);
    }
  }

  // ----- the drift of the remainder -----

  function ExactUpTo(pre: seq<int>, discount: int, n: nat): real
    requires n <= |pre|
  {
    if n == 0 then 0.0 else ExactUpTo(pre, discount, n - 1) + ExactShare(pre, discount, n - 1)
  }

  lemma {:induction false} ExactSum(pre: seq<int>, discount: int, n: nat)
    requires Accepted(pre, discount) && n <= |pre| && EligibleBase(pre) > 0
    ensures IsShareOf(ExactUpTo(pre, discount, n), EligibleBase(pre), discount, EligibleUpTo(pre, n))
    decreases n
  {
    NoShare(EligibleBase(pre), discount);
    hide Proportion, IsShareOf;
    if n > 0 {
      ExactSum(pre, discount, n - 1);
      if pre[n - 1] > 0 {
        ExactShareInRange(pre, discount, n - 1);
      }
      AddShare(ExactUpTo(pre, discount, n - 1), ExactShare(pre, discount, n - 1), EligibleBase(pre),
               discount, EligibleUpTo(pre, n - 1), Positive(pre[n - 1]));
    }
  }

  lemma NoShare(e: int, discount: int)
    ensures IsShareOf(0.0, e, discount, 0)
  {
  }

  lemma AddShare(rest: real, share: real, e: int, discount: int, before: int, base: int)
    requires IsShareOf(rest, e, discount, before) && IsShareOf(share, e, discount, base)
    ensures IsShareOf(rest + share, e, discount, before + base)
  {
    assert (rest + share) * e as real == rest * e as real + share * e as real;
    assert discount * (before + base) == discount * before + discount * base;
  }

  lemma {:induction false} RoundingDrift(pre: seq<int>, discount: int, n: nat)
    requires n <= |pre|
    ensures -(EligibleCount(pre, n) as real) / 2.0
         <= RoundedUpTo(pre, discount, n) as real - ExactUpTo(pre, discount, n)
         <= EligibleCount(pre, n) as real / 2.0
    decreases n
  {
    if n > 0 {
      RoundingDrift(pre, discount, n - 1);
    }
  }

  lemma {:induction false} NothingAfterLast(pre: seq<int>, discount: int, m: nat, n: nat)
    requires m <= n <= |pre| && forall j | m <= j < n :: pre[j] <= 0
    ensures ExactUpTo(pre, discount, n) == ExactUpTo(pre, discount, m)
    ensures EligibleCount(pre, n) == EligibleCount(pre, m)
    decreases n
  {
    if m < n {
      NothingAfterLast(pre, discount, m, n - 1);
    }
  }

  /** With k eligible lines, the remainder share is within (k-1)/2 cents of its exact share. */
  lemma RemainderWithinBound(pre: seq<int>, discount: int)
    requires Accepted(pre, discount) && EligibleBase(pre) > 0
    ensures var last := LastEligible(pre, |pre|);
      var k := EligibleCount(pre, |pre|);
      && 0 <= last && k >= 1
      && -((k - 1) as real) / 2.0
         <= Allocation(pre, discount)[last] as real - ExactShare(pre, discount, last)
         <= (k - 1) as real / 2.0
  {
    EligibleWitness(pre, |pre|);
    var last: nat := LastEligible(pre, |pre|);
    NothingAfterLast(pre, discount, last + 1, |pre|);
    ExactSumsToDiscount(pre, discount);
    RoundingDrift(pre, discount, last);
  }

  lemma ExactSumsToDiscount(pre: seq<int>, discount: int)
    requires Accepted(pre, discount) && EligibleBase(pre) > 0
    ensures ExactUpTo(pre, discount, |pre|) == discount as real
  {
    ExactSum(pre, discount, |pre|);
    CancelFactor(ExactUpTo(pre, discount, |pre|), discount, EligibleBase(pre));
  }

  lemma CancelFactor(x: real, d: int, e: int)
    requires e > 0 && IsShareOf(x, e, d, e)
    ensures x == d as real
  {
    assert (d * e) as real == d as real * e as real;
    ScaleOrder(x, d as real, e as real);
  }

  // ----- when every share stays within its line -----

  predicate SharesInRange(pre: seq<int>, a: seq<int>)
    requires |a| == |pre|
  {
    forall i | 0 <= i < |pre| :: 0 <= a[i] <= Positive(pre[i])
  }

  lemma {:induction false} NothingToShare(pre: seq<int>, n: nat)
    requires n <= |pre|
    ensures RoundedUpTo(pre, 0, n) == 0
    decreases n
  {
    if n > 0 {
      NothingToShare(pre, n - 1);
      assert Accepted(pre, 0);
      RoundedShareIsExact(pre, 0, n - 1, 0);
    }
  }

  lemma RoundedShareIsExact(pre: seq<int>, discount: int, i: nat, share: int)
    requires Accepted(pre, discount) && i < |pre|
    requires pre[i] > 0 ==> discount * pre[i] == share * EligibleBase(pre)
    requires pre[i] <= 0 ==> share == 0
    ensures RoundedShare(pre, discount, i) == share
  {
    if pre[i] > 0 {
      ExactShareInRange(pre, discount, i);
      hide EligibleBase, Proportion;
      assert IsShareOf(ExactShare(pre, discount, i), EligibleBase(pre), share, EligibleBase(pre));
      CancelFactor(ExactShare(pre, discount, i), share, EligibleBase(pre));
    }
  }

  lemma {:induction false} EverythingShared(pre: seq<int>, n: nat)
    requires n <= |pre|
    ensures RoundedUpTo(pre, EligibleBase(pre), n) == EligibleUpTo(pre, n)
    decreases n
  {
    if n > 0 {
      EverythingShared(pre, n - 1);
      RoundedShareIsExact(pre, EligibleBase(pre), n - 1, Positive(pre[n - 1]));
    }
  }

  /** With at most three eligible lines the remainder, too, stays within its line's base. */
  lemma RemainderInRange(pre: seq<int>, discount: int)
    requires Accepted(pre, discount) && EligibleBase(pre) > 0 && EligibleCount(pre, |pre|) <= 3
    ensures var last := LastEligible(pre, |pre|);
      0 <= last && 0 <= Allocation(pre, discount)[last] <= pre[last]
  {
    RemainderWithinBound(pre, discount);
    var last: nat := LastEligible(pre, |pre|);
    ExactShareInRange(pre, discount, last);
    if discount == 0 {
      NothingToShare(pre, last);
    } else if discount == EligibleBase(pre) {
      EverythingShared(pre, last);
      EligibleMonotone(pre, last + 1, |pre|);
      NoMoreEligible(pre, last + 1, |pre|);
    } else {
      var share, k := Allocation(pre, discount)[last], EligibleCount(pre, |pre|);
      assert (k - 1) as real / 2.0 <= 1.0;
      assert -1.0 < share as real < pre[last] as real + 1.0;
    }
  }

  lemma {:induction false} NoMoreEligible(pre: seq<int>, m: nat, n: nat)
    requires m <= n <= |pre| && forall j | m <= j < n :: pre[j] <= 0
    ensures EligibleUpTo(pre, n) == EligibleUpTo(pre, m)
    decreases n
  {
    if m < n {
      NoMoreEligible(pre, m, n - 1);
    }
  }

  /** At most three eligible lines: every share lies within its line. */
  lemma ThreeLinesStayInRange(pre: seq<int>, discount: int)
    requires Accepted(pre, discount) && EligibleCount(pre, |pre|) <= 3
    ensures SharesInRange(pre, Allocation(pre, discount))
  {
    EligibleWitness(pre, |pre|);
    if EligibleBase(pre) > 0 {
      RemainderInRange(pre, discount);
    }
    forall i | 0 <= i < |pre| ensures 0 <= Allocation(pre, discount)[i] <= Positive(pre[i]) {
      RoundedShareInRange(pre, discount, i);
    }
  }

  // ----- and when it does not -----

  function Ones(k: nat): seq<int> {
    seq(k, _ => 1)
  }

  lemma {:induction false} OnesSums(k: nat, discount: int, n: nat)
    requires n <= k && k >= 1 && k <= 2 * discount && discount < k
    ensures EligibleUpTo(Ones(k), n) == EligibleCount(Ones(k), n) == n
    ensures EligibleBase(Ones(k)) == k ==> RoundedUpTo(Ones(k), discount, n) == n
    decreases n
  {
    if n > 0 {
      OnesSums(k, discount, n - 1);
      if EligibleBase(Ones(k)) == k {
        HalfCentRoundsUp(discount, k);
      }
    }
  }

  lemma HalfCentRoundsUp(d: int, k: int)
    requires 0 < k <= 2 * d && d < k
    ensures Round(Proportion(d, 1, k)) == 1
  {
    var q := Proportion(d, 1, k);
    assert q * k as real == d as real;
    ScaleOrder(q, 0.5, k as real);
    ScaleOrder(q, 1.0, k as real);
    RoundIsNearest(q, 1);
  }

  /**
   From four eligible lines on, the remainder can be negative: k lines of one cent and a
   discount of half their sum, rounded up.
   */
  lemma FourLinesCanGoNegative(k: nat)
    requires k >= 4
    ensures var pre, discount := Ones(k), (k + 1) / 2;
      && EligibleCount(pre, |pre|) == k && Accepted(pre, discount)
      && Allocation(pre, discount)[k - 1] == discount - (k - 1) < 0
      && !SharesInRange(pre, Allocation(pre, discount))
  {
    var pre, discount := Ones(k), (k + 1) / 2;
    OnesSums(k, discount, k);
    OnesSums(k, discount, k - 1);
    assert LastEligible(pre, k) == k - 1;
    assert AllocatedShare(pre, discount, k - 1) == discount - (k - 1);
  }

  /** All lines of three cents but the last, of one. */
  function ThreesAndOne(k: nat): seq<int> {
    seq(k, i => if i == k - 1 then 1 else 3)
  }

  lemma {:induction false} ThreesSums(k: nat, n: nat)
    requires n < k && k >= 4
    ensures EligibleUpTo(ThreesAndOne(k), n) == 3 * n && EligibleCount(ThreesAndOne(k), n) == n
    ensures EligibleBase(ThreesAndOne(k)) == 3 * k - 2 ==> RoundedUpTo(ThreesAndOne(k), 2 * k, n) == 2 * n
    decreases n
  {
    if n > 0 {
      ThreesSums(k, n - 1);
      TwoThirdsRoundToTwo(k);
    }
  }

  lemma TwoThirdsRoundToTwo(k: int)
    requires k >= 4
    ensures Round(Proportion(2 * k, 3, 3 * k - 2)) == 2
  {
    var q, e := Proportion(2 * k, 3, 3 * k - 2), 3 * k - 2;
    assert q * e as real == (6 * k) as real;
    ScaleOrder(q, 2.0, e as real);
    ScaleOrder(q, 2.5, e as real);
    RoundIsNearest(q, 2);
  }

  /** From four eligible lines on, the remainder can also exceed the base of its line. */
  lemma FourLinesCanOvershoot(k: nat)
    requires k >= 4
    ensures var pre, discount := ThreesAndOne(k), 2 * k;
      && EligibleCount(pre, |pre|) == k && Accepted(pre, discount)
      && Allocation(pre, discount)[k - 1] == 2 > pre[k - 1] == 1
  {
    var pre, discount := ThreesAndOne(k), 2 * k;
    ThreesSums(k, k - 1);
    assert LastEligible(pre, k) == k - 1;
    assert AllocatedShare(pre, discount, k - 1) == 2;
  }

  /** Three is the sharp bound: the range property holds for all inputs with k eligible lines iff k <= 3. */
  lemma RangeHoldsIffAtMostThree(k: nat)
    ensures k <= 3 <==>
      forall pre: seq<int>, discount: int | EligibleCount(pre, |pre|) == k && Accepted(pre, discount) ::
        SharesInRange(pre, Allocation(pre, discount))
  {
    if k <= 3 {
      forall pre: seq<int>, discount: int | EligibleCount(pre, |pre|) == k && Accepted(pre, discount)
        ensures SharesInRange(pre, Allocation(pre, discount))
      {
        ThreeLinesStayInRange(pre, discount);
      }
    } else {
      FourLinesCanGoNegative(k);
    }
  }
}
