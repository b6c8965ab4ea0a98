/** Exponential backoff on Go durations, which are 64-bit integers. */
module Backoff {

  const INT64_LIMIT := 0x8000_0000_0000_0000

  /** Go's wrap-around of a product. */
  function Wrap64(x: int): int {
    (x + INT64_LIMIT) % (2 * INT64_LIMIT) - INT64_LIMIT
  }

  function Power(base: nat, exp: nat): nat {
    if exp == 0 then 1 else Power(base, exp - 1) * base
  }

  function Min(a: int, b: int): int {
    if a < b then a else b
  }

  /** The delay after n adverse cycles in a row, as far as no product wraps around: the first
      delay is not capped. */
  function DelayAfter(base: nat, coefficient: int, maxDelay: int, n: nat): int {
    if n == 0 then 0
    else if n == 1 then coefficient
    else Min(coefficient * Power(base, n - 1), maxDelay)
  }

  lemma NextPower(base: nat, coefficient: int, exp: nat)
    requires exp >= 1
    ensures coefficient * Power(base, exp) == coefficient * Power(base, exp - 1) * base
  {
  }

  lemma {:induction false} PowerGrows(base: nat, coefficient: int, m: nat, n: nat)
    requires base >= 1 && coefficient >= 1 && m <= n
    ensures 1 <= coefficient * Power(base, m) <= coefficient * Power(base, n)
    decreases n
  {
    if m < n {
      PowerGrows(base, coefficient, m, n - 1);
      NextPower(base, coefficient, n);
      Scale(coefficient * Power(base, n - 1), base);
    } else if n > 0 {
      PowerGrows(base, coefficient, n - 1, n - 1);
      NextPower(base, coefficient, n);
      Scale(coefficient * Power(base, n - 1), base);
    }
  }

  lemma Scale(x: int, base: nat)
    requires base >= 1 && x >= 0
    ensures x <= x * base
  {
  }

  lemma ScaleOrder(x: int, y: int, base: nat)
    requires x <= y
    ensures x * base <= y * base
  {
  }

  lemma SmallProduct(x: int)
    requires 0 <= x < INT64_LIMIT
    ensures Wrap64(x) == x
  {
  }

  // ----- The loop on wrapping products -----------------------------------------------------

  /** `left` more rounds of the loop, from the current delay. */
  function Looped(base: int, maxDelay: int, delay: int, left: nat): int
    decreases left
  {
    if left == 0 then delay
    else
      var next := Wrap64(delay * base);
      if next >= maxDelay then maxDelay else Looped(base, maxDelay, next, left - 1)
  }

  function LoopDelay(base: int, coefficient: int, maxDelay: int, n: nat): int {
    if n == 0 then 0 else Looped(base, maxDelay, coefficient, n - 1)
  }

  /** The first product that reaches the cap. */
  predicate Reaches(base: nat, coefficient: int, maxDelay: int, k: nat) {
    k >= 1 && coefficient * Power(base, k) >= maxDelay && (k == 1 || coefficient * Power(base, k - 1) < maxDelay)
  }

  /** It is still seen to reach the cap after wrapping around. */
  ghost predicate CapSeen(base: nat, coefficient: int, maxDelay: int) {
    forall k: nat | Reaches(base, coefficient, maxDelay, k) :: Wrap64(coefficient * Power(base, k)) >= maxDelay
  }

  predicate Durations(base: nat, coefficient: int, maxDelay: int) {
    base >= 1 && 1 <= coefficient < INT64_LIMIT && 1 <= maxDelay < INT64_LIMIT
  }

  /** From a product below the cap the remaining rounds multiply and cap. */
  lemma {:induction false} LoopedCaps(base: nat, coefficient: int, maxDelay: int, i: nat, left: nat)
    requires Durations(base, coefficient, maxDelay) && CapSeen(base, coefficient, maxDelay)
    requires i == 0 || coefficient * Power(base, i) < maxDelay
    ensures Looped(base, maxDelay, coefficient * Power(base, i), left)
      == if left == 0 then coefficient * Power(base, i) else Min(coefficient * Power(base, i + left), maxDelay)
    decreases left
  {
    if left > 0 {
      var next := coefficient * Power(base, i + 1);
      NextPower(base, coefficient, i + 1);
      PowerGrows(base, coefficient, i + 1, i + left);
      if next < maxDelay {
        SmallProduct(next);
        LoopedCaps(base, coefficient, maxDelay, i + 1, left - 1);
      } else {
        assert Reaches(base, coefficient, maxDelay, i + 1);
      }
    }
  }

  /** A product that wraps below the cap is what the loop returns right after it. */
  lemma {:induction false} LoopedWraps(base: nat, coefficient: int, maxDelay: int, i: nat, k: nat)
    requires Durations(base, coefficient, maxDelay)
    requires i < k && Reaches(base, coefficient, maxDelay, k) && Wrap64(coefficient * Power(base, k)) < maxDelay
    ensures Looped(base, maxDelay, coefficient * Power(base, i), k - i) == Wrap64(coefficient * Power(base, k))
    decreases k - i
  {
    var next := coefficient * Power(base, i + 1);
    NextPower(base, coefficient, i + 1);
    if i + 1 < k {
      PowerGrows(base, coefficient, i + 1, k - 1);
      SmallProduct(next);
      LoopedWraps(base, coefficient, maxDelay, i + 1, k);
    }
  }

  /** The loop computes DelayAfter for every number of failures if and only if the first product
      to reach the cap does not wrap below it. */
  lemma NoWrapForm(base: nat, coefficient: int, maxDelay: int)
    requires Durations(base, coefficient, maxDelay)
    ensures (forall n: nat :: LoopDelay(base, coefficient, maxDelay, n) == DelayAfter(base, coefficient, maxDelay, n))
            <==> CapSeen(base, coefficient, maxDelay)
  {
    assert coefficient * Power(base, 0) == coefficient;
    if CapSeen(base, coefficient, maxDelay) {
      forall n: nat ensures LoopDelay(base, coefficient, maxDelay, n) == DelayAfter(base, coefficient, maxDelay, n) {
        if n > 0 { LoopedCaps(base, coefficient, maxDelay, 0, n - 1); }
      }
    } else {
      var k: nat :| Reaches(base, coefficient, maxDelay, k) && Wrap64(coefficient * Power(base, k)) < maxDelay;
      LoopedWraps(base, coefficient, maxDelay, 0, k);
      assert LoopDelay(base, coefficient, maxDelay, k + 1) < DelayAfter(base, coefficient, maxDelay, k + 1);
    }
  }

  /** The delay is min(coefficient * base^(n-1), maxDelay) after every n >= 1 failures if and only
      if the first product to reach the cap does not wrap below it and the first delay is within
      the cap. */
  lemma ClosedForm(base: nat, coefficient: int, maxDelay: int)
    requires Durations(base, coefficient, maxDelay)
    ensures (forall n: nat | n >= 1 :: LoopDelay(base, coefficient, maxDelay, n) == Min(coefficient * Power(base, n - 1), maxDelay))
            <==> CapSeen(base, coefficient, maxDelay) && coefficient <= maxDelay
  {
    hide CapSeen;
    NoWrapForm(base, coefficient, maxDelay);
    assert coefficient * Power(base, 0) == coefficient;
    assert LoopDelay(base, coefficient, maxDelay, 1) == coefficient;
    if coefficient <= maxDelay {
      assert forall n: nat | n >= 1 ::
        DelayAfter(base, coefficient, maxDelay, n) == Min(coefficient * Power(base, n - 1), maxDelay);
    }
  }

  /** A first delay above the cap is not capped. */
  lemma FirstDelayUncapped()
    ensures CapSeen(2, 10, 5)
    ensures LoopDelay(2, 10, 5, 1) == 10 && Min(10 * Power(2, 0), 5) == 5
  {
    FitsIsSeen(2, 10, 5);
  }

  /** Parameters for which no product leaves the range of a duration. */
  predicate Fits(base: nat, coefficient: int, maxDelay: int) {
    Durations(base, coefficient, maxDelay) && coefficient * base < INT64_LIMIT && maxDelay * base < INT64_LIMIT
  }

  lemma FitsIsSeen(base: nat, coefficient: int, maxDelay: int)
    requires Fits(base, coefficient, maxDelay)
    ensures CapSeen(base, coefficient, maxDelay)
  {
    forall k: nat | Reaches(base, coefficient, maxDelay, k)
      ensures Wrap64(coefficient * Power(base, k)) >= maxDelay
    {
      NextPower(base, coefficient, k);
      PowerGrows(base, coefficient, 0, k - 1);
      if k == 1 {
        assert coefficient * Power(base, 0) == coefficient;
      } else {
        ScaleOrder(coefficient * Power(base, k - 1), maxDelay, base);
      }
      SmallProduct(coefficient * Power(base, k));
    }
  }

  /** Doubling from 2^62 under the largest cap wraps to a negative delay. */
  lemma UnboundedCapWraps()
    ensures var coefficient, maxDelay := 0x4000_0000_0000_0000, INT64_LIMIT - 1;
      LoopDelay(2, coefficient, maxDelay, 2) < 0 && DelayAfter(2, coefficient, maxDelay, 2) == maxDelay
  {
    assert Power(2, 1) == 2;
    assert Wrap64(0x4000_0000_0000_0000 * 2) == -INT64_LIMIT;
  }

  class ExponentialBackOff {
    const base: int
    const coefficient: int
    const maxDelay: int
    var adverseCount: nat

    constructor (base: int, coefficient: int, maxDelay: int)
      ensures this.base == base && this.coefficient == coefficient && this.maxDelay == maxDelay
      ensures adverseCount == 0
    {
      this.base, this.coefficient, this.maxDelay, this.adverseCount := base, coefficient, maxDelay, 0;
    }

    method NextDelay() returns (delay: int)
      ensures delay == LoopDelay(base, coefficient, maxDelay, adverseCount)
      ensures adverseCount == 0 ==> delay == 0
      ensures base >= 1 && Fits(base, coefficient, maxDelay) ==>
        delay == DelayAfter(base, coefficient, maxDelay, adverseCount)
    {
      if base >= 1 && Fits(base, coefficient, maxDelay) {
        FitsIsSeen(base, coefficient, maxDelay);
        NoWrapForm(base, coefficient, maxDelay);
      }
      if adverseCount == 0 {
        return 0;
      }
      delay := coefficient;
      for i := 1 to adverseCount
        invariant Looped(base, maxDelay, delay, adverseCount - i) == Looped(base, maxDelay, coefficient, adverseCount - 1)
      {
        delay := Wrap64(delay * base);
        if delay >= maxDelay {
          delay := maxDelay;
          break;
        }
      }
    }

    method AccumulateAdverse()
      modifies this
      ensures adverseCount == old(adverseCount) + 1
    {
      adverseCount := adverseCount + 1;
    }

    method ClearAdverse()
      modifies this
      ensures adverseCount == 0
    {
      adverseCount := 0;
    }
  }

  /** Delays grow with the number of failures if and only if the first delay is within the
      cap: the first one is not capped. */
  lemma DelayGrows(base: nat, coefficient: int, maxDelay: int)
    requires base >= 1 && coefficient >= 1 && maxDelay >= 1
    ensures (forall m: nat, n: nat | m <= n ::
               DelayAfter(base, coefficient, maxDelay, m) <= DelayAfter(base, coefficient, maxDelay, n))
            <==> coefficient <= maxDelay
  {
    if coefficient <= maxDelay {
      forall m: nat, n: nat | m <= n
        ensures DelayAfter(base, coefficient, maxDelay, m) <= DelayAfter(base, coefficient, maxDelay, n)
      {
        if m >= 1 {
          PowerGrows(base, coefficient, m - 1, n - 1);
          PowerGrows(base, coefficient, 0, n - 1);
          assert coefficient * Power(base, 0) == coefficient;
        } else if n >= 1 {
          PowerGrows(base, coefficient, 0, n - 1);
        }
      }
    } else {
      assert DelayAfter(base, coefficient, maxDelay, 2) <= maxDelay < DelayAfter(base, coefficient, maxDelay, 1);
    }
  }
}
