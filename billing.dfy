/**
 * The fee rule of the parking engine (`calculateFee`, App.tsx): a stay is
 * billed in whole hours, rounded up, and never less than one hour.
 * `HOURLY_RATE` is a configuration constant whose value is not part of this
 * model; it is passed in as `rate`.
 */
module Billing {

  const MS_PER_HOUR: int := 1000 * 60 * 60

  /** The result of `calculateFee`: billed hours and the amount due. */
  datatype Fee = Fee(hours: int, amount: int)

  /** `Math.ceil(diffMs / MS_PER_HOUR)` on integers: the least h with diffMs <= h hours. */
  function CeilHours(diffMs: int): (h: int)
    ensures (h - 1) * MS_PER_HOUR < diffMs <= h * MS_PER_HOUR
  {
    -((-diffMs) / MS_PER_HOUR)
  }

  /**
   * The fee for a stay from `entryTime` to `exitTime`: the least number of
   * whole hours, at least one, that covers the span, times the rate. A zero
   * or negative span bills one hour.
   */
  function CalculateFee(entryTime: int, exitTime: int, rate: nat): (f: Fee)
    ensures f.hours >= 1
    ensures exitTime - entryTime <= f.hours * MS_PER_HOUR
    ensures f.hours > 1 ==> (f.hours - 1) * MS_PER_HOUR < exitTime - entryTime
    ensures f.amount == f.hours * rate
  {
    var hours := CeilHours(exitTime - entryTime);
    var billed := if hours < 1 then 1 else hours;
    Fee(billed, billed * rate)
  }

  /** A stay of exactly k > 0 hours bills k hours. */
  lemma ExactHoursBillExactly(entryTime: int, k: int, rate: nat)
    requires k >= 1
    ensures CalculateFee(entryTime, entryTime + k * MS_PER_HOUR, rate).hours == k
    ensures CalculateFee(entryTime, entryTime + k * MS_PER_HOUR, rate).amount == k * rate
  {
  }

  /** One millisecond past k whole hours bills k + 1 hours. */
  lemma OneMillisecondMoreBillsAnotherHour(entryTime: int, k: nat, rate: nat)
    ensures CalculateFee(entryTime, entryTime + k * MS_PER_HOUR + 1, rate).hours == k + 1
  {
  }

  /** Any stay of at most one hour, including an empty or negative one, bills one hour. */
  lemma ShortStayBillsOneHour(entryTime: int, exitTime: int, rate: nat)
    requires exitTime - entryTime <= MS_PER_HOUR
    ensures CalculateFee(entryTime, exitTime, rate) == Fee(1, rate)
  {
  }

  /** Leaving later never costs less. */
  lemma FeeIsMonotonic(entryTime: int, exit1: int, exit2: int, rate: nat)
    requires exit1 <= exit2
    ensures CalculateFee(entryTime, exit1, rate).hours <= CalculateFee(entryTime, exit2, rate).hours
    ensures CalculateFee(entryTime, exit1, rate).amount <= CalculateFee(entryTime, exit2, rate).amount
  {
    var f1, f2 := CalculateFee(entryTime, exit1, rate), CalculateFee(entryTime, exit2, rate);
    assert f1.hours <= f2.hours;
    MultiplyIsMonotonic(f1.hours, f2.hours, rate);
  }

  lemma MultiplyIsMonotonic(a: int, b: int, c: nat)
    requires a <= b
    ensures a * c <= b * c
  {
  }
}
