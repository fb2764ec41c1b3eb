/**
 * The budget of one limited cgroup from replenishment to replenishment: overspending becomes
 * debt, underspending earns burst credit.
 */
module CgroupBudget {
  import opened Time

  const INF: int := 0x7FFF_FFFF_FFFF_FFFF

  function Max(a: int, b: int): int {
    if a >= b then a else b
  }

  function Clamp(x: int, lo: int, hi: int): int {
    if x < lo then lo else if x > hi then hi else x
  }

  /**
   * What happened in one interval: the runtime spent, the bound in force at its end, and whether a cpu.max
   * period ended.
   */
  datatype Interval = Interval(runtime: int, bound: int, periodEnd: bool)

  /** What a cgroup carries from interval to interval. */
  datatype Purse = Purse(budget: int, burstRemaining: int)

  /** What was spent beyond the budget; spending within it makes no debt. */
  function Debt(p: Purse, i: Interval): int {
    Max(i.runtime - p.budget, 0)
  }

  /** What was left of the quota, as far as the burst goes; a quota that was used up earns none. */
  function Credit(p: Purse, i: Interval, nquota: int): int {
    Clamp(nquota - i.runtime, 0, p.burstRemaining)
  }

  function Replenished(p: Purse, i: Interval, nquota: int, burst: int): Purse {
    Purse(i.bound + Credit(p, i, nquota) - Debt(p, i),
      if i.periodEnd then burst else p.burstRemaining - Credit(p, i, nquota))
  }

  /** The purse at the start of interval `n`. */
  function After(p: Purse, xs: seq<Interval>, nquota: int, burst: int): Purse {
    if xs == [] then p else Replenished(After(p, xs[..|xs| - 1], nquota, burst), xs[|xs| - 1], nquota, burst)
  }

  function Runtime(xs: seq<Interval>): int {
    if xs == [] then 0 else Runtime(xs[..|xs| - 1]) + xs[|xs| - 1].runtime
  }

  /** What the intervals hand out: bounds and burst credits. */
  function Granted(p: Purse, xs: seq<Interval>, nquota: int, burst: int): int {
    if xs == [] then 0
    else
      Granted(p, xs[..|xs| - 1], nquota, burst) + xs[|xs| - 1].bound
        + Credit(After(p, xs[..|xs| - 1], nquota, burst), xs[|xs| - 1], nquota)
  }

  /** The credits since the last cpu.max period ended. */
  function CreditsInPeriod(p: Purse, xs: seq<Interval>, nquota: int, burst: int): int {
    if xs == [] || xs[|xs| - 1].periodEnd then 0
    else
      CreditsInPeriod(p, xs[..|xs| - 1], nquota, burst)
        + Credit(After(p, xs[..|xs| - 1], nquota, burst), xs[|xs| - 1], nquota)
  }

  /** A cgroup that keeps within its budget and its quota has the bound and what it left; one that does not, less. */
  lemma Purses(p: Purse, i: Interval, nquota: int, burst: int)
    requires p.burstRemaining >= 0
    ensures var q, unspent := Replenished(p, i, nquota, burst), nquota - i.runtime;
      && (i.runtime <= p.budget && 0 <= unspent <= p.burstRemaining ==> q.budget == i.bound + unspent)
      && (i.runtime <= p.budget && unspent >= p.burstRemaining ==> q.budget == i.bound + p.burstRemaining)
      && (i.runtime <= p.budget && unspent <= 0 ==> q.budget == i.bound)
      && (i.runtime >= p.budget && unspent <= 0 ==> q.budget == i.bound - (i.runtime - p.budget))
      && (!i.periodEnd && i.runtime <= p.budget ==> q.budget + q.burstRemaining == i.bound + p.burstRemaining)
  {
  }

  lemma {:induction false} BurstInRange(p: Purse, xs: seq<Interval>, nquota: int, burst: int)
    requires 0 <= p.burstRemaining <= burst
    ensures 0 <= After(p, xs, nquota, burst).burstRemaining <= burst
  {
    if xs != [] {
      BurstInRange(p, xs[..|xs| - 1], nquota, burst);
    }
  }

  /**
   * Between two ends of a cpu.max period the credits, with the one granted at the second end, sum to at most
   * the burst.
   */
  lemma {:induction false} CreditsBounded(p: Purse, xs: seq<Interval>, nquota: int, burst: int)
    requires p.burstRemaining == burst >= 0
    ensures CreditsInPeriod(p, xs, nquota, burst) + After(p, xs, nquota, burst).burstRemaining == burst
    ensures forall i: Interval ::
      0 <= CreditsInPeriod(p, xs, nquota, burst)
        <= CreditsInPeriod(p, xs, nquota, burst) + Credit(After(p, xs, nquota, burst), i, nquota) <= burst
  {
    BurstInRange(p, xs, nquota, burst);
    if xs != [] {
      CreditsBounded(p, xs[..|xs| - 1], nquota, burst);
    }
  }

  /**
   * Debt telescopes: spending never gets ahead of what was handed out by more than the last interval's
   * overspending.
   */
  lemma {:induction false} SpendingBounded(p: Purse, xs: seq<Interval>, nquota: int, burst: int)
    requires xs != []
    ensures var init := xs[..|xs| - 1];
      Runtime(xs) <= p.budget + Granted(p, init, nquota, burst) + Debt(After(p, init, nquota, burst), xs[|xs| - 1])
  {
    var init := xs[..|xs| - 1];
    if init != [] {
      SpendingBounded(p, init, nquota, burst);
    }
  }

  /** The same in totals: over n intervals of one bound, at most n bounds, the credits and the last overspending. */
  lemma {:induction false} GrantedTotal(p: Purse, xs: seq<Interval>, nquota: int, burst: int, bound: int)
    requires forall i :: 0 <= i < |xs| ==> xs[i].bound == bound
    ensures Granted(p, xs, nquota, burst) == |xs| * bound + Credits(p, xs, nquota, burst)
  {
    if xs != [] {
      GrantedTotal(p, xs[..|xs| - 1], nquota, burst, bound);
      OneMore(|xs| - 1, bound);
    }
  }

  lemma OneMore(n: nat, bound: int)
    ensures (n + 1) * bound == n * bound + bound
  {
  }

  function Credits(p: Purse, xs: seq<Interval>, nquota: int, burst: int): int {
    if xs == [] then 0
    else
      Credits(p, xs[..|xs| - 1], nquota, burst)
        + Credit(After(p, xs[..|xs| - 1], nquota, burst), xs[|xs| - 1], nquota)
  }

  lemma LongRun(xs: seq<Interval>, nquota: int, burst: int, bound: int)
    requires xs != [] && forall i :: 0 <= i < |xs| ==> xs[i].bound == bound
    ensures var p, init := Purse(bound, burst), xs[..|xs| - 1];
      Runtime(xs) <= |xs| * bound + Credits(p, init, nquota, burst) + Debt(After(p, init, nquota, burst), xs[|xs| - 1])
  {
    var p, init := Purse(bound, burst), xs[..|xs| - 1];
    SpendingBounded(p, xs, nquota, burst);
    GrantedTotal(p, init, nquota, burst, bound);
    hide *;
    OneMore(|init|, bound);
  }

  // ----- the context as the code updates it -----

  class Context {
    var nquota: int
    var nquotaUb: int
    var burst: int
    var burstRemaining: int
    var period: nat
    var periodStart: u64
    var budget: int
    var runtimeLast: int
    var throttled: bool

    /**
     * A new budget: the bound, less exactly what was overspent, plus what was left of the quota as far as the burst
     * goes. Tells whether the cgroup needs attention next: it was or stays throttled, or tasks are parked.
     */
    method Replenish(now: u64, backlogged: bool) returns (attention: bool)
      modifies this
      ensures nquota == old(nquota) && nquotaUb == old(nquotaUb) && burst == old(burst) && period == old(period)
      ensures runtimeLast == old(runtimeLast) && attention == (old(throttled) || throttled || backlogged)
      ensures old(nquotaUb) == INF ==>
        budget == old(budget) && burstRemaining == old(burstRemaining) && periodStart == old(periodStart) && !throttled
      ensures old(nquotaUb) != INF ==>
        var ended := TimeDelta(now, old(periodStart)) >= period;
        && Purse(budget, burstRemaining) ==
             Replenished(old(Purse(budget, burstRemaining)), Interval(runtimeLast, nquotaUb, ended), nquota, burst)
        && (throttled <==> budget <= 0) && periodStart == if ended then now else old(periodStart)
      ensures old(nquotaUb) != INF && old(burstRemaining) >= 0 ==>
        var ended := TimeDelta(now, old(periodStart)) >= period;
        var unspent, over := nquota - runtimeLast, runtimeLast - old(budget);
        var earned := budget - nquotaUb + if over > 0 then over else 0;
        && (unspent <= 0 ==> earned == 0)
        && (0 <= unspent <= old(burstRemaining) ==> earned == unspent)
        && (unspent >= old(burstRemaining) ==> earned == old(burstRemaining))
        && burstRemaining == if ended then burst else old(burstRemaining) - earned
    {
      var keep := false;
      if nquotaUb != INF {
        var periodEnd := TimeDelta(now, periodStart) >= period;
        if periodEnd {
          periodStart := now;
        }
        var debt := Max(runtimeLast - budget, 0);
        var credit := Clamp(nquota - runtimeLast, 0, burstRemaining);
        if periodEnd {
          burstRemaining := burst;
        } else {
          burstRemaining := burstRemaining - credit;
        }
        budget := nquotaUb + credit - debt;
        keep := budget <= 0;
      }
      attention := throttled || keep || backlogged;
      throttled := keep;
    }
  }
}
