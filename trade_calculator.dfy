/**
 * The progression generator: a loop that builds the list of trades from a
 * starting amount, a number of trades and a per-trade target percentage.
 */
module TradeCalculator {
  import opened Trades

  /** `x` raised to the power `n`. */
  function Pow(x: real, n: nat): real
  {
    if n == 0 then 1.0 else x * Pow(x, n - 1)
  }

  /** The running `currentEquity` of the generator before its `i`-th step: the
      recurrence the loop computes, one addition of `equity * pct` per step.
      With a zero percentage the balance never moves. */
  function EquityAt(start: real, pct: real, i: nat): (r: real)
    ensures pct == 0.0 ==> r == start
  {
    if i == 0 then start else EquityAt(start, pct, i - 1) + EquityAt(start, pct, i - 1) * pct
  }

  /** The record the generator pushes at step `i`. */
  function TradeAt(start: real, pct: real, i: nat): Trade
  {
    Trade(EquityAt(start, pct, i), EquityAt(start, pct, i) * pct, false, "")
  }

  /** The plan the generator returns for `n` steps. */
  function Planned(start: real, n: nat, pct: real): (r: seq<Trade>)
    ensures |r| == n
    ensures n > 0 ==> r[0].equity == start
    ensures forall i :: 0 <= i < n ==>
      r[i].profitTarget == r[i].equity * pct && !r[i].achieved && r[i].notes == ""
    ensures Chained(r)
    ensures AchievedPrefix(r)
  {
    seq(n, i requires 0 <= i => TradeAt(start, pct, i))
  }

  /** Record `i` of the plan starts from the generator's balance after `i` steps. */
  lemma PlannedEquity(start: real, n: nat, pct: real, i: nat)
    requires i < n
    ensures Planned(start, n, pct)[i].equity == EquityAt(start, pct, i)
  {
  }

  /** One more step of the plan appends the record of that step. */
  lemma PlannedGrows(start: real, n: nat, pct: real)
    ensures Planned(start, n + 1, pct) == Planned(start, n, pct) + [TradeAt(start, pct, n)]
  {
  }

  /** The generator itself: the record for step `i` takes the running balance
      and its profit target, then the balance grows by that target. A negative
      count runs the loop zero times. */
  method TradeCalculator(startingAmount: real, numberOfTrades: int, targetPercentage: real)
    returns (trades: seq<Trade>)
    ensures trades == Planned(startingAmount, if numberOfTrades < 0 then 0 else numberOfTrades, targetPercentage)
  {
    trades := [];
    var currentEquity := startingAmount;
    var i := 0;
    while i < numberOfTrades
      invariant 0 <= i <= if numberOfTrades < 0 then 0 else numberOfTrades
      invariant currentEquity == EquityAt(startingAmount, targetPercentage, i)
      invariant trades == Planned(startingAmount, i, targetPercentage)
    {
      var profitTarget := currentEquity * targetPercentage;
      PlannedGrows(startingAmount, i, targetPercentage);
      assert TradeAt(startingAmount, targetPercentage, i) == Trade(currentEquity, profitTarget, false, "");
      trades := trades + [Trade(currentEquity, profitTarget, false, "")];
      currentEquity := currentEquity + profitTarget;
      i := i + 1;
    }
  }

  /** Closed form of the progression: the `i`-th balance is the start grown by
      `1 + pct` exactly `i` times. */
  lemma {:induction false} EquityClosedForm(start: real, pct: real, i: nat)
    ensures EquityAt(start, pct, i) == start * Pow(1.0 + pct, i)
  {
    if i == 0 {
      assert Pow(1.0 + pct, 0) == 1.0;
    } else {
      EquityClosedForm(start, pct, i - 1);
      CompoundStep(EquityAt(start, pct, i - 1), start, Pow(1.0 + pct, i - 1), pct);
    }
  }

  /** One step of the recurrence on a balance `start * p` multiplies `p` by `1 + pct`. */
  lemma CompoundStep(e: real, start: real, p: real, pct: real)
    requires e == start * p
    ensures e + e * pct == start * ((1.0 + pct) * p)
  {
  }

  /** The default plan's balance after four steps: 20 * 1.2^4. */
  lemma DefaultEquityAfterFourSteps()
    ensures EquityAt(20.0, 0.2, 4) == 41.472
  {
  }

  /** Every planned balance follows the closed form. */
  lemma PlannedClosedForm(start: real, n: nat, pct: real, i: nat)
    requires i < n
    ensures Planned(start, n, pct)[i].equity == start * Pow(1.0 + pct, i)
  {
    EquityClosedForm(start, pct, i);
  }

  /** With a non-negative start and percentage, no planned balance is negative. */
  lemma {:induction false} EquityNonNegative(start: real, pct: real, i: nat)
    requires start >= 0.0 && pct >= 0.0
    ensures EquityAt(start, pct, i) >= 0.0
  {
    if i > 0 {
      EquityNonNegative(start, pct, i - 1);
      var e := EquityAt(start, pct, i - 1);
      assert e * pct >= 0.0;
    }
  }

  /** From a positive start with a positive percentage, every step after the
      first strictly grows the balance. */
  lemma {:induction false} EquityGrows(start: real, pct: real, i: nat)
    requires start > 0.0 && pct > 0.0
    requires i >= 1
    ensures EquityAt(start, pct, i) > start
  {
    var e := EquityAt(start, pct, i - 1);
    if i > 1 {
      EquityGrows(start, pct, i - 1);
    }
    assert e >= start;
    assert e * pct > 0.0;
  }

  /** With a non-negative start and percentage, balances are non-decreasing along the plan. */
  lemma PlannedNondecreasing(start: real, n: nat, pct: real, i: nat, j: nat)
    requires start >= 0.0 && pct >= 0.0
    requires i <= j < n
    ensures Planned(start, n, pct)[i].equity <= Planned(start, n, pct)[j].equity
  {
    var plan := Planned(start, n, pct);
    forall k | 0 <= k < n
      ensures plan[k].profitTarget >= 0.0
    {
      EquityNonNegative(start, pct, k);
    }
    ChainedNondecreasing(plan, i, j);
  }
}
