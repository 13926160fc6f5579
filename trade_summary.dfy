/**
 * The summary card: average growth per completed day, the amount still to
 * make, and whether an estimate of the days left can be given.
 */
module TradeSummary {
  import opened Trades
  import opened TradeCalculator
  import opened Dashboard

  /** Average profit percentage per completed day; zero before any day is completed. */
  function AvgDailyProfit(profitPercentage: real, daysCompleted: int): (r: real)
    ensures daysCompleted > 0 ==> r * daysCompleted as real == profitPercentage
    ensures daysCompleted <= 0 ==> r == 0.0
  {
    if daysCompleted > 0 then profitPercentage / daysCompleted as real else 0.0
  }

  /** What is still to be gained to reach the target. */
  function RemainingAmount(targetAmount: real, currentAmount: real): (r: real)
    ensures currentAmount + r == targetAmount
  {
    targetAmount - currentAmount
  }

  /** The days-left estimate: not applicable without positive growth;
      otherwise the operands of the logarithmic estimate, the ratio still to
      grow (target over current) and the growth factor per day. */
  datatype DaysLeft = NotApplicable | Estimated(target: real, current: real, dailyGrowth: real)

  function EstimatedDaysLeft(avgDailyProfit: real, targetAmount: real, currentAmount: real): (r: DaysLeft)
    ensures r == NotApplicable <==> avgDailyProfit <= 0.0
    ensures r.Estimated? ==> r.dailyGrowth > 1.0 && r.target == targetAmount && r.current == currentAmount
  {
    if avgDailyProfit > 0.0 then Estimated(targetAmount, currentAmount, 1.0 + avgDailyProfit / 100.0)
    else NotApplicable
  }

  /** The summary of a trade list as the dashboard feeds it: an estimate is
      given exactly when some trade is completed and the profit is positive,
      and it runs from the current equity to the goal. */
  function SummaryEstimate(ts: seq<Trade>): (r: DaysLeft)
    requires |ts| > 0 && StartingEquity(ts) != 0.0
    ensures r.Estimated? <==> CompletedTrades(ts) > 0 && ProfitPercentage(ts) > 0.0
    ensures r.Estimated? ==> r.target == GoalAmount(ts) && r.current == CurrentEquity(ts)
  {
    PositiveAverage(ProfitPercentage(ts), CompletedTrades(ts));
    EstimatedDaysLeft(AvgDailyProfit(ProfitPercentage(ts), CompletedTrades(ts)), GoalAmount(ts), CurrentEquity(ts))
  }

  /** Before any trade is completed there is no average growth and no estimate. */
  lemma NoEstimateBeforeFirstTrade(ts: seq<Trade>)
    requires |ts| > 0 && StartingEquity(ts) != 0.0
    requires CompletedTrades(ts) == 0
    ensures AvgDailyProfit(ProfitPercentage(ts), CompletedTrades(ts)) == 0.0
    ensures SummaryEstimate(ts) == NotApplicable
    ensures RemainingAmount(GoalAmount(ts), CurrentEquity(ts)) == GoalAmount(ts) - StartingEquity(ts)
  {
  }

  /** On a plan from a positive start with a positive percentage, once two or
      more trades are completed in order the average growth is positive, so
      the estimate is given. */
  lemma {:induction false} EstimateGivenAfterGrowth(ts: seq<Trade>, start: real, n: nat, pct: real)
    requires SamePlan(ts, Planned(start, n, pct))
    requires start > 0.0 && pct > 0.0
    requires AchievedPrefix(ts)
    requires CompletedTrades(ts) >= 2
    ensures SummaryEstimate(ts).Estimated?
  {
    PlanGrowth(ts, start, n, pct);
    ProfitGivesEstimate(ts, start);
  }

  /** Completing two or more trades of a growing plan lifts the current equity above the start. */
  lemma {:induction false} PlanGrowth(ts: seq<Trade>, start: real, n: nat, pct: real)
    requires SamePlan(ts, Planned(start, n, pct))
    requires start > 0.0 && pct > 0.0
    requires AchievedPrefix(ts)
    requires CompletedTrades(ts) >= 2
    ensures StartingEquity(ts) == start
    ensures CurrentEquity(ts) > start
  {
    assert ts[0].equity == Planned(start, n, pct)[0].equity;
    PlannedCurrentEquity(ts, start, n, pct);
    EquityGrows(start, pct, CompletedTrades(ts) - 1);
  }

  /** A current equity above a positive start, over at least one completed
      day, gives positive average growth, hence an estimate. */
  lemma ProfitGivesEstimate(ts: seq<Trade>, start: real)
    requires |ts| > 0
    requires 0.0 < start == StartingEquity(ts)
    requires CurrentEquity(ts) > start
    requires CompletedTrades(ts) >= 1
    ensures SummaryEstimate(ts).Estimated?
  {
  }

  /** Over a positive number of days, the average per day is positive exactly
      when the profit percentage is. */
  lemma PositiveAverage(profitPercentage: real, daysCompleted: int)
    ensures daysCompleted > 0 ==> (AvgDailyProfit(profitPercentage, daysCompleted) > 0.0 <==> profitPercentage > 0.0)
  {
  }
}
