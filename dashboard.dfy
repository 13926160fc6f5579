/**
 * The dashboard's metrics, derived from the trade list on every render, and
 * its reset button.
 */
module Dashboard {
  import opened Wrappers
  import opened Trades
  import opened TradeCalculator
  import opened App
  import opened TradeTable

  /** The number of trades marked completed (the list filtered on `achieved`). */
  function CompletedTrades(ts: seq<Trade>): (r: nat)
    ensures r <= |ts|
    ensures r == 0 <==> forall i :: 0 <= i < |ts| ==> !ts[i].achieved
    ensures r == |ts| <==> forall i :: 0 <= i < |ts| ==> ts[i].achieved
  {
    if ts == [] then 0
    else (if ts[0].achieved then 1 else 0) + CompletedTrades(ts[1..])
  }

  /** No trade after `j` is marked completed. */
  predicate NoneCompletedAfter(ts: seq<Trade>, j: int)
  {
    forall i :: 0 <= i < |ts| && j < i ==> !ts[i].achieved
  }

  /** The reduction behind the current equity: walking the list from the
      front, `latest` becomes the balance of each completed trade met. */
  function LatestAchieved(ts: seq<Trade>, latest: real): (r: real)
    ensures NoneCompletedAfter(ts, -1) ==> r == latest
    ensures forall j :: 0 <= j < |ts| && ts[j].achieved && NoneCompletedAfter(ts, j) ==> r == ts[j].equity
    ensures r == latest || exists j :: 0 <= j < |ts| && ts[j].achieved && r == ts[j].equity
  {
    if ts == [] then latest
    else LatestAchieved(ts[1..], if ts[0].achieved then ts[0].equity else latest)
  }

  /** The balance of the last completed trade, or the first trade's balance
      when none is completed. */
  function CurrentEquity(ts: seq<Trade>): (r: real)
    requires |ts| > 0
    ensures NoneCompletedAfter(ts, -1) ==> r == ts[0].equity
    ensures forall j :: 0 <= j < |ts| && ts[j].achieved && NoneCompletedAfter(ts, j) ==> r == ts[j].equity
  {
    LatestAchieved(ts, ts[0].equity)
  }

  /** The first trade's balance: what the current equity shows while no
      trade is completed. */
  function StartingEquity(ts: seq<Trade>): (r: real)
    requires |ts| > 0
    ensures CompletedTrades(ts) == 0 ==> r == CurrentEquity(ts)
  {
    assert CompletedTrades(ts) == 0 ==> NoneCompletedAfter(ts, -1);
    ts[0].equity
  }

  /** The profit so far: what the start must gain to reach the current equity. */
  function TotalProfit(ts: seq<Trade>): (r: real)
    requires |ts| > 0
    ensures StartingEquity(ts) + r == CurrentEquity(ts)
    ensures CompletedTrades(ts) == 0 ==> r == 0.0
  {
    CurrentEquity(ts) - StartingEquity(ts)
  }

  /** The profit as a percentage of the start: from a positive start it is
      positive exactly when the current equity is above the start, and it is
      zero when there is no profit. */
  function ProfitPercentage(ts: seq<Trade>): (r: real)
    requires |ts| > 0 && StartingEquity(ts) != 0.0
    ensures StartingEquity(ts) > 0.0 ==> (r > 0.0 <==> CurrentEquity(ts) > StartingEquity(ts))
    ensures TotalProfit(ts) == 0.0 ==> r == 0.0
  {
    PercentageSign(TotalProfit(ts), StartingEquity(ts));
    TotalProfit(ts) / StartingEquity(ts) * 100.0
  }

  /** The goal is the balance the last trade starts from; once every trade is
      completed, the current equity has reached it. */
  function GoalAmount(ts: seq<Trade>): (r: real)
    requires |ts| > 0
    ensures CompletedTrades(ts) == |ts| ==> r == CurrentEquity(ts)
  {
    assert CompletedTrades(ts) == |ts| ==> ts[|ts| - 1].achieved && NoneCompletedAfter(ts, |ts| - 1);
    ts[|ts| - 1].equity
  }

  /** The current equity as a percentage of the goal: 100 once every trade is
      completed, and in (0, 100] while a positive current equity has not
      passed the goal. */
  function ProgressPercentage(ts: seq<Trade>): (r: real)
    requires |ts| > 0 && GoalAmount(ts) != 0.0
    ensures CompletedTrades(ts) == |ts| ==> r == 100.0
    ensures 0.0 < CurrentEquity(ts) <= GoalAmount(ts) ==> 0.0 < r <= 100.0
  {
    Ratio(CurrentEquity(ts), GoalAmount(ts));
    CurrentEquity(ts) / GoalAmount(ts) * 100.0
  }

  /** A part over a positive whole is a positive percentage exactly when the
      part is positive. */
  lemma PercentageSign(part: real, whole: real)
    ensures whole > 0.0 ==> (part / whole * 100.0 > 0.0 <==> part > 0.0)
    ensures part == 0.0 && whole != 0.0 ==> part / whole * 100.0 == 0.0
  {
    if whole > 0.0 && part > 0.0 {
      assert part / whole > 0.0;
    }
  }

  /** A positive amount over a larger one is a ratio in (0, 1]; an amount over
      itself is the whole. */
  lemma Ratio(c: real, g: real)
    ensures 0.0 < c <= g ==> 0.0 < c / g * 100.0 <= 100.0
    ensures c == g != 0.0 ==> c / g * 100.0 == 100.0
  {
  }

  /** The "current trade" panel: the trade at position `CompletedTrades`, or
      nothing once every trade is completed; it shows a trade exactly when
      some trade is still open. */
  function NextTrade(ts: seq<Trade>): (r: Option<Trade>)
    ensures r.Some? <==> exists i :: 0 <= i < |ts| && !ts[i].achieved
    ensures r.Some? ==> r.value == ts[CompletedTrades(ts)]
  {
    var k := CompletedTrades(ts);
    if k < |ts| then Some(ts[k]) else None
  }

  /** The panel's "after successful trade" balance: the balance a chained
      trade after `t` starts from, never below `t`'s own for a non-negative
      target. */
  function AfterSuccessfulTrade(t: Trade): (r: real)
    ensures Chained([t, t.(equity := r)])
    ensures t.profitTarget >= 0.0 ==> r >= t.equity
  {
    t.equity + t.profitTarget
  }

  /** On a prefix-shaped list, trade `i` is completed exactly when it comes
      before the count of completed trades. */
  lemma {:induction false} PrefixCount(ts: seq<Trade>)
    requires AchievedPrefix(ts)
    ensures forall i :: 0 <= i < |ts| ==> (ts[i].achieved <==> i < CompletedTrades(ts))
  {
    if ts != [] {
      var tail := ts[1..];
      assert AchievedPrefix(tail) by {
        forall i, j | 0 <= i < j < |tail| && tail[j].achieved
          ensures tail[i].achieved
        {
          assert ts[j + 1].achieved;
        }
      }
      PrefixCount(tail);
      forall i | 0 <= i < |ts|
        ensures ts[i].achieved <==> i < CompletedTrades(ts)
      {
        if i > 0 {
          assert ts[i] == tail[i - 1];
        }
      }
    }
  }

  /** With `k >= 1` trades completed in order, the current equity is the
      balance trade `k - 1` started from. */
  lemma CurrentEquityUnderPrefix(ts: seq<Trade>)
    requires AchievedPrefix(ts)
    requires CompletedTrades(ts) >= 1
    ensures CurrentEquity(ts) == ts[CompletedTrades(ts) - 1].equity
  {
    PrefixCount(ts);
    var k := CompletedTrades(ts);
    assert ts[k - 1].achieved && NoneCompletedAfter(ts, k - 1);
  }

  /** With nothing completed there is no profit: the current equity is the start. */
  lemma NothingCompletedNoProfit(ts: seq<Trade>)
    requires |ts| > 0
    requires CompletedTrades(ts) == 0
    ensures CurrentEquity(ts) == StartingEquity(ts)
    ensures TotalProfit(ts) == 0.0
    ensures StartingEquity(ts) != 0.0 ==> ProfitPercentage(ts) == 0.0
  {
    assert NoneCompletedAfter(ts, -1);
    assert TotalProfit(ts) == 0.0;
  }

  /** On a prefix-shaped list the panel shows the first open trade, and shows
      nothing only when every trade is completed. */
  lemma NextTradeIsFirstOpen(ts: seq<Trade>)
    requires AchievedPrefix(ts)
    ensures NextTrade(ts) == None <==> forall i :: 0 <= i < |ts| ==> ts[i].achieved
    ensures NextTrade(ts).Some? ==>
      var k := CompletedTrades(ts);
      k < |ts| && NextTrade(ts).value == ts[k] && !ts[k].achieved &&
      forall i :: 0 <= i < k ==> ts[i].achieved
  {
    PrefixCount(ts);
  }

  /** On a prefix-shaped list, the table highlights row `i` as the next trade
      exactly when `i` is the panel's next trade and some trade is completed;
      so at most one row is highlighted. */
  lemma NextRowIsNextTrade(ts: seq<Trade>, i: nat)
    requires AchievedPrefix(ts)
    requires i < |ts|
    ensures IsNextRow(ts, i) <==> 0 < i == CompletedTrades(ts)
  {
    PrefixCount(ts);
  }

  /** On a chained list, the balance after a successful next trade is the
      balance the following trade starts from. */
  lemma AfterSuccessIsFollowingEquity(ts: seq<Trade>)
    requires Chained(ts)
    requires CompletedTrades(ts) + 1 < |ts|
    ensures NextTrade(ts).Some?
    ensures AfterSuccessfulTrade(NextTrade(ts).value) == ts[CompletedTrades(ts) + 1].equity
  {
  }

  /** For a list with a plan's amounts and `k >= 1` trades completed in
      order, the current equity is the balance of plan record `k - 1`. */
  lemma CurrentEquityFromPlan(ts: seq<Trade>, plan: seq<Trade>)
    requires SamePlan(ts, plan)
    requires AchievedPrefix(ts)
    requires CompletedTrades(ts) >= 1
    ensures CurrentEquity(ts) == plan[CompletedTrades(ts) - 1].equity
  {
    var k := CompletedTrades(ts);
    CurrentEquityUnderPrefix(ts);
    assert ts[k - 1].equity == plan[k - 1].equity;
  }

  /** For a list with a plan's amounts, the goal is the balance of the
      plan's last record. */
  lemma GoalFromPlan(ts: seq<Trade>, plan: seq<Trade>)
    requires SamePlan(ts, plan)
    requires |ts| > 0
    ensures GoalAmount(ts) == plan[|plan| - 1].equity
  {
  }

  /** For a list with a generated plan's amounts (fresh, or after any edits),
      with `k >= 1` trades completed in order, the current equity is the
      balance the generator reached after `k - 1` steps (in closed form, the
      start grown by `1 + pct` that many times: `EquityClosedForm`). */
  lemma {:induction false} PlannedCurrentEquity(ts: seq<Trade>, start: real, n: nat, pct: real)
    requires SamePlan(ts, Planned(start, n, pct))
    requires AchievedPrefix(ts)
    requires CompletedTrades(ts) >= 1
    ensures CurrentEquity(ts) == EquityAt(start, pct, CompletedTrades(ts) - 1)
  {
    CurrentEquityFromPlan(ts, Planned(start, n, pct));
    PlannedEquity(start, n, pct, CompletedTrades(ts) - 1);
  }

  /** For a non-empty list with a generated plan's amounts, the goal is the
      balance the generator reached after `n - 1` steps. */
  lemma {:induction false} PlannedGoal(ts: seq<Trade>, start: real, n: nat, pct: real)
    requires SamePlan(ts, Planned(start, n, pct))
    requires n > 0
    ensures GoalAmount(ts) == EquityAt(start, pct, n - 1)
  {
    GoalFromPlan(ts, Planned(start, n, pct));
    PlannedEquity(start, n, pct, n - 1);
  }

  /** The worked example: on the default plan, after the first five trades are
      completed, the current equity is 20 * 1.2^4 = 41.472. */
  lemma DefaultPlanAfterFiveTrades(ts: seq<Trade>)
    requires SamePlan(ts, Planned(DefaultStart, DefaultCount, DefaultPercentage))
    requires AchievedPrefix(ts)
    requires CompletedTrades(ts) == 5
    ensures CurrentEquity(ts) == 41.472
  {
    PlannedCurrentEquity(ts, DefaultStart, DefaultCount, DefaultPercentage);
    DefaultEquityAfterFourSteps();
  }

  /** The current equity is never above the goal when balances never fall:
      the progress lies in (0, 100]. */
  lemma ProgressBounded(ts: seq<Trade>)
    requires |ts| > 0
    requires Chained(ts)
    requires forall k :: 0 <= k < |ts| ==> ts[k].profitTarget >= 0.0
    requires StartingEquity(ts) > 0.0
    ensures GoalAmount(ts) > 0.0
    ensures 0.0 < ProgressPercentage(ts) <= 100.0
  {
    var last := |ts| - 1;
    ChainedNondecreasing(ts, 0, last);
    var c := CurrentEquity(ts);
    if c != ts[0].equity {
      var j :| 0 <= j < |ts| && ts[j].achieved && c == ts[j].equity;
      ChainedNondecreasing(ts, 0, j);
      ChainedNondecreasing(ts, j, last);
    }
    var g := GoalAmount(ts);
    assert 0.0 < c <= g;
  }

  /** The reset button: after the user confirms, the owner regenerates the
      default plan; without confirmation nothing changes. */
  method ConfirmReset(owner: App, confirmed: bool)
    modifies owner
    ensures confirmed ==> owner.trades == Planned(DefaultStart, DefaultCount, DefaultPercentage)
    ensures confirmed ==> owner.store == Some(owner.trades)
    ensures !confirmed ==> owner.trades == old(owner.trades) && owner.store == old(owner.store)
  {
    if confirmed {
      owner.HandleReset();
    }
  }
}
