# Trading-challenge planner, modelled in Dafny

The application plans a compounding trading challenge. It generates a fixed
list of trades from a starting balance, a number of trades and a target
percentage; each trade starts from the balance the previous one ended with
and aims for that balance times the percentage. The user then marks trades
completed, strictly in order, and writes notes against them. The dashboard
derives its figures from the list on every render: completed count, current
equity, profit, goal, progress, average daily growth, the progress blocks and
the chart rows.

The model follows the source file by file, one Dafny module each:

- `TradeCalculator` (`lib/tradeCalculator.ts`): the generator is a `method`
  with the source's loop, proved equal to the specification `Planned`. The
  properties of the plan are lemmas about `Planned` and the recurrence
  `EquityAt`: its length, first balance, profit targets, chain, closed form
  and monotonicity.
- `App` (`App.tsx`): the owner of the list is a class. Its `trades` field is
  the state and its `store` field is the storage slot. The single-field edit
  is the pure function `UpdateTrades`. Reset and the initial
  load-or-default state call the generator.
- `TradeTable` (`components/TradeTable.tsx`): the sequential-completion
  policy is the pure function `Decide`, built on `CanComplete` and
  `LaterTradeCompleted`. The table's handlers are methods of a class that
  holds the note editor's state and the owning `App`, which receives the
  table's `onTradeUpdate` calls.
- `Dashboard`, `TradeSummary`, `TradeProgress`, `ProgressChart`: the derived
  metrics, modelled as functions and lemmas.
- `Trades` holds the `Trade` record and the list invariants used across
  modules: `AchievedPrefix` (the completed trades form a prefix), `Chained`
  (each balance is the previous balance plus its target) and `SamePlan` (the
  same amounts, whatever the flags and notes). `Wrappers` holds `Option`.

Amounts are `real`, so the progression and the ratios are exact. The JS
program uses IEEE doubles, so the closed form holds there only up to
rounding.

The central result is `TradeTable.AcceptedIffKeepsPrefix`. On a list whose
completed trades form a prefix, the policy accepts a checkbox change exactly
when the changed list still has that shape. Every accepted or refused toggle
therefore keeps the invariant (`HandleCheckboxChange`). Let `k` be the
completed count and `n` the number of trades. On such a list:

- With `k >= 1`, the dashboard's "current equity" is the balance of trade
  `k - 1` (`CurrentEquityUnderPrefix`). With `k == 0` it is the first
  trade's balance (`NothingCompletedNoProfit`).
- With `k < n`, the "next trade" panel shows trade `k`, the first open one.
  With `k == n` it shows nothing (`NextTradeIsFirstOpen`).
- With `0 < k < n`, the table highlights row `k`. Otherwise no row is
  highlighted: row 0 never is, and with `k == n` every row is completed
  (`NextRowIsNextTrade`).

The current equity is kept exactly as the dashboard computes it. It is the
balance the last completed trade started from, not that balance plus the
trade's profit. The goal is likewise the balance the last trade starts from.
With every trade completed, the progress therefore reads 100% although the
last trade's profit is not counted (`ProgressPercentage`).

Two edge cases of the source are modelled as written:

- A negative count runs the loop at `lib/tradeCalculator.ts:11` zero times
  and gives the empty list. The generator does not demand a non-negative
  count.
- `parseInt` on the tooltip label skips leading white space and reads an
  optional sign.

## Model

| member | source | states |
|---|---|---|
| TradeCalculator.TradeCalculator | project/src/lib/tradeCalculator.ts:3-28 | the loop returns exactly `Planned(start, n, pct)`, which is empty for a count of 0 or less |
| TradeCalculator.Planned | project/src/lib/tradeCalculator.ts:8-27 | the plan has `n` trades. For `n > 0` the first balance is the start. Every target is balance times percentage. Every trade is open with an empty note. The list is chained. Its completed trades (none) form a prefix |
| TradeCalculator.EquityAt | project/src/lib/tradeCalculator.ts:9-24 | the running balance before step `i`. With a zero percentage it never moves from the start |
| TradeCalculator.EquityClosedForm | project/src/lib/tradeCalculator.ts:9-25 | the running balance after `i` steps is `start * (1 + pct)^i` |
| TradeCalculator.PlannedEquity | project/src/lib/tradeCalculator.ts:9-25 | trade `i` of the plan starts from the running balance after `i` steps |
| TradeCalculator.PlannedClosedForm | project/src/lib/tradeCalculator.ts:9-25 | trade `i` of the plan starts from `start * (1 + pct)^i` |
| TradeCalculator.DefaultEquityAfterFourSteps | project/src/lib/tradeCalculator.ts:9-25 | in the default plan (20, 20%), the balance after four steps is 41.472 |
| TradeCalculator.EquityNonNegative | project/src/lib/tradeCalculator.ts:13-24 | with a non-negative start and percentage, no balance is negative |
| TradeCalculator.EquityGrows | project/src/lib/tradeCalculator.ts:13-24 | with a positive start and percentage, every balance after the first exceeds the start |
| TradeCalculator.PlannedNondecreasing | project/src/lib/tradeCalculator.ts:13-24 | with a non-negative start and percentage, balances never fall along the plan |
| Trades.ChainedNondecreasing | project/src/lib/tradeCalculator.ts:13-24 | in a chained list with non-negative targets, an earlier balance is never above a later one |
| App.WithField | project/src/App.tsx:21 | the edited copy keeps both amounts. It changes only the named field, to the given value |
| App.UpdateTrades | project/src/App.tsx:20-22 | the result has the same length and the same amounts. Every trade other than `tradeIndex` is unchanged. Trade `tradeIndex` gets the new field |
| App.UpdateOutOfRange | project/src/App.tsx:20-22 | an index outside the list leaves it identical |
| App.UpdateKeepsChain | project/src/App.tsx:19-23 | an edit keeps a chained list chained |
| App.UpdateReadBack | project/src/App.tsx:21 | the edited field reads back as the written value. Repeating the same edit changes nothing |
| App.App.constructor | project/src/App.tsx:9-17 | the initial list is the saved one when the slot holds one, else `Planned(20, 30, 0.2)`. The slot then holds the list |
| App.App.HandleTradeUpdate | project/src/App.tsx:15-23 | the new list is `UpdateTrades` of the old one. The slot then holds the new list |
| App.App.HandleReset | project/src/App.tsx:25-27 | whatever the prior state, the list becomes `Planned(20, 30, 0.2)` and the slot holds it |
| TradeTable.AcceptedIffKeepsPrefix | project/src/components/TradeTable.tsx:30-52 | on a list whose completed trades form a prefix, a checkbox change is accepted if and only if the updated list is still a prefix |
| TradeTable.ToggleKeepsPrefix | project/src/components/TradeTable.tsx:30-52 | a checkbox change keeps the completed trades a prefix, whether it is accepted or refused |
| TradeTable.CanComplete | project/src/components/TradeTable.tsx:34 | checking trade `index` is allowed for the first trade or after a completed one. On a prefix-shaped list this means every earlier trade is completed |
| TradeTable.LaterTradeCompleted | project/src/components/TradeTable.tsx:41 | some later trade is completed. On a prefix-shaped list this is the case exactly when the trade right after `index` is completed |
| TradeTable.Decide | project/src/components/TradeTable.tsx:32-48 | "complete previous first" is answered exactly to checking a trade after an open one. "Un-complete later first" is answered exactly to unchecking with a completed later trade. On a prefix-shaped list, setting a flag to its current value is always accepted |
| TradeTable.AfterToggle | project/src/components/TradeTable.tsx:32-48 | the list keeps its length, amounts, notes and every other trade. The flag of trade `index` becomes `isChecked` when accepted and stays as it was when refused |
| TradeTable.IsNextRow | project/src/components/TradeTable.tsx:72 | a highlighted row is open, and checking it would be accepted |
| TradeTable.TradeTable.constructor | project/src/components/TradeTable.tsx:16-17 | the table starts with no note editor open and empty editor text |
| TradeTable.TradeTable.HandleNoteEdit | project/src/components/TradeTable.tsx:19-22 | opens the editor on row `index` with the given text. The caller passes the row's note |
| TradeTable.TradeTable.HandleNoteCancel | project/src/components/TradeTable.tsx:111 | cancelling closes the editor and keeps its text |
| TradeTable.TradeTable.HandleNoteSave | project/src/components/TradeTable.tsx:24-28 | only the `notes` field of trade `index` changes, to the editor's text. The slot is saved. The editor closes |
| TradeTable.TradeTable.HandleCheckboxChange | project/src/components/TradeTable.tsx:30-52 | the verdict is `Decide`. Checking needs the first trade or a completed predecessor. Unchecking needs no completed later trade. An accepted change sets exactly `achieved` of trade `index` and saves. A refused one changes neither list nor slot. The prefix invariant is kept |
| Dashboard.CompletedTrades | project/src/components/Dashboard.tsx:27 | the count is at most the length. It is 0 exactly when no trade is completed and the length exactly when all are |
| Dashboard.LatestAchieved | project/src/components/Dashboard.tsx:30-31 | the fold yields the initial value when no trade is completed, and the balance of the last completed trade otherwise |
| Dashboard.CurrentEquity | project/src/components/Dashboard.tsx:30-31 | the first trade's balance when no trade is completed. Otherwise it is the balance of the last completed trade |
| Dashboard.StartingEquity | project/src/components/Dashboard.tsx:34 | the first balance, which is what the current equity shows while no trade is completed |
| Dashboard.TotalProfit | project/src/components/Dashboard.tsx:35 | the start plus the profit is the current equity. With nothing completed the profit is 0 |
| Dashboard.ProfitPercentage | project/src/components/Dashboard.tsx:36 | from a positive start it is positive exactly when the current equity is above the start. It is 0 when there is no profit |
| Dashboard.GoalAmount | project/src/components/Dashboard.tsx:39 | the last trade's balance, which the current equity reaches once every trade is completed |
| Dashboard.ProgressPercentage | project/src/components/Dashboard.tsx:42 | it is 100 once every trade is completed. It lies in (0, 100] while a positive current equity is at most the goal |
| Dashboard.NextTrade | project/src/components/Dashboard.tsx:142-151 | the panel shows a trade exactly when some trade is open, and the trade it shows is `trades[completedTrades]` |
| Dashboard.AfterSuccessfulTrade | project/src/components/Dashboard.tsx:156 | the value is the balance a trade chained after this one starts from. For a non-negative target it is not below this trade's balance |
| Dashboard.PrefixCount | project/src/components/Dashboard.tsx:27 | on a prefix-shaped list, trade `i` is completed exactly when `i` is below the completed count |
| Dashboard.CurrentEquityUnderPrefix | project/src/components/Dashboard.tsx:27-31 | with `k >= 1` trades completed in order, the current equity is `trades[k-1].equity` |
| Dashboard.NothingCompletedNoProfit | project/src/components/Dashboard.tsx:30-36 | with nothing completed, the current equity is the first balance and profit and profit percentage are 0 |
| Dashboard.NextTradeIsFirstOpen | project/src/components/Dashboard.tsx:142-151 | on a prefix-shaped list the panel shows nothing exactly when all trades are completed. Otherwise it shows `trades[k]`, which is in bounds, open, and preceded only by completed trades |
| Dashboard.NextRowIsNextTrade | project/src/components/TradeTable.tsx:72 | on a prefix-shaped list, row `i` is highlighted as next exactly when `0 < i == k`, so at most one row is highlighted |
| Dashboard.AfterSuccessIsFollowingEquity | project/src/components/Dashboard.tsx:156 | on a chained list, the "after successful trade" value of the next trade equals the starting balance of the trade after it |
| Dashboard.PlannedCurrentEquity | project/src/components/Dashboard.tsx:27-31 | on a generated plan, however edited, with `k >= 1` completed in order, the current equity is the generator's balance after `k - 1` steps |
| Dashboard.PlannedGoal | project/src/components/Dashboard.tsx:38-39 | on a non-empty generated plan, however edited, the goal is the generator's balance after `n - 1` steps |
| Dashboard.DefaultPlanAfterFiveTrades | project/src/components/Dashboard.tsx:30-31 | on the default plan, after the first five trades, the current equity is 41.472 |
| Dashboard.ProgressBounded | project/src/components/Dashboard.tsx:39-42 | on a chained list with a positive start and non-negative targets, the goal is positive and the progress lies in (0, 100] |
| Dashboard.ConfirmReset | project/src/components/Dashboard.tsx:44-49 | a confirmed reset regenerates the default plan. An unconfirmed one changes nothing |
| TradeSummary.AvgDailyProfit | project/src/components/TradeSummary.tsx:22-24 | with `days > 0` the average times the days gives the profit percentage. Otherwise the average is 0 |
| TradeSummary.RemainingAmount | project/src/components/TradeSummary.tsx:27 | the current amount plus the remainder is the target |
| TradeSummary.EstimatedDaysLeft | project/src/components/TradeSummary.tsx:30-32 | the estimate is "N/A" if and only if the average growth is not positive. Otherwise the daily growth factor exceeds 1 |
| TradeSummary.SummaryEstimate | project/src/components/Dashboard.tsx:126-133 | as fed from the dashboard, an estimate is given exactly when some trade is completed and the profit percentage is positive. It runs from the current equity to the goal |
| TradeSummary.NoEstimateBeforeFirstTrade | project/src/components/TradeSummary.tsx:22-32 | before any trade is completed the average is 0, the estimate is "N/A" and the remainder is the goal minus the start |
| TradeSummary.EstimateGivenAfterGrowth | project/src/components/TradeSummary.tsx:22-32 | on a plan with a positive start and percentage, with two or more trades completed in order, an estimate is given |
| TradeSummary.PlanGrowth | project/src/components/Dashboard.tsx:30-34 | on such a plan with two or more completed, the start is the plan's start and the current equity exceeds it |
| TradeSummary.ProfitGivesEstimate | project/src/components/TradeSummary.tsx:22-32 | a current equity above a positive start, with at least one completed day, yields an estimate |
| TradeSummary.PositiveAverage | project/src/components/TradeSummary.tsx:22-24 | over a positive number of days, the daily average is positive exactly when the profit percentage is |
| TradeProgress.TradeBlocks | project/src/components/TradeProgress.tsx:16-22 | there is one block per trade. Block `i` is completed if and only if `i < completedTrades` |
| TradeProgress.CompletedBlocks | project/src/components/TradeProgress.tsx:16-22 | the number of completed blocks is `min(max(completedTrades, 0), totalTrades)` |
| TradeProgress.Slice | project/src/components/TradeProgress.tsx:43 | `slice` clamps to the length, and element `i` of a slice is element `start + i` of the source |
| TradeProgress.Rows | project/src/components/TradeProgress.tsx:43-61 | there are three rows of at most ten blocks. Position `i` of row `k` is block `10k + i` |
| TradeProgress.RowsCoverFirstThirty | project/src/components/TradeProgress.tsx:43-65 | the three rows of ten, concatenated, are exactly the first `min(30, n)` blocks, so they are disjoint and cover them |
| ProgressChart.NatToString | project/src/components/ProgressChart.tsx:12 | the decimal form is a non-empty run of digits whose value is the number. It has no leading zero except for 0 itself |
| ProgressChart.ChartData | project/src/components/ProgressChart.tsx:11-15 | there is one row per trade, with label "Day i+1" and that trade's balance and flag |
| ProgressChart.DayLabel | project/src/components/ProgressChart.tsx:12 | the label is "Day " followed by digits whose value is `i + 1` |
| ProgressChart.Split | project/src/components/ProgressChart.tsx:23 | `split` always yields at least one piece, and no piece holds the separator |
| ProgressChart.SplitJoin | project/src/components/ProgressChart.tsx:23 | joining the pieces of a split with the separator gives back the string |
| ProgressChart.TrimStart | project/src/components/ProgressChart.tsx:23 | `parseInt`'s white-space skip drops only white space, from the front, and leaves a suffix that does not start with white space |
| ProgressChart.LeadingDigits | project/src/components/ProgressChart.tsx:23 | `parseInt`'s digit run is the longest all-digit prefix of the input: the character after it, if any, is not a digit |
| ProgressChart.ParseInt | project/src/components/ProgressChart.tsx:23 | a string of digits reads as its value. A string with no digit reads as `NaN`, here `None` |
| ProgressChart.SplitDayLabel | project/src/components/ProgressChart.tsx:12 | splitting "Day N" on a space gives exactly "Day" and the digits of N |
| ProgressChart.TooltipIndex | project/src/components/ProgressChart.tsx:23 | a label without a space has no second word, so it gives no index |
| ProgressChart.TooltipTarget | project/src/components/ProgressChart.tsx:23 | a target is shown exactly when the label gives an index inside the list, and it is that trade's target. A label without a space shows none |
| ProgressChart.ParseIntOfNat | project/src/components/ProgressChart.tsx:23 | `parseInt` reads back the decimal form of any whole number |
| ProgressChart.TooltipRoundTrip | project/src/components/ProgressChart.tsx:23 | for every row, the tooltip recovers that row's index from its label. The index is inside the list and the target shown is that trade's |

## Left out

- Rendering, JSX layout and React hooks are left out, as are the table/chart view toggle, the tabs, the toasts and the `confirm` dialog. The dialog's answer is the `confirmed` parameter of `ConfirmReset`. A toast's message is represented by the `Verdict` a checkbox change returns.
- localStorage and JSON (de)serialisation are left out: the slot is the field `store: Option<seq<Trade>>`. The source treats an empty stored string as absent and parses stored text without checks; neither is modelled.
- The `Math.log`/`Math.ceil` days estimate is left out as transcendental floating point. `EstimatedDaysLeft` keeps the "N/A" guard and returns the operands the formula would use.
- `toFixed` formatting is left out, and so is IEEE-754 rounding: amounts are exact `real`s.
- TradeCalculator.TradeCalculator: the count is an `int`, so a fractional count (which would run the JS loop up to its ceiling) is not modelled.
- Dashboard metrics on an empty list or with a zero start or goal are preconditions (`|ts| > 0`, non-zero start for `ProfitPercentage`, non-zero goal for `ProgressPercentage`). The source does not guard these, and in JS they give `NaN`, `±Infinity` or a `TypeError`.
- The dynamic `[field]` key is the two-case `FieldValue` (`Notes`, `Achieved`), the only fields the table edits.
- ProgressChart.TooltipTarget: for a parsed index outside the list the source reads `.profitTarget` of `undefined` and throws a `TypeError`; the model returns `None` instead. `TooltipRoundTrip` shows that labels the chart produces never reach this case.
- ProgressChart.ParseIntOfNat: `parseInt` is modelled for ASCII white space, a sign and decimal digits only. A `0x` prefix, Unicode white space and values past 2^53 are not modelled; labels produced by the chart never contain them.
- Dashboard.PlannedCurrentEquity: states the current equity through the recurrence `EquityAt`. The power form is `EquityClosedForm`, applied separately. The same holds for `Dashboard.PlannedGoal`.
- `StatsCards.tsx` and `Header.tsx` only redisplay values or static markup, and are not part of this model; the recharts chart configuration is not modelled either.
- The row-text change handler (`setEditingText` on input) is not modelled: it only sets `editingText`, which `HandleNoteEdit` already covers.
