/**
 * The `Trade` record of the challenge plan and the invariants the rest of the
 * model states about a list of trades.
 */
module Trades {

  /** One step of the challenge: the balance it starts from, the profit it aims
      for, whether the user marked it completed, and a free-text note. */
  datatype Trade = Trade(equity: real, profitTarget: real, achieved: bool, notes: string)

  /** The `achieved` flags form a prefix of `true` values: no completed trade
      follows an open one. */
  predicate AchievedPrefix(ts: seq<Trade>)
  {
    forall i, j :: 0 <= i < j < |ts| && ts[j].achieved ==> ts[i].achieved
  }

  /** Every trade starts from the balance the previous one ends with. */
  predicate Chained(ts: seq<Trade>)
  {
    forall i :: 0 <= i < |ts| - 1 ==> ts[i + 1].equity == ts[i].equity + ts[i].profitTarget
  }

  /** `ts` has the amounts of `plan`, whatever its flags and notes. */
  predicate SamePlan(ts: seq<Trade>, plan: seq<Trade>)
  {
    |ts| == |plan| &&
    forall i :: 0 <= i < |ts| ==> ts[i].equity == plan[i].equity && ts[i].profitTarget == plan[i].profitTarget
  }

  /** Along a chained list whose profit targets are not negative, balances never fall. */
  lemma {:induction false} ChainedNondecreasing(ts: seq<Trade>, i: nat, j: nat)
    requires Chained(ts)
    requires forall k :: 0 <= k < |ts| ==> ts[k].profitTarget >= 0.0
    requires i <= j < |ts|
    ensures ts[i].equity <= ts[j].equity
    decreases j - i
  {
    if i < j {
      ChainedNondecreasing(ts, i, j - 1);
      assert ts[j].equity == ts[j - 1].equity + ts[j - 1].profitTarget;
    }
  }
}
