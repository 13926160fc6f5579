/**
 * The owner of the trade list: it starts from the saved list or the default
 * plan, replaces one field of one trade per edit, regenerates the plan on
 * reset, and writes the list to its storage slot after every change.
 */
module App {
  import opened Wrappers
  import opened Trades
  import opened TradeCalculator

  /** The default challenge: 30 trades from 20 at 20% each. */
  const DefaultStart: real := 20.0
  const DefaultCount: nat := 30
  const DefaultPercentage: real := 0.2

  /** The field an edit names, with its new value. The table only ever edits
      the notes and the completion flag. */
  datatype FieldValue = Notes(text: string) | Achieved(flag: bool)

  /** A copy of `t` with the one named field replaced. */
  function WithField(t: Trade, v: FieldValue): (r: Trade)
    ensures r.equity == t.equity && r.profitTarget == t.profitTarget
    ensures r.notes == (if v.Notes? then v.text else t.notes)
    ensures r.achieved == (if v.Achieved? then v.flag else t.achieved)
  {
    match v
    case Notes(text) => t.(notes := text)
    case Achieved(flag) => t.(achieved := flag)
  }

  /** The list after editing trade `index`: the same length, the same amounts,
      every other trade as it was; an index outside the list changes nothing. */
  function UpdateTrades(ts: seq<Trade>, index: int, v: FieldValue): (r: seq<Trade>)
    ensures |r| == |ts|
    ensures SamePlan(r, ts)
    ensures forall i :: 0 <= i < |ts| && i != index ==> r[i] == ts[i]
    ensures 0 <= index < |ts| ==> r[index] == WithField(ts[index], v)
  {
    seq(|ts|, i requires 0 <= i < |ts| => if i == index then WithField(ts[i], v) else ts[i])
  }

  /** An edit outside the list leaves it identical. */
  lemma UpdateOutOfRange(ts: seq<Trade>, index: int, v: FieldValue)
    requires index < 0 || index >= |ts|
    ensures UpdateTrades(ts, index, v) == ts
  {
  }

  /** An edit never breaks the chain of balances: amounts are not editable. */
  lemma UpdateKeepsChain(ts: seq<Trade>, index: int, v: FieldValue)
    requires Chained(ts)
    ensures Chained(UpdateTrades(ts, index, v))
  {
  }

  /** Writing a value and reading it back gives that value; writing the value
      already there changes nothing. */
  lemma UpdateReadBack(ts: seq<Trade>, index: int, v: FieldValue)
    requires 0 <= index < |ts|
    ensures UpdateTrades(UpdateTrades(ts, index, v), index, v) == UpdateTrades(ts, index, v)
    ensures v.Achieved? ==> UpdateTrades(ts, index, v)[index].achieved == v.flag
    ensures v.Notes? ==> UpdateTrades(ts, index, v)[index].notes == v.text
  {
  }

  /** The owner of the list: `trades` is the current state, `store` the slot
      of the key-value store that holds the saved list, if any. */
  class App {
    var trades: seq<Trade>
    var store: Option<seq<Trade>>

    /** Start from the saved list when the slot holds one, else from the
        default plan; the first save then writes the list back. */
    constructor (saved: Option<seq<Trade>>)
      ensures trades == if saved.Some? then saved.value else Planned(DefaultStart, DefaultCount, DefaultPercentage)
      ensures store == Some(trades)
    {
      var initial: seq<Trade>;
      if saved.Some? {
        initial := saved.value;
      } else {
        initial := TradeCalculator.TradeCalculator(DefaultStart, DefaultCount, DefaultPercentage);
      }
      trades := initial;
      store := Some(initial);
    }

    /** Replace one field of one trade, then save. */
    method HandleTradeUpdate(tradeIndex: int, v: FieldValue)
      modifies this
      ensures trades == UpdateTrades(old(trades), tradeIndex, v)
      ensures store == Some(trades)
    {
      trades := UpdateTrades(trades, tradeIndex, v);
      store := Some(trades);
    }

    /** Regenerate the default plan, whatever the state was, then save. */
    method HandleReset()
      modifies this
      ensures trades == Planned(DefaultStart, DefaultCount, DefaultPercentage)
      ensures store == Some(trades)
    {
      trades := TradeCalculator.TradeCalculator(DefaultStart, DefaultCount, DefaultPercentage);
      store := Some(trades);
    }
  }
}
