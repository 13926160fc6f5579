/**
 * The trade table: the sequential-completion policy for the completion
 * checkboxes, the note editor, and the "next trade" row highlight.
 */
module TradeTable {
  import opened Wrappers
  import opened Trades
  import opened App

  /** What the table answers to a checkbox change: the update goes through,
      or one of the two refusals the user is shown. */
  datatype Verdict = Accepted | MustCompletePrevious | MustUncompleteLater

  /** Trade `index` may be marked completed: it is the first one or the
      previous one is completed. On a prefix-shaped list that is the same as
      every earlier trade being completed. */
  predicate CanComplete(ts: seq<Trade>, index: nat)
    requires index < |ts|
    ensures AchievedPrefix(ts) ==>
      (CanComplete(ts, index) <==> forall i :: 0 <= i < index ==> ts[i].achieved)
  {
    index == 0 || ts[index - 1].achieved
  }

  /** Some trade after `index` is marked completed. On a prefix-shaped list
      it is enough to look at the trade right after `index`. */
  predicate LaterTradeCompleted(ts: seq<Trade>, index: nat)
    ensures AchievedPrefix(ts) ==>
      (LaterTradeCompleted(ts, index) <==> index + 1 < |ts| && ts[index + 1].achieved)
  {
    exists j :: index < j < |ts| && ts[j].achieved
  }

  /** The policy's answer to setting the completion flag of trade `index` to
      `isChecked`. Checking is only ever refused for an open predecessor and
      unchecking only for a completed later trade; on a prefix-shaped list,
      setting a flag to the value it already has is always accepted. */
  function Decide(ts: seq<Trade>, index: nat, isChecked: bool): (r: Verdict)
    requires index < |ts|
    ensures r == MustCompletePrevious <==> isChecked && index > 0 && !ts[index - 1].achieved
    ensures r == MustUncompleteLater <==> !isChecked && LaterTradeCompleted(ts, index)
    ensures AchievedPrefix(ts) && isChecked == ts[index].achieved ==> r == Accepted
  {
    if isChecked then
      if CanComplete(ts, index) then Accepted else MustCompletePrevious
    else
      if LaterTradeCompleted(ts, index) then MustUncompleteLater else Accepted
  }

  /** The list after a checkbox change: the edit when accepted, the same list
      when refused. Only the completion flag of trade `index` can change. */
  function AfterToggle(ts: seq<Trade>, index: nat, isChecked: bool): (r: seq<Trade>)
    requires index < |ts|
    ensures |r| == |ts| && SamePlan(r, ts)
    ensures forall i :: 0 <= i < |ts| && i != index ==> r[i] == ts[i]
    ensures r[index].notes == ts[index].notes
    ensures r[index].achieved == if Decide(ts, index, isChecked) == Accepted then isChecked else ts[index].achieved
  {
    if Decide(ts, index, isChecked) == Accepted then UpdateTrades(ts, index, Achieved(isChecked)) else ts
  }

  /** Row `index` is highlighted as the next trade: still open, right after a
      completed one. A highlighted row is one the user may check. */
  predicate IsNextRow(ts: seq<Trade>, index: nat)
    requires index < |ts|
    ensures IsNextRow(ts, index) ==> !ts[index].achieved && Decide(ts, index, true) == Accepted
  {
    !ts[index].achieved && index > 0 && ts[index - 1].achieved
  }

  /** On a list whose completed trades form a prefix, the policy accepts a
      checkbox change exactly when the changed list still has that shape. */
  lemma AcceptedIffKeepsPrefix(ts: seq<Trade>, index: nat, isChecked: bool)
    requires AchievedPrefix(ts)
    requires index < |ts|
    ensures Decide(ts, index, isChecked) == Accepted <==>
            AchievedPrefix(UpdateTrades(ts, index, Achieved(isChecked)))
  {
  }

  /** A checkbox change, accepted or refused, keeps the completed trades a prefix. */
  lemma ToggleKeepsPrefix(ts: seq<Trade>, index: nat, isChecked: bool)
    requires AchievedPrefix(ts)
    requires index < |ts|
    ensures AchievedPrefix(AfterToggle(ts, index, isChecked))
  {
  }

  /** The table's own state: which row's note is being edited and the text in
      the editor. `owner` receives the table's edits (its `onTradeUpdate`),
      and its list is what the table shows. */
  class TradeTable {
    const owner: App
    var editingNotes: Option<nat>
    var editingText: string

    constructor (owner: App)
      ensures this.owner == owner
      ensures editingNotes == None && editingText == ""
    {
      this.owner := owner;
      editingNotes := None;
      editingText := "";
    }

    /** Open the note editor of row `index` on its current note. */
    method HandleNoteEdit(index: nat, note: string)
      modifies this
      ensures editingNotes == Some(index) && editingText == note
    {
      editingNotes := Some(index);
      editingText := note;
    }

    /** Close the note editor without saving. */
    method HandleNoteCancel()
      modifies this
      ensures editingNotes == None && editingText == old(editingText)
    {
      editingNotes := None;
    }

    /** Save the editor's text as the note of row `index`, then close the editor. */
    method HandleNoteSave(index: nat)
      modifies this, owner
      ensures owner.trades == UpdateTrades(old(owner.trades), index, Notes(old(editingText)))
      ensures owner.store == Some(owner.trades)
      ensures editingNotes == None && editingText == old(editingText)
    {
      owner.HandleTradeUpdate(index, Notes(editingText));
      editingNotes := None;
    }

    /** Set the completion flag of row `index`, refusing a change that is out
        of order: checking needs the previous trade completed, unchecking
        needs no later trade completed. A refusal changes nothing. */
    method HandleCheckboxChange(index: nat, isChecked: bool) returns (verdict: Verdict)
      requires index < |owner.trades|
      modifies owner
      ensures verdict == Decide(old(owner.trades), index, isChecked)
      ensures owner.trades == AfterToggle(old(owner.trades), index, isChecked)
      ensures owner.store == if verdict == Accepted then Some(owner.trades) else old(owner.store)
      ensures AchievedPrefix(old(owner.trades)) ==> AchievedPrefix(owner.trades)
    {
      if isChecked {
        var canComplete := CanComplete(owner.trades, index);
        if !canComplete {
          return MustCompletePrevious;
        }
      } else {
        var laterTradeCompleted := LaterTradeCompleted(owner.trades, index);
        if laterTradeCompleted {
          return MustUncompleteLater;
        }
      }
      if AchievedPrefix(owner.trades) {
        ToggleKeepsPrefix(owner.trades, index, isChecked);
      }
      owner.HandleTradeUpdate(index, Achieved(isChecked));
      verdict := Accepted;
    }
  }
}
