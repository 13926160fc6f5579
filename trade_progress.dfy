/**
 * The progress card's blocks: one per trade, coloured as completed for the
 * first `completedTrades` of them, shown in three rows of ten.
 */
module TradeProgress {

  datatype BlockStatus = Muted | Completed

  /** One block per trade; block `i` is completed when `i < completedTrades`. */
  function TradeBlocks(completedTrades: int, totalTrades: nat): (r: seq<BlockStatus>)
    ensures |r| == totalTrades
    ensures forall i :: 0 <= i < totalTrades ==> (r[i] == Completed <==> i < completedTrades)
  {
    seq(totalTrades, i requires 0 <= i => if i < completedTrades then Completed else Muted)
  }

  /** How many blocks are coloured as completed. */
  function CountCompleted(blocks: seq<BlockStatus>): (r: nat)
    ensures r <= |blocks|
  {
    if blocks == [] then 0
    else CountCompleted(blocks[..|blocks| - 1]) + (if blocks[|blocks| - 1] == Completed then 1 else 0)
  }

  function Min(a: int, b: int): int
  {
    if a < b then a else b
  }

  function Max(a: int, b: int): int
  {
    if a < b then b else a
  }

  /** `Array.prototype.slice(start, end)` for `0 <= start <= end`: the bounds are clamped to the length. */
  function Slice<T>(s: seq<T>, start: nat, end: nat): (r: seq<T>)
    requires start <= end
    ensures |r| == Max(0, Min(end, |s|) - start)
    ensures forall i :: 0 <= i < |r| ==> start + i < |s| && r[i] == s[start + i]
  {
    if start >= |s| then [] else s[start..Min(end, |s|)]
  }

  /** The three rendered rows of at most ten blocks: position `i` of row `k`
      shows block `10 * k + i`, the one titled "Trade 10k+i+1". */
  function Rows<T>(blocks: seq<T>): (r: seq<seq<T>>)
    ensures |r| == 3
    ensures forall k :: 0 <= k < 3 ==> |r[k]| <= 10
    ensures forall k, i :: 0 <= k < 3 && 0 <= i < |r[k]| ==> 10 * k + i < |blocks| && r[k][i] == blocks[10 * k + i]
  {
    [Slice(blocks, 0, 10), Slice(blocks, 10, 20), Slice(blocks, 20, 30)]
  }

  /** The number of completed blocks is the completed count, capped by the
      number of trades (and zero for a negative count). */
  lemma {:induction false} CompletedBlocks(completedTrades: int, totalTrades: nat)
    ensures CountCompleted(TradeBlocks(completedTrades, totalTrades)) == Min(Max(completedTrades, 0), totalTrades)
  {
    if totalTrades > 0 {
      var blocks := TradeBlocks(completedTrades, totalTrades);
      assert blocks[..totalTrades - 1] == TradeBlocks(completedTrades, totalTrades - 1);
      CompletedBlocks(completedTrades, totalTrades - 1);
    }
  }

  /** The three rows, one after the other, are exactly the first
      `min(30, |blocks|)` blocks: they do not overlap and they leave none of
      those out. */
  lemma RowsCoverFirstThirty<T>(blocks: seq<T>)
    ensures Rows(blocks)[0] + Rows(blocks)[1] + Rows(blocks)[2] == blocks[..Min(30, |blocks|)]
  {
  }
}
