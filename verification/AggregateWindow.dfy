/**
 Aggregates used as window functions (velox/exec/AggregateWindow.cpp) over a partition whose rows may
 still be arriving and may already have been dropped (velox/exec/WindowPartition.cpp).

 `AggregateWindowFunction.Apply` evaluates one output block by one of three paths: a fresh incremental
 pass, an incremental pass resumed from the previous block, or one aggregation per row.  The
 specification, `FrameValue`, folds each frame from scratch.
 */
module AggregateWindow {
  import opened Options

  /** An aggregate function: `initializeNewGroups`, one row of `addSingleGroupRawInput`, `extractValues`. */
  datatype Aggregate<!Row, !Acc, +Res> = Aggregate(init: Acc, step: (Acc, Row) -> Acc, extract: Acc -> Res)

  /** What `analyzeFrameValues` reports about the frames of one block. */
  datatype FrameMetadata = FrameMetadata(firstRow: int, lastRow: int, incremental: bool, usePrevious: bool)

  /** The frames of one output block; `valid[i]` is the bit of row `i` in `validRows`. */
  datatype Block = Block(starts: seq<int>, ends: seq<int>, valid: seq<bool>) {
    predicate Selected(i: int) {
      0 <= i < |valid| && valid[i]
    }

    ghost predicate HasSelections() {
      exists i :: Selected(i)
    }

    /** Every selected frame is a non-empty range of the `numRows` rows of the partition. */
    ghost predicate WellFormed(numRows: nat) {
      && |starts| == |ends| == |valid|
      && forall i {:trigger Selected(i)} :: Selected(i) ==> 0 <= starts[i] <= ends[i] < numRows
    }

    /** All selected frames start at `start`, and their ends do not decrease. */
    ghost predicate ExpandsFrom(start: int)
      requires |starts| == |ends| == |valid|
    {
      && (forall i {:trigger Selected(i)} :: Selected(i) ==> starts[i] == start)
      && (forall i, j {:trigger Selected(i), Selected(j)} :: Selected(i) && Selected(j) && i < j ==> ends[i] <= ends[j])
    }

    ghost predicate ExpandsUpTo(n: int, start: int)
      requires |starts| == |ends| == |valid|
    {
      && (forall i {:trigger Selected(i)} :: Selected(i) && i < n ==> starts[i] == start)
      && (forall i, j {:trigger Selected(i), Selected(j)} ::
            Selected(i) && Selected(j) && i < j < n ==> ends[i] <= ends[j])
    }

    /** The loop's test: one more row keeps the frames expanding iff it does not fall behind the last one. */
    lemma ExpandsStep(n: nat, start: int, last: nat)
      requires |starts| == |ends| == |valid| && Selected(n)
      requires last <= n && Selected(last)
      requires forall k {:trigger Selected(k)} :: Selected(k) && k < n ==> k <= last < n
      ensures ExpandsUpTo(n + 1, start) <==> ExpandsUpTo(n, start) && starts[n] == start && ends[n] >= ends[last]
    {
      if ExpandsUpTo(n, start) && starts[n] == start && ends[n] >= ends[last] {
        forall i, j | Selected(i) && Selected(j) && i < j < n + 1
          ensures ends[i] <= ends[j]
        {
          assert j == n ==> i <= last;
        }
      }
    }

    /** At the end of the loop, the flag says whether the frames expand from the least start. */
    lemma ExpandsAll(incremental: bool, start: int, firstRow: int, first: nat)
      requires |starts| == |ends| == |valid|
      requires Selected(first) && starts[first] == start && forall k :: Selected(k) ==> first <= k
      requires incremental <==> ExpandsUpTo(|valid|, start)
      requires incremental ==> firstRow == start
      ensures incremental <==> ExpandsFrom(firstRow)
      ensures incremental ==> forall k {:trigger Selected(k)} :: Selected(k) ==> ends[first] <= ends[k]
    {
    }

    /** The end of the last valid frame among the first `n` rows, or `from` if there is none. */
    ghost function Reach(n: nat, from: int): int
      requires n <= |valid| && |starts| == |ends| == |valid|
    {
      if n == 0 then from else if valid[n - 1] then ends[n - 1] else Reach(n - 1, from)
    }

    /** In expanding frames the reach never exceeds the end of a frame still to come. */
    lemma {:induction false} ReachBelow(n: nat, from: int, k: int)
      requires |starts| == |ends| == |valid| && n <= k && Selected(k)
      requires forall i, j {:trigger Selected(i), Selected(j)} ::
                 Selected(i) && Selected(j) && i < j ==> ends[i] <= ends[j]
      requires from <= ends[k]
      ensures Reach(n, from) <= ends[k]
    {
      if n > 0 {
        assert valid[n - 1] ==> Selected(n - 1);
        if !valid[n - 1] { ReachBelow(n - 1, from, k); }
      }
    }

    /** After all rows the reach is the greatest end. */
    lemma {:induction false} ReachMax(n: nat, from: int, maxAt: int)
      requires |starts| == |ends| == |valid| && n <= |valid| && Selected(maxAt) && maxAt < n
      requires forall i, j {:trigger Selected(i), Selected(j)} ::
                 Selected(i) && Selected(j) && i < j ==> ends[i] <= ends[j]
      requires forall i {:trigger Selected(i)} :: Selected(i) ==> ends[i] <= ends[maxAt]
      ensures Reach(n, from) == ends[maxAt]
    {
      assert valid[n - 1] ==> Selected(n - 1);
      if !valid[n - 1] { ReachMax(n - 1, from, maxAt); }
    }

    lemma ReachExpanding(from: int, first: int, lastRow: int)
      requires |starts| == |ends| == |valid| && ExpandsFrom(first)
      requires exists i :: Selected(i) && ends[i] == lastRow
      requires forall i {:trigger Selected(i)} :: Selected(i) ==> from <= ends[i] <= lastRow
      ensures Reach(|valid|, from) == lastRow
      ensures forall i {:trigger Selected(i)} :: Selected(i) ==> Reach(i, from) <= ends[i]
    {
      var maxAt :| Selected(maxAt) && ends[maxAt] == lastRow;
      ReachMax(|valid|, from, maxAt);
      forall i | Selected(i) ensures Reach(i, from) <= ends[i] {
        ReachBelow(i, from, i);
      }
    }

    /**
     What the metadata of this block must be when the previous block's metadata is `prev`: the least
     start, the greatest end, whether the frames expand from one start, and whether they also extend
     the frames of the previous block.
     */
    ghost predicate Describes(prev: Option<FrameMetadata>, m: FrameMetadata)
      requires |starts| == |ends| == |valid|
    {
      && (exists i :: Selected(i) && starts[i] == m.firstRow)
      && (exists i :: Selected(i) && ends[i] == m.lastRow)
      && (forall i {:trigger Selected(i)} :: Selected(i) ==> m.firstRow <= starts[i] && ends[i] <= m.lastRow)
      && (m.incremental <==> ExpandsFrom(m.firstRow))
      && (m.usePrevious <==>
            && m.incremental && prev.Some? && prev.value.incremental
            && prev.value.firstRow == m.firstRow
            && forall i {:trigger Selected(i)} :: Selected(i) ==> prev.value.lastRow <= ends[i])
    }
  }

  // ----- the specification: fold every frame from scratch -----

  /** The accumulator after rows `lo, ..., hi - 1`, added one by one to a new group. */
  ghost function Fold<Row, Acc, Res>(agg: Aggregate<Row, Acc, Res>, rows: seq<Row>, lo: nat, hi: nat): Acc
    requires lo <= hi <= |rows|
  {
    if lo == hi then agg.init else agg.step(Fold(agg, rows, lo, hi - 1), rows[hi - 1])
  }

  /** The value of row `i`: the aggregate of exactly its frame, or of no rows when the frame is empty. */
  ghost function FrameValue<Row, Acc, Res>(agg: Aggregate<Row, Acc, Res>, rows: seq<Row>, block: Block, i: int): Res
    requires block.WellFormed(|rows|) && 0 <= i < |block.valid|
  {
    if block.Selected(i) then
      agg.extract(Fold(agg, rows, block.starts[i], block.ends[i] + 1))
    else
      agg.extract(agg.init)
  }

  /** The values of all rows of a block. */
  ghost function BlockValues<Row, Acc, Res>(
      agg: Aggregate<Row, Acc, Res>, rows: seq<Row>, block: Block): (values: seq<Res>)
    requires block.WellFormed(|rows|)
    ensures |values| == |block.valid|
  {
    seq(|block.valid|, i requires 0 <= i < |block.valid| => FrameValue(agg, rows, block, i))
  }

  /** Rows added later do not change the fold of earlier ones. */
  lemma {:induction false} FoldPrefix<Row, Acc, Res>(agg: Aggregate<Row, Acc, Res>, rows: seq<Row>, more: seq<Row>,
                                                     lo: nat, hi: nat)
    requires lo <= hi <= |rows|
    ensures Fold(agg, rows + more, lo, hi) == Fold(agg, rows, lo, hi)
  {
    if lo < hi {
      FoldPrefix(agg, rows, more, lo, hi - 1);
    }
  }

  // ----- the partition -----

  /**
   A window partition.  A partial partition receives rows while it is processed and drops the rows it
   no longer needs; row numbers keep counting from the first row ever added, which is what `all` records.
   */
  class WindowPartition<Row> {
    var rows: seq<Row>
    var startRow: nat
    ghost var all: seq<Row>

    ghost predicate Valid()
      reads this
    {
      startRow <= |all| && rows == all[startRow..]
    }

    constructor (rows: seq<Row>)
      ensures Valid() && all == rows && startRow == 0
    {
      this.rows, this.startRow, this.all := rows, 0, rows;
    }

    method AddRows(more: seq<Row>)
      requires Valid()
      modifies this
      ensures Valid() && all == old(all) + more && startRow == old(startRow)
    {
      rows := rows + more;
      all := all + more;
    }

    method RemoveProcessedRows(numRows: nat)
      requires Valid() && numRows <= |rows|
      modifies this
      ensures Valid() && all == old(all) && startRow == old(startRow) + numRows
    {
      rows := rows[numRows..];
      startRow := startRow + numRows;
    }

    /** `extractColumn`: fails on a row number that has been dropped. */
    method ExtractRows(offset: int, numRows: nat) returns (ok: bool, result: seq<Row>)
      requires Valid()
      requires 0 <= offset && offset + numRows <= |all|
      ensures ok <==> startRow <= offset
      ensures ok ==> result == all[offset..offset + numRows]
    {
      if offset < startRow {
        return false, [];
      }
      ok, result := true, rows[offset - startRow..offset - startRow + numRows];
    }
  }

  // ----- analysing the frames of a block -----

  /** `applyToSelected` visits rows in ascending order, so the first one visited is the least selected. */
  method FirstSelected(block: Block) returns (first: nat)
    requires block.HasSelections()
    ensures block.Selected(first) && forall i :: block.Selected(i) ==> first <= i
  {
    first := 0;
    while !block.valid[first]
      invariant first < |block.valid|
      invariant forall i :: block.Selected(i) ==> first <= i
      decreases |block.valid| - first
    {
      first := first + 1;
    }
  }

  /** The loop of `analyzeFrameValues`, from the first selected row on. */
  method ScanFrames(block: Block, first: nat) returns (firstRow: int, lastRow: int, incremental: bool)
    requires |block.starts| == |block.ends| == |block.valid|
    requires block.Selected(first) && forall i :: block.Selected(i) ==> first <= i
    ensures (exists i :: block.Selected(i) && block.starts[i] == firstRow)
    ensures (exists i :: block.Selected(i) && block.ends[i] == lastRow)
    ensures forall i :: block.Selected(i) ==> firstRow <= block.starts[i] && block.ends[i] <= lastRow
    ensures incremental <==> block.ExpandsFrom(firstRow)
    ensures incremental ==> forall k :: block.Selected(k) ==> block.ends[first] <= block.ends[k]
  {
    firstRow, lastRow := block.starts[first], block.ends[first];
    var fixedFrameStart, prevFrameEnd := firstRow, lastRow;
    incremental := true;
    ghost var last, minAt, maxAt := first, first, first;
    for i := first to |block.valid|
      invariant block.Selected(last) && last <= i && prevFrameEnd == block.ends[last]
      invariant forall k :: block.Selected(k) && k < i ==> k <= last < i
      invariant block.Selected(minAt) && block.starts[minAt] == firstRow <= fixedFrameStart
      invariant block.Selected(maxAt) && block.ends[maxAt] == lastRow
      invariant forall k :: block.Selected(k) && k < i ==> firstRow <= block.starts[k] && block.ends[k] <= lastRow
      invariant incremental <==> block.ExpandsUpTo(i, fixedFrameStart)
      invariant incremental ==> firstRow == fixedFrameStart
    {
      if block.valid[i] {
        assert block.Selected(i);
        if block.starts[i] < firstRow {
          firstRow, minAt := block.starts[i], i;
        }
        if block.ends[i] > lastRow {
          lastRow, maxAt := block.ends[i], i;
        }
        block.ExpandsStep(i, fixedFrameStart, last);
        incremental := incremental && block.starts[i] == fixedFrameStart;
        incremental := incremental && block.ends[i] >= prevFrameEnd;
        prevFrameEnd, last := block.ends[i], i;
      }
    }
    block.ExpandsAll(incremental, fixedFrameStart, firstRow, first);
  }

  /** Computes the metadata of a block with at least one valid frame. */
  method AnalyzeFrameValues(block: Block, previous: Option<FrameMetadata>) returns (m: FrameMetadata)
    requires |block.starts| == |block.ends| == |block.valid|
    requires block.HasSelections()
    ensures block.Describes(previous, m)
  {
    var first := FirstSelected(block);
    var firstRow, lastRow, incremental := ScanFrames(block, first);
    var usePrevious := false;
    if previous.Some? {
      if incremental && previous.value.incremental && previous.value.firstRow == firstRow
         && previous.value.lastRow <= block.ends[first] {
        usePrevious := true;
      }
    }
    m := FrameMetadata(firstRow, lastRow, incremental, usePrevious);
  }

  // ----- the window function -----

  /** Row numbers `lo, lo + 1, ..., hi - 1`. */
  ghost function RowNumbers(lo: int, hi: int): (s: seq<int>)
    requires lo <= hi
  {
    seq(hi - lo, i requires 0 <= i < hi - lo => lo + i)
  }

  lemma RowNumbersConcat(lo: int, mid: int, hi: int)
    requires lo <= mid <= hi
    ensures RowNumbers(lo, mid) + RowNumbers(mid, hi) == RowNumbers(lo, hi)
  {
  }

  class AggregateWindowFunction<Row, Acc, Res> {
    const aggregate: Aggregate<Row, Acc, Res>
    const emptyResult: Res
    var partition: WindowPartition?<Row>
    // The single group row, and the last value extracted from it.
    var group: Acc
    var aggregateResult: Option<Res>
    var argRows: seq<Row>
    var previous: Option<FrameMetadata>
    // The partition rows read so far by fillArgVectors, in order.
    ghost var rowsRead: seq<int>

    /**
     After an incremental block the group row has accumulated exactly the rows from the block's first
     row to its last, and the extracted value is the value of that group row.
     */
    ghost predicate Valid()
      reads this, partition
    {
      && emptyResult == aggregate.extract(aggregate.init)
      && (partition != null ==> partition.Valid())
      && (previous.Some? && previous.value.incremental ==>
            && partition != null
            && 0 <= previous.value.firstRow <= previous.value.lastRow < |partition.all|
            && group == Fold(aggregate, partition.all, previous.value.firstRow, previous.value.lastRow + 1)
            && aggregateResult == Some(aggregate.extract(group)))
    }

    constructor (agg: Aggregate<Row, Acc, Res>)
      ensures Valid() && aggregate == agg && partition == null && previous == None && rowsRead == []
    {
      aggregate := agg;
      partition := null;
      // computeDefaultAggregateValue
      group := agg.init;
      emptyResult := agg.extract(agg.init);
      aggregateResult := None;
      argRows := [];
      previous := None;
      rowsRead := [];
    }

    method ResetPartition(p: WindowPartition<Row>)
      requires Valid() && p.Valid()
      modifies this
      ensures Valid() && partition == p && previous == None && rowsRead == old(rowsRead)
    {
      partition := p;
      previous := None;
    }

    /** Reads rows `firstRow..lastRow` of the partition into the argument vectors. */
    method FillArgVectors(firstRow: int, lastRow: int) returns (ok: bool)
      requires partition != null && partition.Valid()
      requires 0 <= firstRow <= lastRow + 1 <= |partition.all|
      modifies this`argRows, this`rowsRead
      ensures ok <==> partition.startRow <= firstRow
      ensures ok ==> argRows == partition.all[firstRow..lastRow + 1]
      ensures ok ==> rowsRead == old(rowsRead) + RowNumbers(firstRow, lastRow + 1)
    {
      var rows;
      ok, rows := partition.ExtractRows(firstRow, lastRow + 1 - firstRow);
      if ok {
        argRows := rows;
        rowsRead := rowsRead + RowNumbers(firstRow, lastRow + 1);
      }
    }

    /** The group row holds exactly the rows `first..end` of `all`, and its value is extracted. */
    ghost predicate Accumulated(all: seq<Row>, first: int, end: int)
      reads this
    {
      && 0 <= first <= end <= |all|
      && group == Fold(aggregate, all, first, end)
      && (first < end ==> aggregateResult == Some(aggregate.extract(group)))
    }

    /**
     Adds argument rows `startFrame..endFrame` to the group row and extracts its value.  The argument
     rows are rows `base..` of `all`, so a group row holding `first..base + startFrame` ends up holding
     `first..base + endFrame`.
     */
    method ComputeAggregate(ghost all: seq<Row>, ghost first: int, ghost base: int, startFrame: int, endFrame: int)
      requires 0 <= base <= base + |argRows| <= |all| && argRows == all[base..base + |argRows|]
      requires 0 <= startFrame < endFrame <= |argRows|
      requires Accumulated(all, first, base + startFrame)
      modifies this`group, this`aggregateResult
      ensures Accumulated(all, first, base + endFrame)
    {
      var i := startFrame;
      while i < endFrame
        invariant startFrame <= i <= endFrame
        invariant group == Fold(aggregate, all, first, base + i)
      {
        group := aggregate.step(group, argRows[i]);
        i := i + 1;
      }
      aggregateResult := Some(aggregate.extract(group));
    }

    method SetEmptyFramesResult(block: Block, resultOffset: nat, result: array<Res>)
      requires resultOffset + |block.valid| <= result.Length
      modifies result
      ensures forall k :: 0 <= k < result.Length ==>
                result[k] == if resultOffset <= k < resultOffset + |block.valid| && !block.valid[k - resultOffset]
                             then emptyResult else old(result[k])
    {
      for i := 0 to |block.valid|
        invariant forall k :: 0 <= k < result.Length ==>
                    result[k] == if resultOffset <= k < resultOffset + i && !block.valid[k - resultOffset]
                                 then emptyResult else old(result[k])
      {
        if !block.valid[i] {
          result[resultOffset + i] := emptyResult;
        }
      }
    }

    /**
     One selected row of `IncrementalAggregation`: adds the rows its frame has beyond the one before it, if any, and
     writes the value.
     */
    method Advance(ghost all: seq<Row>, block: Block, i: int, startFrame: int, prevFrameEnd: int, currentFrameEnd: int,
                   resultOffset: nat, result: array<Res>)
      requires block.WellFormed(|all|) && block.Selected(i) && currentFrameEnd == block.ends[i] - startFrame + 1
      requires 0 <= startFrame <= startFrame + |argRows| <= |all| && argRows == all[startFrame..startFrame + |argRows|]
      requires 0 <= prevFrameEnd <= currentFrameEnd <= |argRows|
      requires Accumulated(all, block.starts[i], startFrame + prevFrameEnd)
      requires resultOffset + |block.valid| <= result.Length
      modifies this`group, this`aggregateResult, result
      ensures Accumulated(all, block.starts[i], startFrame + currentFrameEnd)
      ensures result[resultOffset + i] == FrameValue(aggregate, all, block, i)
      ensures forall k :: 0 <= k < result.Length && k != resultOffset + i ==> result[k] == old(result[k])
    {
      if currentFrameEnd > prevFrameEnd {
        ComputeAggregate(all, block.starts[i], startFrame, prevFrameEnd, currentFrameEnd);
      }
      result[resultOffset + i] := aggregateResult.value;
    }

    /** With the selected rows in place, the others complete the block. */
    method FillEmptyRows(ghost all: seq<Row>, block: Block, resultOffset: nat, result: array<Res>)
      requires block.WellFormed(|all|) && emptyResult == aggregate.extract(aggregate.init)
      requires resultOffset + |block.valid| <= result.Length
      requires forall k :: block.Selected(k) ==> result[resultOffset + k] == FrameValue(aggregate, all, block, k)
      modifies result
      ensures result[resultOffset..resultOffset + |block.valid|] == BlockValues(aggregate, all, block)
      ensures forall k :: 0 <= k < result.Length && !(resultOffset <= k < resultOffset + |block.valid|) ==>
                result[k] == old(result[k])
    {
      SetEmptyFramesResult(block, resultOffset, result);
      ghost var values, expected :=
          result[resultOffset..resultOffset + |block.valid|], BlockValues(aggregate, all, block);
      forall k | 0 <= k < |block.valid| ensures values[k] == expected[k] {
        assert values[k] == result[resultOffset + k] && expected[k] == FrameValue(aggregate, all, block, k);
      }
    }

    /** The loop of `incrementalAggregation`: the selected rows get their values, and no other row is written. */
    method IncrementalRows(ghost all: seq<Row>, block: Block, ghost first: int, startFrame: int, endFrame: int,
                           resultOffset: nat, result: array<Res>)
      requires block.WellFormed(|all|) && Accumulated(all, first, startFrame)
      requires startFrame <= endFrame + 1 <= |all| && argRows == all[startFrame..endFrame + 1]
      requires forall i {:trigger block.Selected(i)} :: block.Selected(i) ==>
                 block.starts[i] == first && block.Reach(i, startFrame - 1) <= block.ends[i] <= endFrame
      requires block.Reach(|block.valid|, startFrame - 1) == endFrame
      requires resultOffset + |block.valid| <= result.Length
      modifies this`group, this`aggregateResult, result
      ensures Accumulated(all, first, endFrame + 1)
      ensures forall k :: block.Selected(k) ==> result[resultOffset + k] == FrameValue(aggregate, all, block, k)
      ensures forall k :: 0 <= k < result.Length && !(resultOffset <= k < resultOffset + |block.valid|) ==>
                result[k] == old(result[k])
    {
      var prevFrameEnd := 0;
      var i := 0;
      while i < |block.valid|
        invariant 0 <= i <= |block.valid| && 0 <= prevFrameEnd <= endFrame + 1 - startFrame
        invariant startFrame + prevFrameEnd == block.Reach(i, startFrame - 1) + 1
        invariant Accumulated(all, first, startFrame + prevFrameEnd)
        invariant forall k {:trigger block.Selected(k)} :: block.Selected(k) && k < i ==>
            result[resultOffset + k] == FrameValue(aggregate, all, block, k)
        invariant forall k :: 0 <= k < result.Length && !(resultOffset <= k < resultOffset + i) ==>
            result[k] == old(result[k])
      {
        if block.valid[i] {
          assert block.Selected(i);
          var currentFrameEnd := block.ends[i] - startFrame + 1;
          Advance(all, block, i, startFrame, prevFrameEnd, currentFrameEnd, resultOffset, result);
          prevFrameEnd := currentFrameEnd;
        }
        i := i + 1;
      }
    }

    /**
     Expanding frames: each selected row adds only the rows its frame has beyond the one before it.
     `startFrame` is the first row of the argument vectors; the group row has accumulated
     `first..startFrame` already.
     */
    method IncrementalAggregation(ghost all: seq<Row>, block: Block, ghost first: int, startFrame: int, endFrame: int,
                                  resultOffset: nat, result: array<Res>)
      requires block.WellFormed(|all|) && Accumulated(all, first, startFrame)
      requires emptyResult == aggregate.extract(aggregate.init)
      requires startFrame <= endFrame + 1 <= |all| && argRows == all[startFrame..endFrame + 1]
      requires forall i {:trigger block.Selected(i)} :: block.Selected(i) ==>
                 block.starts[i] == first && block.Reach(i, startFrame - 1) <= block.ends[i] <= endFrame
      requires block.Reach(|block.valid|, startFrame - 1) == endFrame
      requires resultOffset + |block.valid| <= result.Length
      modifies this`group, this`aggregateResult, result
      ensures Accumulated(all, first, endFrame + 1)
      ensures result[resultOffset..resultOffset + |block.valid|] == BlockValues(aggregate, all, block)
      ensures forall k :: 0 <= k < result.Length && !(resultOffset <= k < resultOffset + |block.valid|) ==>
                result[k] == old(result[k])
    {
      IncrementalRows(all, block, first, startFrame, endFrame, resultOffset, result);
      FillEmptyRows(all, block, resultOffset, result);
    }

    /** Arbitrary frames: every selected row aggregates its whole frame from scratch. */
    method SimpleAggregation(ghost all: seq<Row>, block: Block, minFrame: int, maxFrame: int,
                             resultOffset: nat, result: array<Res>)
      requires block.WellFormed(|all|)
      requires emptyResult == aggregate.extract(aggregate.init)
      requires 0 <= minFrame <= maxFrame < |all| && argRows == all[minFrame..maxFrame + 1]
      requires forall i :: block.Selected(i) ==> minFrame <= block.starts[i] && block.ends[i] <= maxFrame
      requires resultOffset + |block.valid| <= result.Length
      modifies this`group, this`aggregateResult, result
      ensures result[resultOffset..resultOffset + |block.valid|] == BlockValues(aggregate, all, block)
      ensures forall k :: 0 <= k < result.Length && !(resultOffset <= k < resultOffset + |block.valid|) ==>
                result[k] == old(result[k])
    {
      var i := 0;
      while i < |block.valid|
        invariant 0 <= i <= |block.valid|
        invariant forall k {:trigger block.Selected(k)} :: block.Selected(k) && k < i ==>
            result[resultOffset + k] == FrameValue(aggregate, all, block, k)
        invariant forall k :: 0 <= k < result.Length && !(resultOffset <= k < resultOffset + i) ==>
            result[k] == old(result[k])
      {
        if block.valid[i] {
          assert block.Selected(i);
          group := aggregate.init;
          var frameStartIndex := block.starts[i] - minFrame;
          var frameEndIndex := block.ends[i] - minFrame + 1;
          ComputeAggregate(all, block.starts[i], minFrame, frameStartIndex, frameEndIndex);
          result[resultOffset + i] := aggregateResult.value;
        }
        i := i + 1;
      }
      FillEmptyRows(all, block, resultOffset, result);
    }

    /**
     Evaluates one block into `result[resultOffset..]`.  It fails exactly when it would read a dropped
     row; otherwise every row gets its frame's value, whichever path was taken, and the partition rows
     read are exactly those from `ReadStart` to the block's last row.
     */
    method Apply(block: Block, resultOffset: nat, result: array<Res>) returns (ok: bool)
      requires Valid() && partition != null && block.WellFormed(|partition.all|)
      requires resultOffset + |block.valid| <= result.Length
      modifies this, result
      ensures partition == old(partition) && (ok ==> Valid())
      ensures !block.HasSelections() ==> ok && previous == old(previous) && rowsRead == old(rowsRead)
      ensures block.HasSelections() ==>
                exists m :: block.Describes(old(previous), m)
                  && (ok <==> partition.startRow <= ReadStart(old(previous), m))
      ensures block.HasSelections() && ok ==>
                && previous.Some? && block.Describes(old(previous), previous.value)
                && ReadStart(old(previous), previous.value) <= previous.value.lastRow + 1
                && rowsRead == old(rowsRead)
                               + RowNumbers(ReadStart(old(previous), previous.value), previous.value.lastRow + 1)
      ensures ok ==> result[resultOffset..resultOffset + |block.valid|] == BlockValues(aggregate, partition.all, block)
      ensures forall k :: 0 <= k < result.Length && !(resultOffset <= k < resultOffset + |block.valid|) ==>
                result[k] == old(result[k])
    {
      var hasSelections := HasSelections(block);
      if !hasSelections {
        SetEmptyFramesResult(block, resultOffset, result);
        return true;
      }
      var m := AnalyzeFrameValues(block, previous);
      if m.incremental {
        ok := ApplyIncremental(block, m, resultOffset, result);
      } else {
        ok := ApplySimple(block, m, resultOffset, result);
      }
      if ok {
        previous := Some(m);
      }
    }

    method ApplyIncremental(block: Block, m: FrameMetadata, resultOffset: nat, result: array<Res>) returns (ok: bool)
      requires Valid() && partition != null && block.WellFormed(|partition.all|)
      requires block.Describes(previous, m) && m.incremental
      requires resultOffset + |block.valid| <= result.Length
      modifies this`argRows, this`rowsRead, this`group, this`aggregateResult, result
      ensures ok <==> partition.startRow <= ReadStart(previous, m)
      ensures ok ==> Accumulated(partition.all, m.firstRow, m.lastRow + 1)
      ensures ok ==> result[resultOffset..resultOffset + |block.valid|] == BlockValues(aggregate, partition.all, block)
      ensures ok ==> ReadStart(previous, m) <= m.lastRow + 1
      ensures ok ==> rowsRead == old(rowsRead) + RowNumbers(ReadStart(previous, m), m.lastRow + 1)
      ensures forall k :: 0 <= k < result.Length && !(resultOffset <= k < resultOffset + |block.valid|) ==>
                result[k] == old(result[k])
    {
      var startRow;
      if m.usePrevious {
        startRow := previous.value.lastRow + 1;
      } else {
        startRow := m.firstRow;
        group := aggregate.init;
      }
      assert Accumulated(partition.all, m.firstRow, startRow);
      ok := FillArgVectors(startRow, m.lastRow);
      if ok {
        block.ReachExpanding(startRow - 1, m.firstRow, m.lastRow);
        IncrementalAggregation(partition.all, block, m.firstRow, startRow, m.lastRow, resultOffset, result);
      }
    }

    method ApplySimple(block: Block, m: FrameMetadata, resultOffset: nat, result: array<Res>) returns (ok: bool)
      requires Valid() && partition != null && block.WellFormed(|partition.all|)
      requires block.Describes(previous, m) && !m.incremental
      requires resultOffset + |block.valid| <= result.Length
      modifies this`argRows, this`rowsRead, this`group, this`aggregateResult, result
      ensures ok <==> partition.startRow <= m.firstRow
      ensures ok ==> result[resultOffset..resultOffset + |block.valid|] == BlockValues(aggregate, partition.all, block)
      ensures ok ==> rowsRead == old(rowsRead) + RowNumbers(m.firstRow, m.lastRow + 1)
      ensures forall k :: 0 <= k < result.Length && !(resultOffset <= k < resultOffset + |block.valid|) ==>
                result[k] == old(result[k])
    {
      ok := FillArgVectors(m.firstRow, m.lastRow);
      if ok {
        SimpleAggregation(partition.all, block, m.firstRow, m.lastRow, resultOffset, result);
      }
    }

    /** `SelectivityVector::hasSelections`. */
    method HasSelections(block: Block) returns (b: bool)
      ensures b <==> block.HasSelections()
    {
      for i := 0 to |block.valid|
        invariant forall k :: block.Selected(k) ==> i <= k
      {
        if block.valid[i] {
          assert block.Selected(i);
          return true;
        }
      }
      b := false;
    }
  }

  /** Where a block starts reading: after the previous block when it resumes it, else at its first row. */
  ghost function ReadStart(prev: Option<FrameMetadata>, m: FrameMetadata): int {
    if m.usePrevious && prev.Some? then prev.value.lastRow + 1 else m.firstRow
  }

  // ----- whole runs of the window operator -----

  /** What the Window operator does to one window function. */
  datatype Event<+Row> = ResetPartition(rows: seq<Row>) | AddRows(more: seq<Row>) | Evaluate(block: Block)

  /** Every block only has frames within the rows its partition has at that point. */
  ghost predicate Legal<Row>(rows: seq<Row>, events: seq<Event<Row>>)
    decreases |events|
  {
    events != [] ==>
      match events[0]
      case ResetPartition(rows') => Legal(rows', events[1..])
      case AddRows(more) => Legal(rows + more, events[1..])
      case Evaluate(block) => block.WellFormed(|rows|) && Legal(rows, events[1..])
  }

  /** The output of a run: the values of the blocks, each frame folded from scratch. */
  ghost function RunValues<Row, Acc, Res>(
      agg: Aggregate<Row, Acc, Res>, rows: seq<Row>, events: seq<Event<Row>>): seq<Res>
    requires Legal(rows, events)
    decreases |events|
  {
    if events == [] then []
    else
      match events[0]
      case ResetPartition(rows') => RunValues(agg, rows', events[1..])
      case AddRows(more) => RunValues(agg, rows + more, events[1..])
      case Evaluate(block) => BlockValues(agg, rows, block) + RunValues(agg, rows, events[1..])
  }

  /** One block into a fresh result vector. */
  method EvaluateBlock<Row, Acc, Res(0)>(w: AggregateWindowFunction<Row, Acc, Res>, block: Block)
    returns (ok: bool, values: seq<Res>)
    requires w.Valid() && w.partition != null && block.WellFormed(|w.partition.all|)
    modifies w
    ensures w.partition == old(w.partition) && (ok ==> w.Valid())
    ensures !block.HasSelections() ==> ok && w.previous == old(w.previous) && w.rowsRead == old(w.rowsRead)
    ensures block.HasSelections() ==>
              exists m :: block.Describes(old(w.previous), m)
                          && (ok <==> w.partition.startRow <= ReadStart(old(w.previous), m))
    ensures block.HasSelections() && ok ==>
              && w.previous.Some? && block.Describes(old(w.previous), w.previous.value)
              && ReadStart(old(w.previous), w.previous.value) <= w.previous.value.lastRow + 1
              && w.rowsRead == old(w.rowsRead)
                   + RowNumbers(ReadStart(old(w.previous), w.previous.value), w.previous.value.lastRow + 1)
    ensures w.partition.startRow == 0 ==> ok
    ensures ok ==> values == BlockValues(w.aggregate, w.partition.all, block)
  {
    var result := new Res[|block.valid|];
    ok := w.Apply(block, 0, result);
    values := result[..];
    assert result[0..0 + |block.valid|] == result[..];
  }

  /** Adding rows to a partition in use keeps the window function valid. */
  method ExtendPartition<Row, Acc, Res>(
      w: AggregateWindowFunction<Row, Acc, Res>, p: WindowPartition<Row>, more: seq<Row>)
    requires w.Valid() && w.partition == p
    modifies p
    ensures w.Valid() && p.all == old(p.all) + more && p.startRow == old(p.startRow)
  {
    if w.previous.Some? && w.previous.value.incremental {
      FoldPrefix(w.aggregate, p.all, more, w.previous.value.firstRow, w.previous.value.lastRow + 1);
    }
    p.AddRows(more);
  }

  /**
   Over any run of resets, added rows and blocks with arbitrary valid frames, the window function
   outputs exactly the values of the specification.
   */
  method Run<Row, Acc, Res(0)>(agg: Aggregate<Row, Acc, Res>, events: seq<Event<Row>>) returns (outputs: seq<Res>)
    requires Legal([], events)
    ensures outputs == RunValues(agg, [], events)
  {
    var w := new AggregateWindowFunction(agg);
    var p := new WindowPartition([]);
    w.ResetPartition(p);
    outputs := [];
    for i := 0 to |events|
      invariant w.Valid() && w.aggregate == agg && fresh(w) && w.partition == p && fresh(p) && p.startRow == 0
      invariant Legal(p.all, events[i..])
      invariant outputs + RunValues(agg, p.all, events[i..]) == RunValues(agg, [], events)
    {
      assert events[i..][1..] == events[i + 1..];
      match events[i]
      case ResetPartition(rows) =>
        p := new WindowPartition(rows);
        w.ResetPartition(p);
      case AddRows(more) =>
        ExtendPartition(w, p, more);
      case Evaluate(block) =>
        var ok, values := EvaluateBlock(w, block);
        outputs := outputs + values;
    }
  }

  // ----- row streaming -----

  /**
   What the Window operator does to a partial partition: rows arrive, and some of those not processed yet are
   evaluated, with frames from the start of the partition to `ends`, and dropped.
   */
  datatype StreamEvent<+Row> = Arrive(more: seq<Row>) | Process(ends: seq<int>)

  /** Frames of rows `done..` that end at or after their rows, within the rows that have arrived, and never shrink. */
  ghost predicate LegalEnds(ends: seq<int>, arrived: nat, done: nat, reach: int) {
    && done + |ends| <= arrived
    && (forall i :: 0 <= i < |ends| ==> done + i <= ends[i] < arrived && reach <= ends[i])
    && (forall i, j :: 0 <= i < j < |ends| ==> ends[i] <= ends[j])
  }

  function LastEnd(ends: seq<int>, reach: int): int {
    if ends == [] then reach else ends[|ends| - 1]
  }

  /** `reach` is the last row of the frames so far. */
  ghost predicate LegalStream<Row>(arrived: nat, done: nat, reach: int, events: seq<StreamEvent<Row>>)
    decreases |events|
  {
    events != [] ==>
      match events[0]
      case Arrive(more) => LegalStream(arrived + |more|, done, reach, events[1..])
      case Process(ends) =>
        LegalEnds(ends, arrived, done, reach) && LegalStream(arrived, done + |ends|, LastEnd(ends, reach), events[1..])
  }

  ghost function Reached<Row>(reach: int, events: seq<StreamEvent<Row>>): int
    decreases |events|
  {
    if events == [] then reach
    else
      match events[0]
      case Arrive(_) => Reached(reach, events[1..])
      case Process(ends) => Reached(LastEnd(ends, reach), events[1..])
  }

  ghost function Arrived<Row>(rows: seq<Row>, events: seq<StreamEvent<Row>>): seq<Row>
    decreases |events|
  {
    if events == [] then rows
    else
      match events[0]
      case Arrive(more) => Arrived(rows + more, events[1..])
      case Process(_) => Arrived(rows, events[1..])
  }

  /** The ends of all frames, in order. */
  ghost function Ends<Row>(events: seq<StreamEvent<Row>>): seq<int>
    decreases |events|
  {
    if events == [] then []
    else
      match events[0]
      case Arrive(_) => Ends(events[1..])
      case Process(ends) => ends + Ends(events[1..])
  }

  /** The values of the frames from the start of the partition to `ends`. */
  ghost function ValuesUpTo<Row, Acc, Res>(agg: Aggregate<Row, Acc, Res>, rows: seq<Row>, ends: seq<int>): seq<Res>
    requires forall e <- ends :: 0 <= e < |rows|
  {
    seq(|ends|, i requires 0 <= i < |ends| => assert ends[i] in ends; agg.extract(Fold(agg, rows, 0, ends[i] + 1)))
  }

  lemma ValuesLater<Row, Acc, Res>(agg: Aggregate<Row, Acc, Res>, rows: seq<Row>, more: seq<Row>, ends: seq<int>)
    requires forall e <- ends :: 0 <= e < |rows|
    ensures ValuesUpTo(agg, rows + more, ends) == ValuesUpTo(agg, rows, ends)
  {
    forall i | 0 <= i < |ends| ensures ValuesUpTo(agg, rows + more, ends)[i] == ValuesUpTo(agg, rows, ends)[i] {
      assert ends[i] in ends;
      FoldPrefix(agg, rows, more, 0, ends[i] + 1);
    }
  }

  function FramesUpTo(ends: seq<int>): Block {
    Block(seq(|ends|, i => 0), ends, seq(|ends|, i => true))
  }

  /** The metadata left by a stream whose frames reach row `reach`; -1 before the first. */
  ghost predicate Streamed(prev: Option<FrameMetadata>, reach: int) {
    if reach == -1 then prev == None
    else prev.Some? && prev.value.incremental && prev.value.firstRow == 0 && prev.value.lastRow == reach
  }

  /** Frames that start with the partition and do not shrink always resume the stream. */
  lemma StreamResumes(prev: Option<FrameMetadata>, ends: seq<int>, arrived: nat, done: nat, reach: int,
                      m: FrameMetadata)
    requires Streamed(prev, reach) && ends != [] && LegalEnds(ends, arrived, done, reach)
    requires FramesUpTo(ends).Describes(prev, m)
    ensures Streamed(Some(m), LastEnd(ends, reach)) && ReadStart(prev, m) == reach + 1
  {
    var block := FramesUpTo(ends);
    assert block.Selected(0) && block.Selected(|ends| - 1) && block.ExpandsFrom(0);
    assert m.firstRow == 0 && m.lastRow == ends[|ends| - 1];
  }

  lemma StreamValues<Row, Acc, Res>(
      agg: Aggregate<Row, Acc, Res>, rows: seq<Row>, ends: seq<int>, done: nat, reach: int)
    requires LegalEnds(ends, |rows|, done, reach)
    ensures FramesUpTo(ends).WellFormed(|rows|)
    ensures (forall e <- ends :: 0 <= e < |rows|)
    ensures BlockValues(agg, rows, FramesUpTo(ends)) == ValuesUpTo(agg, rows, ends)
  {
  }

  /** `done` rows have been processed and dropped, and every row up to `reach` has been read once, in order. */
  ghost predicate Streaming<Row, Acc, Res>(
      w: AggregateWindowFunction<Row, Acc, Res>, p: WindowPartition<Row>, reach: int)
    reads w, p, w.partition
  {
    && w.Valid() && w.partition == p && -1 <= reach < |p.all| && p.startRow <= reach + 1
    && Streamed(w.previous, reach) && w.rowsRead == RowNumbers(0, reach + 1)
  }

  /** The frames of the next rows are evaluated, and only rows that have not been read are. */
  method EvaluateRows<Row, Acc, Res(0)>(
      w: AggregateWindowFunction<Row, Acc, Res>, p: WindowPartition<Row>, ends: seq<int>, ghost reach: int)
    returns (values: seq<Res>)
    requires Streaming(w, p, reach) && LegalEnds(ends, |p.all|, p.startRow, reach) && ends != []
    modifies w
    ensures Streaming(w, p, LastEnd(ends, reach)) && w.partition == p
    ensures (forall e <- ends :: 0 <= e < |p.all|) && values == ValuesUpTo(w.aggregate, p.all, ends)
  {
    var block := FramesUpTo(ends);
    StreamValues(w.aggregate, p.all, ends, p.startRow, reach);
    ghost var prev := w.previous;
    assert block.Selected(0);
    forall m | block.Describes(prev, m)
      ensures Streamed(Some(m), LastEnd(ends, reach)) && ReadStart(prev, m) == reach + 1
    {
      StreamResumes(prev, ends, |p.all|, p.startRow, reach, m);
    }
    var ok;
    ok, values := EvaluateBlock(w, block);
    RowNumbersConcat(0, reach + 1, LastEnd(ends, reach) + 1);
  }

  /** `callApplyForPartitionRows` on a partial partition: the rows are evaluated and dropped. */
  method ProcessRows<Row, Acc, Res(0)>(
      w: AggregateWindowFunction<Row, Acc, Res>, p: WindowPartition<Row>, ends: seq<int>, ghost reach: int)
    returns (values: seq<Res>)
    requires Streaming(w, p, reach) && LegalEnds(ends, |p.all|, p.startRow, reach)
    modifies w, p
    ensures Streaming(w, p, LastEnd(ends, reach)) && p.all == old(p.all) && p.startRow == old(p.startRow) + |ends|
    ensures (forall e <- ends :: 0 <= e < |p.all|) && values == ValuesUpTo(w.aggregate, p.all, ends)
  {
    values := [];
    if ends != [] {
      values := EvaluateRows(w, p, ends, reach);
      p.RemoveProcessedRows(|ends|);
    }
  }

  /** After `i` events: the rows that have arrived, those done, and the ends so far, with what the events left add. */
  ghost predicate OnTrack<Row>(events: seq<StreamEvent<Row>>, i: nat, rows: seq<Row>, done: nat, reach: int,
                               ends: seq<int>)
    requires i <= |events|
  {
    && LegalStream(|rows|, done, reach, events[i..]) && Reached(reach, events[i..]) == Reached(-1, events)
    && Arrived(rows, events[i..]) == Arrived([], events) && ends + Ends(events[i..]) == Ends(events)
  }

  lemma TrackStart<Row>(events: seq<StreamEvent<Row>>)
    requires LegalStream(0, 0, -1, events)
    ensures OnTrack(events, 0, [], 0, -1, [])
  {
    assert events[0..] == events;
  }

  lemma TrackEnd<Row>(events: seq<StreamEvent<Row>>, rows: seq<Row>, done: nat, reach: int, ends: seq<int>)
    requires OnTrack(events, |events|, rows, done, reach, ends)
    ensures rows == Arrived([], events) && ends == Ends(events) && reach == Reached(-1, events)
  {
    assert ends + [] == ends;
  }

  lemma TrackArrive<Row>(events: seq<StreamEvent<Row>>, i: nat, rows: seq<Row>, done: nat, reach: int, ends: seq<int>)
    requires i < |events| && OnTrack(events, i, rows, done, reach, ends) && events[i].Arrive?
    ensures OnTrack(events, i + 1, rows + events[i].more, done, reach, ends)
  {
    assert events[i..][1..] == events[i + 1..];
  }

  lemma TrackProcess<Row>(events: seq<StreamEvent<Row>>, i: nat, rows: seq<Row>, done: nat, reach: int, ends: seq<int>)
    requires i < |events| && OnTrack(events, i, rows, done, reach, ends) && events[i].Process?
    ensures LegalEnds(events[i].ends, |rows|, done, reach)
    ensures OnTrack(events, i + 1, rows, done + |events[i].ends|, LastEnd(events[i].ends, reach), ends + events[i].ends)
  {
    assert events[i..][1..] == events[i + 1..];
    assert ends + (events[i].ends + Ends(events[i + 1..])) == ends + events[i].ends + Ends(events[i + 1..]);
  }

  /** One event of a stream: the outputs so far stay the values of the frames so far. */
  method StreamStep<Row, Acc, Res(0)>(w: AggregateWindowFunction<Row, Acc, Res>, p: WindowPartition<Row>,
                                      events: seq<StreamEvent<Row>>, i: nat, outputs: seq<Res>,
                                      ghost reach: int, ghost ends: seq<int>)
    returns (outputs': seq<Res>, ghost reach': int, ghost ends': seq<int>)
    requires Streaming(w, p, reach) && i < |events| && OnTrack(events, i, p.all, p.startRow, reach, ends)
    requires (forall e <- ends :: 0 <= e < |p.all|) && outputs == ValuesUpTo(w.aggregate, p.all, ends)
    modifies w, p
    ensures Streaming(w, p, reach') && OnTrack(events, i + 1, p.all, p.startRow, reach', ends')
    ensures (forall e <- ends' :: 0 <= e < |p.all|) && outputs' == ValuesUpTo(w.aggregate, p.all, ends')
  {
    outputs', reach', ends' := outputs, reach, ends;
    match events[i]
    case Arrive(more) =>
      TrackArrive(events, i, p.all, p.startRow, reach, ends);
      ValuesLater(w.aggregate, p.all, more, ends);
      ExtendPartition(w, p, more);
    case Process(next) =>
      TrackProcess(events, i, p.all, p.startRow, reach, ends);
      var values := ProcessRows(w, p, next, reach);
      ValuesTogether(w.aggregate, p.all, ends, next);
      outputs', reach', ends' := outputs + values, LastEnd(next, reach), ends + next;
  }

  /**
   Row streaming: rows arrive and are processed in any portions, and dropped once processed.  The output is the value of
   every frame over the whole partition.  No dropped row is ever needed again, and every row up to the last frame's end
   is read exactly once, in order.
   */
  method StreamRows<Row, Acc, Res(0)>(agg: Aggregate<Row, Acc, Res>, events: seq<StreamEvent<Row>>)
    returns (outputs: seq<Res>, ghost rowsRead: seq<int>)
    requires LegalStream(0, 0, -1, events)
    ensures forall e <- Ends(events) :: 0 <= e < |Arrived([], events)|
    ensures outputs == ValuesUpTo(agg, Arrived([], events), Ends(events))
    ensures -1 <= Reached(-1, events) && rowsRead == RowNumbers(0, Reached(-1, events) + 1)
  {
    var w := new AggregateWindowFunction(agg);
    var p := new WindowPartition([]);
    w.ResetPartition(p);
    outputs := [];
    ghost var reach, ends := -1, [];
    TrackStart(events);
    for i := 0 to |events|
      invariant Streaming(w, p, reach) && w.aggregate == agg && fresh(w) && fresh(p)
      invariant OnTrack(events, i, p.all, p.startRow, reach, ends)
      invariant (forall e <- ends :: 0 <= e < |p.all|) && outputs == ValuesUpTo(agg, p.all, ends)
    {
      outputs, reach, ends := StreamStep(w, p, events, i, outputs, reach, ends);
    }
    rowsRead := w.rowsRead;
    TrackEnd(events, p.all, p.startRow, reach, ends);
  }

  lemma ValuesTogether<Row, Acc, Res>(agg: Aggregate<Row, Acc, Res>, rows: seq<Row>, some: seq<int>, more: seq<int>)
    requires (forall e <- some :: 0 <= e < |rows|) && forall e <- more :: 0 <= e < |rows|
    ensures forall e <- some + more :: 0 <= e < |rows|
    ensures ValuesUpTo(agg, rows, some + more) == ValuesUpTo(agg, rows, some) + ValuesUpTo(agg, rows, more)
  {
  }

  // ----- the default frame -----

  /** The default frame of ROWS ends with the row itself. */
  function RowEnds(done: nat, n: nat): seq<int> {
    seq(n, i => done + i)
  }

  /** The last of the rows that have arrived that is a peer of row `k`: `findPeerRowEndIndex`. */
  function PeerEnd<K(==)>(keys: seq<K>, k: nat): (e: nat)
    requires k < |keys|
    ensures k <= e < |keys| && forall i :: k <= i <= e ==> keys[i] == keys[k]
    ensures e + 1 < |keys| ==> keys[e + 1] != keys[k]
    decreases |keys| - k
  {
    if k + 1 < |keys| && keys[k + 1] == keys[k] then PeerEnd(keys, k + 1) else k
  }

  /** The default frame of RANGE ends with the last peer. */
  function PeerEnds<K(==)>(keys: seq<K>, done: nat, n: nat): seq<int>
    requires done + n <= |keys|
  {
    seq(n, i requires 0 <= i < n => PeerEnd(keys, done + i))
  }

  lemma {:induction false} PeerEndsGrow<K>(keys: seq<K>, j: nat, k: nat)
    requires j <= k < |keys|
    ensures PeerEnd(keys, j) <= PeerEnd(keys, k)
    decreases k - j
  {
    if j < k {
      PeerEndsGrow(keys, j + 1, k);
    }
  }

  /** Both default frames are frames of a stream, also when more rows arrive between portions. */
  lemma RowFramesStream(arrived: nat, done: nat, n: nat)
    requires done + n <= arrived
    ensures LegalEnds(RowEnds(done, n), arrived, done, done - 1)
  {
  }

  /** The end of the last frame of the first `done` rows. */
  function PeerReach<K(==)>(keys: seq<K>, done: nat): int
    requires done <= |keys|
  {
    if done == 0 then -1 else PeerEnd(keys, done - 1)
  }

  lemma RangeFramesStream<K>(keys: seq<K>, done: nat, n: nat)
    requires done + n <= |keys|
    ensures LegalEnds(PeerEnds(keys, done, n), |keys|, done, PeerReach(keys, done))
    ensures LastEnd(PeerEnds(keys, done, n), PeerReach(keys, done)) == PeerReach(keys, done + n)
  {
    var ends, reach := PeerEnds(keys, done, n), PeerReach(keys, done);
    forall i | 0 <= i < n ensures done + i <= ends[i] < |keys| && reach <= ends[i] {
      assert ends[i] == PeerEnd(keys, done + i);
      if done > 0 {
        PeerEndsGrow(keys, done - 1, done + i);
      }
    }
    forall i, j | 0 <= i < j < n ensures ends[i] <= ends[j] {
      PeerEndsGrow(keys, done + i, done + j);
    }
  }

  // ----- streaming the RANGE frame -----

  /** Rows that the window build hands over, or rows that the operator takes. */
  datatype Portion<+Row> = Hand(more: seq<Row>) | Take(n: nat)

  /** Rows are handed over only where the sort key changes, and only rows that are there are taken. */
  ghost predicate WholePeers<Row, K>(key: Row -> K, rows: seq<Row>, done: nat, portions: seq<Portion<Row>>)
    decreases |portions|
  {
    portions != [] ==>
      match portions[0]
      case Hand(more) =>
        && (rows != [] && more != [] ==> key(rows[|rows| - 1]) != key(more[0]))
        && WholePeers(key, rows + more, done, portions[1..])
      case Take(n) => done + n <= |rows| && WholePeers(key, rows, done + n, portions[1..])
  }

  function Keys<Row, K>(key: Row -> K, rows: seq<Row>): (keys: seq<K>)
    ensures |keys| == |rows|
  {
    seq(|rows|, i requires 0 <= i < |rows| => key(rows[i]))
  }

  /** The rows of the partition once all have been handed over. */
  function AllRows<Row>(rows: seq<Row>, portions: seq<Portion<Row>>): (all: seq<Row>)
    ensures rows <= all
    decreases |portions|
  {
    if portions == [] then rows
    else AllRows(if portions[0].Hand? then rows + portions[0].more else rows, portions[1..])
  }

  function Taken<Row>(portions: seq<Portion<Row>>): nat
    decreases |portions|
  {
    if portions == [] then 0 else (if portions[0].Take? then portions[0].n else 0) + Taken(portions[1..])
  }

  /** The stream: frames end with the last peer that is there when their rows are taken. */
  function PeerEvents<Row, K(==)>(key: Row -> K, rows: seq<Row>, done: nat, portions: seq<Portion<Row>>)
    : seq<StreamEvent<Row>>
    requires WholePeers(key, rows, done, portions)
    decreases |portions|
  {
    if portions == [] then []
    else
      match portions[0]
      case Hand(more) => [Arrive(more)] + PeerEvents(key, rows + more, done, portions[1..])
      case Take(n) =>
        [Process(PeerEnds(Keys(key, rows), done, n))] + PeerEvents(key, rows, done + n, portions[1..])
  }

  /** Rows with another key do not extend a peer group. */
  lemma {:induction false} PeerEndKept<K>(keys: seq<K>, more: seq<K>, k: nat)
    requires k < |keys| && (more != [] ==> keys[|keys| - 1] != more[0])
    ensures PeerEnd(keys + more, k) == PeerEnd(keys, k)
    decreases |keys| - k
  {
    if k + 1 < |keys| {
      PeerEndKept(keys, more, k + 1);
    }
  }

  lemma PeersHanded<Row, K>(key: Row -> K, rows: seq<Row>, more: seq<Row>, k: nat)
    requires k < |rows| && (more != [] ==> key(rows[|rows| - 1]) != key(more[0]))
    ensures PeerEnd(Keys(key, rows + more), k) == PeerEnd(Keys(key, rows), k)
  {
    PeerEndKept(Keys(key, rows), Keys(key, more), k);
    assert Keys(key, rows + more) == Keys(key, rows) + Keys(key, more);
  }

  /** The last peer among the rows that are there is the last peer of the whole partition. */
  lemma {:induction false} PeersComplete<Row, K>(key: Row -> K, rows: seq<Row>, done: nat, portions: seq<Portion<Row>>,
                                                 k: nat)
    requires WholePeers(key, rows, done, portions) && k < |rows|
    ensures PeerEnd(Keys(key, AllRows(rows, portions)), k) == PeerEnd(Keys(key, rows), k)
    decreases |portions|
  {
    if portions != [] {
      match portions[0]
      case Hand(more) =>
        PeersHanded(key, rows, more, k);
        PeersComplete(key, rows + more, done, portions[1..], k);
      case Take(n) => PeersComplete(key, rows, done + n, portions[1..], k);
    }
  }

  lemma LegalArrive<Row>(arrived: nat, done: nat, reach: int, more: seq<Row>, events: seq<StreamEvent<Row>>)
    requires LegalStream(arrived + |more|, done, reach, events)
    ensures LegalStream(arrived, done, reach, [Arrive(more)] + events)
  {
    assert ([Arrive(more)] + events)[1..] == events;
  }

  lemma LegalProcess<Row>(arrived: nat, done: nat, reach: int, ends: seq<int>, events: seq<StreamEvent<Row>>)
    requires LegalEnds(ends, arrived, done, reach)
    requires LegalStream(arrived, done + |ends|, LastEnd(ends, reach), events)
    ensures LegalStream(arrived, done, reach, [Process(ends)] + events)
  {
    assert ([Process(ends)] + events)[1..] == events;
  }

  lemma LegalHand<Row, K>(key: Row -> K, rows: seq<Row>, more: seq<Row>, done: nat, events: seq<StreamEvent<Row>>)
    requires done <= |rows| && (rows != [] && more != [] ==> key(rows[|rows| - 1]) != key(more[0]))
    requires LegalStream(|rows + more|, done, PeerReach(Keys(key, rows + more), done), events)
    ensures LegalStream(|rows|, done, PeerReach(Keys(key, rows), done), [Arrive(more)] + events)
  {
    if done > 0 {
      PeersHanded(key, rows, more, done - 1);
    }
    LegalArrive(|rows|, done, PeerReach(Keys(key, rows), done), more, events);
  }

  lemma LegalTake<Row, K>(keys: seq<K>, done: nat, n: nat, events: seq<StreamEvent<Row>>)
    requires done + n <= |keys| && LegalStream(|keys|, done + n, PeerReach(keys, done + n), events)
    ensures LegalStream(|keys|, done, PeerReach(keys, done), [Process(PeerEnds(keys, done, n))] + events)
  {
    RangeFramesStream(keys, done, n);
    LegalProcess(|keys|, done, PeerReach(keys, done), PeerEnds(keys, done, n), events);
  }

  lemma FirstHanded<Row, K>(key: Row -> K, rows: seq<Row>, done: nat, portions: seq<Portion<Row>>)
    requires portions != [] && portions[0].Hand? && WholePeers(key, rows, done, portions)
    ensures PeerEvents(key, rows, done, portions)
         == [Arrive(portions[0].more)] + PeerEvents(key, rows + portions[0].more, done, portions[1..])
  {
  }

  lemma FirstTaken<Row, K>(key: Row -> K, rows: seq<Row>, done: nat, portions: seq<Portion<Row>>)
    requires portions != [] && portions[0].Take? && WholePeers(key, rows, done, portions)
    ensures PeerEvents(key, rows, done, portions)
         == [Process(PeerEnds(Keys(key, rows), done, portions[0].n))]
            + PeerEvents(key, rows, done + portions[0].n, portions[1..])
  {
  }

  lemma {:induction false} PeersLegal<Row, K>(key: Row -> K, rows: seq<Row>, done: nat, portions: seq<Portion<Row>>)
    requires WholePeers(key, rows, done, portions) && done <= |rows|
    ensures LegalStream(|rows|, done, PeerReach(Keys(key, rows), done), PeerEvents(key, rows, done, portions))
    decreases |portions|
  {
    if portions != [] {
      match portions[0]
      case Hand(more) =>
        PeersLegal(key, rows + more, done, portions[1..]);
        LegalHand(key, rows, more, done, PeerEvents(key, rows + more, done, portions[1..]));
        FirstHanded(key, rows, done, portions);
      case Take(n) =>
        PeersLegal(key, rows, done + n, portions[1..]);
        LegalTake(Keys(key, rows), done, n, PeerEvents(key, rows, done + n, portions[1..]));
        FirstTaken(key, rows, done, portions);
    }
  }

  /** The frames of the stream are the RANGE frames of the whole partition. */
  lemma {:induction false} PeersAreRange<Row, K>(key: Row -> K, rows: seq<Row>, done: nat, portions: seq<Portion<Row>>)
    requires WholePeers(key, rows, done, portions) && done <= |rows|
    ensures var events, all := PeerEvents(key, rows, done, portions), AllRows(rows, portions);
            && Arrived(rows, events) == all && done + Taken(portions) <= |all|
            && Ends(events) == PeerEnds(Keys(key, all), done, Taken(portions))
    decreases |portions|
  {
    if portions != [] {
      var events, all, rest := PeerEvents(key, rows, done, portions), AllRows(rows, portions), portions[1..];
      match portions[0]
      case Hand(more) =>
        PeersAreRange(key, rows + more, done, rest);
        assert events[1..] == PeerEvents(key, rows + more, done, rest);
      case Take(n) =>
        PeersAreRange(key, rows, done + n, rest);
        assert events[1..] == PeerEvents(key, rows, done + n, rest);
        TakenComplete(key, rows, done, portions, n);
        PeerEndsConcat(Keys(key, all), done, n, Taken(rest));
    }
  }

  lemma TakenComplete<Row, K>(key: Row -> K, rows: seq<Row>, done: nat, portions: seq<Portion<Row>>, n: nat)
    requires WholePeers(key, rows, done, portions) && done + n <= |rows|
    ensures PeerEnds(Keys(key, rows), done, n) == PeerEnds(Keys(key, AllRows(rows, portions)), done, n)
  {
    var here, complete := Keys(key, rows), Keys(key, AllRows(rows, portions));
    forall i | 0 <= i < n ensures PeerEnds(here, done, n)[i] == PeerEnds(complete, done, n)[i] {
      PeersComplete(key, rows, done, portions, done + i);
    }
  }

  lemma PeerEndsConcat<K>(keys: seq<K>, done: nat, n: nat, m: nat)
    requires done + n + m <= |keys|
    ensures PeerEnds(keys, done, n) + PeerEnds(keys, done + n, m) == PeerEnds(keys, done, n + m)
  {
    var whole, parts := PeerEnds(keys, done, n + m), PeerEnds(keys, done, n) + PeerEnds(keys, done + n, m);
    forall i | 0 <= i < n + m ensures whole[i] == parts[i] {
      assert whole[i] == PeerEnd(keys, done + i);
    }
  }

  /**
   RANGE frames up to the current row, streamed: though rows are taken and dropped before the others are there, every
   row gets the value of its frame in the complete partition.
   */
  method StreamRange<Row, K(==), Acc, Res(0)>(agg: Aggregate<Row, Acc, Res>, key: Row -> K, portions: seq<Portion<Row>>)
    returns (outputs: seq<Res>)
    requires WholePeers(key, [], 0, portions)
    ensures Taken(portions) <= |AllRows([], portions)|
    ensures var all := AllRows([], portions);
            var ends := PeerEnds(Keys(key, all), 0, Taken(portions));
            (forall e <- ends :: 0 <= e < |all|) && outputs == ValuesUpTo(agg, all, ends)
  {
    PeersLegal(key, [], 0, portions);
    PeersAreRange(key, [], 0, portions);
    ghost var rowsRead;
    outputs, rowsRead := StreamRows(agg, PeerEvents(key, [], 0, portions));
  }
}
