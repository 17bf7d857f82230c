/**
 The extract companion function (`ExtractFunction` in velox/exec/AggregateCompanionAdapter.cpp): one group for each
 selected row, compaction of the group pointers in place, and a dictionary from rows to the compacted results.
 */
module GroupCompaction {
  import opened Options

  /** An accumulator that a group pointer leads to. */
  class Group<A> {
    var accumulator: A

    constructor (accumulator: A)
      ensures this.accumulator == accumulator
    {
      this.accumulator := accumulator;
    }
  }

  /** The selected rows before row `n`. */
  function SelectedBefore(rows: seq<bool>, n: nat): (count: nat)
    requires n <= |rows|
    ensures count <= n
  {
    if n == 0 then 0 else SelectedBefore(rows, n - 1) + if rows[n - 1] then 1 else 0
  }

  lemma {:induction false} SelectedBeforeGrows(rows: seq<bool>, m: nat, n: nat)
    requires m < n <= |rows|
    ensures SelectedBefore(rows, m) + (if rows[m] then 1 else 0) <= SelectedBefore(rows, n)
  {
    if m < n - 1 {
      SelectedBeforeGrows(rows, m, n - 1);
    }
  }

  /** The selected row, of the first `n`, that has `k` selected rows before it. */
  ghost function RowOf(rows: seq<bool>, n: nat, k: nat): (r: nat)
    requires n <= |rows| && k < SelectedBefore(rows, n)
    ensures r < n && rows[r] && SelectedBefore(rows, r) == k
  {
    if rows[n - 1] && SelectedBefore(rows, n - 1) == k then n - 1 else RowOf(rows, n - 1, k)
  }

  predicate IsSelected(rows: seq<bool>, r: int) {
    0 <= r < |rows| && rows[r]
  }

  /**
   `compactGroups`: the pointers of the selected rows move to the front, in order and without one being
   overwritten before it is read.
   */
  method CompactGroups<G>(rows: seq<bool>, groups: array<G>) returns (count: nat, indices: seq<nat>)
    requires |rows| <= groups.Length
    modifies groups
    ensures count == SelectedBefore(rows, |rows|) && |indices| == |rows|
    ensures forall r {:trigger IsSelected(rows, r)} :: IsSelected(rows, r) ==>
              indices[r] == SelectedBefore(rows, r) < count && groups[indices[r]] == old(groups[r])
    ensures forall k :: count <= k < groups.Length ==> groups[k] == old(groups[k])
  {
    indices := seq(|rows|, _ => 0);
    count := 0;
    for row := 0 to |rows|
      invariant count == SelectedBefore(rows, row) <= row && |indices| == |rows|
      invariant forall k :: count <= k < groups.Length ==> groups[k] == old(groups[k])
      invariant forall r {:trigger IsSelected(rows, r)} :: IsSelected(rows, r) && r < row ==>
                  indices[r] == SelectedBefore(rows, r) < count && groups[indices[r]] == old(groups[r])
    {
      if rows[row] {
        if count < row {
          groups[count] := groups[row];
        }
        indices := indices[row := count];
        count := count + 1;
      }
    }
  }

  /** Different selected rows have different places in the dictionary. */
  lemma IndicesInjective(rows: seq<bool>, q: nat, r: nat)
    requires q < |rows| && r < |rows| && rows[q] && rows[r] && q != r
    ensures SelectedBefore(rows, q) != SelectedBefore(rows, r)
  {
    if q < r {
      SelectedBeforeGrows(rows, q, r);
    } else {
      SelectedBeforeGrows(rows, r, q);
    }
  }

  /** `apply`: each selected row gets the final value of its own intermediate state. */
  method Apply<A, I, R>(init: A, merge: (A, I) -> A, extract: A -> R, rows: seq<bool>, args: seq<I>)
    returns (result: seq<Option<R>>)
    requires |rows| == |args|
    ensures |result| == |rows|
    ensures forall r :: 0 <= r < |rows| ==> result[r] == if rows[r] then Some(extract(merge(init, args[r]))) else None
  {
    var groups := AllocateGroups(init, rows);
    AddIntermediateResults(merge, rows, args, groups);
    ghost var finals := seq(|rows|, r requires 0 <= r < |rows| => merge(init, args[r]));
    assert forall r :: 0 <= r < |rows| && rows[r] ==> groups[r].accumulator == finals[r];
    var count, indices := CompactGroups(rows, groups);
    var values: seq<R> := [];
    forall k | 0 <= k < count ensures groups[k] != null {
      assert IsSelected(rows, RowOf(rows, |rows|, k));
    }
    for k := 0 to count
      invariant |values| == k && forall j :: 0 <= j < k ==> values[j] == extract(groups[j].accumulator)
    {
      values := values + [extract(groups[k].accumulator)];
    }
    forall r | 0 <= r < |rows| && rows[r] ensures indices[r] < |values| && values[indices[r]] == extract(finals[r]) {
      assert IsSelected(rows, r);
    }
    result := seq(|rows|, r requires 0 <= r < |rows| && |indices| == |rows| && (rows[r] ==> indices[r] < |values|) =>
                    if rows[r] then Some(values[indices[r]]) else None);
  }

  /** `allocateGroups` and `initializeNewGroups`. */
  method AllocateGroups<A>(init: A, rows: seq<bool>) returns (groups: array<Group?<A>>)
    ensures fresh(groups) && groups.Length == |rows|
    ensures forall r :: 0 <= r < |rows| && rows[r] ==>
        groups[r] != null && fresh(groups[r]) && groups[r].accumulator == init
    ensures forall q, r :: 0 <= q < r < |rows| && rows[q] && rows[r] ==> groups[q] != groups[r]
  {
    groups := new Group?<A>[|rows|];
    for row := 0 to |rows|
      invariant fresh(groups)
      invariant forall r :: 0 <= r < row && rows[r] ==>
          groups[r] != null && fresh(groups[r]) && groups[r].accumulator == init
      invariant forall q, r :: 0 <= q < r < row && rows[q] && rows[r] ==> groups[q] != groups[r]
    {
      if rows[row] {
        groups[row] := new Group(init);
      }
    }
  }

  /** `addIntermediateResults`: the argument of a row is merged into its group. */
  method AddIntermediateResults<A, I>(merge: (A, I) -> A, rows: seq<bool>, args: seq<I>, groups: array<Group?<A>>)
    requires |rows| == |args| == groups.Length
    requires forall r :: 0 <= r < |rows| && rows[r] ==> groups[r] != null
    requires forall q, r :: 0 <= q < r < |rows| && rows[q] && rows[r] ==> groups[q] != groups[r]
    modifies set r | 0 <= r < |rows| && rows[r] :: groups[r]
    ensures forall r :: 0 <= r < |rows| && rows[r] ==>
        groups[r].accumulator == merge(old(groups[r].accumulator), args[r])
  {
    for row := 0 to |rows|
      invariant forall r :: 0 <= r < row && rows[r] ==>
          groups[r].accumulator == merge(old(groups[r].accumulator), args[r])
      invariant forall r :: row <= r < |rows| && rows[r] ==> groups[r].accumulator == old(groups[r].accumulator)
    {
      if rows[row] {
        groups[row].accumulator := merge(groups[row].accumulator, args[row]);
      }
    }
  }
}
