/**
 Null flags of groups and the counter that lets them be skipped (velox/exec/Aggregate.h), and the hooks that update
 accumulators from values as they are decoded (velox/exec/AggregationHook.h).
 */
module NullCounts {

  /** The row of a group: the set bits of the bytes with the null flags of all aggregates, and an accumulator. */
  class GroupRow {
    var flags: set<nat>
    var accumulator: int

    constructor (accumulator: int)
      ensures flags == {} && this.accumulator == accumulator
    {
      flags, this.accumulator := {}, accumulator;
    }
  }

  /** The groups of an aggregate whose flag is set. */
  ghost function NullGroups(live: set<GroupRow>, bit: nat): set<GroupRow>
    reads live`flags
  {
    set g | g in live && bit in g.flags
  }

  class Aggregate {
    // nullByte_ and nullMask_ name one bit.
    const nullBit: nat
    var numNulls: nat
    ghost var live: set<GroupRow>

    /** `numNulls_` counts the groups whose flag is set. */
    ghost predicate Valid()
      reads this, live`flags
    {
      numNulls == |NullGroups(live, nullBit)|
    }

    constructor (nullBit: nat)
      ensures Valid() && live == {} && this.nullBit == nullBit
    {
      this.nullBit, numNulls, live := nullBit, 0, {};
      new;
      assert NullGroups(live, nullBit) == {};
    }

    /** `isNull`: the counter stands for all flags when it is zero. */
    method IsNull(group: GroupRow) returns (r: bool)
      requires Valid() && group in live
      ensures r <==> nullBit in group.flags
    {
      assert nullBit in group.flags ==> group in NullGroups(live, nullBit);
      return numNulls != 0 && nullBit in group.flags;
    }

    method SetNull(group: GroupRow) returns (changed: bool)
      requires Valid() && group in live
      modifies this`numNulls, group`flags
      ensures Valid() && changed == (nullBit !in old(group.flags))
      ensures group.flags == old(group.flags) + {nullBit}
    {
      if nullBit in group.flags {
        return false;
      }
      ghost var before := NullGroups(live, nullBit);
      group.flags := group.flags + {nullBit};
      numNulls := numNulls + 1;
      assert NullGroups(live, nullBit) == before + {group};
      return true;
    }

    /** `clearNull`: whether the group was null; the flags of other aggregates are kept. */
    method ClearNull(group: GroupRow) returns (changed: bool)
      requires Valid() && group in live
      modifies this`numNulls, group`flags
      ensures Valid() && changed == (nullBit in old(group.flags))
      ensures group.flags == old(group.flags) - {nullBit}
    {
      ghost var before := NullGroups(live, nullBit);
      assert nullBit in group.flags ==> group in before;
      if numNulls != 0 {
        var byte := group.flags;
        if nullBit in byte {
          group.flags := byte - {nullBit};
          numNulls := numNulls - 1;
          assert NullGroups(live, nullBit) == before - {group};
          return true;
        }
      }
      return false;
    }

    /** `setAllNulls`, which is called once for a group: these are new. */
    method SetAllNulls(groups: seq<GroupRow>, indices: seq<nat>)
      requires Valid() && Distinct(groups, indices)
      requires forall g :: g in Picked(groups, indices, |indices|) ==> g !in live && nullBit !in g.flags
      modifies this`numNulls, this`live, Picked(groups, indices, |indices|)`flags
      ensures Valid() && numNulls == old(numNulls) + |indices|
      ensures live == old(live) + Picked(groups, indices, |indices|)
      ensures forall g :: g in Picked(groups, indices, |indices|) ==> nullBit in g.flags
    {
      ghost var before := NullGroups(live, nullBit);
      ghost var picked := Picked(groups, indices, |indices|);
      for i := 0 to |indices|
        invariant live == old(live) && numNulls == old(numNulls) && NullGroups(live, nullBit) == before
        invariant forall g :: g in picked ==> (nullBit in g.flags <==> g in Picked(groups, indices, i))
      {
        var group := groups[indices[i]];
        PickedGrow(groups, indices, i + 1, |indices|);
        group.flags := group.flags + {nullBit};
      }
      PickedSize(groups, indices, |indices|);
      live := live + picked;
      numNulls := numNulls + |indices|;
      assert NullGroups(live, nullBit) == before + picked;
    }
  }

  predicate Distinct(groups: seq<GroupRow>, indices: seq<nat>) {
    && (forall k :: 0 <= k < |indices| ==> indices[k] < |groups|)
    && (forall j, k :: 0 <= j < k < |indices| ==> groups[indices[j]] != groups[indices[k]])
  }

  /** The groups at the first `n` indices. */
  ghost function Picked(groups: seq<GroupRow>, indices: seq<nat>, n: nat): set<GroupRow>
    requires n <= |indices| && forall k :: 0 <= k < |indices| ==> indices[k] < |groups|
  {
    if n == 0 then {} else Picked(groups, indices, n - 1) + {groups[indices[n - 1]]}
  }

  lemma {:induction false} PickedSize(groups: seq<GroupRow>, indices: seq<nat>, n: nat)
    requires Distinct(groups, indices) && n <= |indices|
    ensures |Picked(groups, indices, n)| == n
    ensures forall k :: n <= k < |indices| ==> groups[indices[k]] !in Picked(groups, indices, n)
  {
    if n > 0 {
      PickedSize(groups, indices, n - 1);
    }
  }

  lemma {:induction false} PickedGrow(groups: seq<GroupRow>, indices: seq<nat>, m: nat, n: nat)
    requires Distinct(groups, indices) && m <= n <= |indices|
    ensures Picked(groups, indices, m) <= Picked(groups, indices, n)
  {
    if m < n {
      PickedGrow(groups, indices, m, n - 1);
    }
  }

  // ----- hooks -----

  const MIN_BIGINT := -0x8000_0000_0000_0000
  const MAX_BIGINT := 0x7fff_ffff_ffff_ffff

  predicate IsBigint(x: int) {
    MIN_BIGINT <= x <= MAX_BIGINT
  }

  /** Two's complement of 64 bits. */
  function Wrap(x: int): (r: int)
    ensures IsBigint(r)
  {
    (x - MIN_BIGINT) % 0x1_0000_0000_0000_0000 + MIN_BIGINT
  }

  /** SumHook with and without overflow, MinMaxHook with and without isMin. */
  datatype Kind = CheckedSum | WrappingSum | Min | Max

  function Combine(kind: Kind, accumulator: int, value: int): int {
    match kind
    case CheckedSum => accumulator + value
    case WrappingSum => Wrap(accumulator + value)
    case Min => if accumulator > value then value else accumulator
    case Max => if accumulator > value then accumulator else value
  }

  /** The values one after the other; a sum starts from zero. */
  function Combined(kind: Kind, values: seq<int>): int {
    if values == [] then 0
    else
      var last := values[|values| - 1];
      if |values| == 1 && (kind.Min? || kind.Max?) then last
      else Combine(kind, Combined(kind, values[..|values| - 1]), last)
  }

  function Total(values: seq<int>): int {
    if values == [] then 0 else Total(values[..|values| - 1]) + values[|values| - 1]
  }

  /** What the accumulators stand for. */
  lemma {:induction false} CombinedMeans(kind: Kind, values: seq<int>)
    ensures kind.CheckedSum? ==> Combined(kind, values) == Total(values)
    ensures kind.WrappingSum? ==> Combined(kind, values) == Wrap(Total(values))
    ensures kind.Min? && values != [] ==>
        Combined(kind, values) in values && forall v <- values :: Combined(kind, values) <= v
    ensures kind.Max? && values != [] ==>
        Combined(kind, values) in values && forall v <- values :: v <= Combined(kind, values)
  {
    if values != [] {
      var rest, last := values[..|values| - 1], values[|values| - 1];
      assert values == rest + [last];
      CombinedMeans(kind, rest);
    }
  }

  /** The values that the first `n` updates route to a group; an update is a row and a value. */
  ghost function Routed(groups: seq<GroupRow>, updates: seq<(nat, int)>, n: nat, group: GroupRow): seq<int>
    requires n <= |updates| && forall u <- updates :: u.0 < |groups|
  {
    if n == 0 then []
    else if groups[updates[n - 1].0] == group then Routed(groups, updates, n - 1, group) + [updates[n - 1].1]
    else Routed(groups, updates, n - 1, group)
  }

  /** A group is null when no value has come to it, and otherwise holds them combined. */
  ghost predicate Reflects(kind: Kind, bit: nat, group: GroupRow, values: seq<int>)
    reads group
  {
    && (bit in group.flags <==> values == [])
    && (values != [] || kind.CheckedSum? || kind.WrappingSum? ==> group.accumulator == Combined(kind, values))
  }

  class AggregationHook {
    const kind: Kind
    const groups: seq<GroupRow>
    const aggregate: Aggregate

    constructor (kind: Kind, groups: seq<GroupRow>, aggregate: Aggregate)
      ensures this.kind == kind && this.groups == groups && this.aggregate == aggregate
    {
      this.kind, this.groups, this.aggregate := kind, groups, aggregate;
    }

    /** `addValue`; a checked sum that overflows is an error. */
    method AddValue(row: nat, value: int, ghost values: seq<int>) returns (ok: bool)
      requires row < |groups| && groups[row] in aggregate.live && aggregate.Valid() && IsBigint(value)
      requires Reflects(kind, aggregate.nullBit, groups[row], values)
      modifies aggregate`numNulls, groups[row]
      ensures aggregate.Valid()
      ensures ok <==> kind.CheckedSum? ==> IsBigint(Combined(kind, values) + value)
      ensures Reflects(kind, aggregate.nullBit, groups[row], if ok then values + [value] else values)
    {
      var group := groups[row];
      var wasNull := aggregate.ClearNull(group);
      assert (values + [value])[..|values|] == values;
      ok := true;
      match kind
      case CheckedSum =>
        if !IsBigint(group.accumulator + value) {
          return false;
        }
        group.accumulator := group.accumulator + value;
      case WrappingSum =>
        group.accumulator := Wrap(group.accumulator + value);
      case Min =>
        if wasNull || (group.accumulator > value) == true {
          group.accumulator := value;
        }
      case Max =>
        if wasNull || (group.accumulator > value) == false {
          group.accumulator := value;
        }
    }

    /** The sum of a group goes past 64 bits at update `n`. */
    ghost predicate Overflows(updates: seq<(nat, int)>, n: nat)
      requires n < |updates| && forall u <- updates :: u.0 < |groups|
    {
      kind.CheckedSum? && !IsBigint(Total(Routed(groups, updates, n, groups[updates[n].0])) + updates[n].1)
    }

    /** The groups show the values that the first `n` updates route to them. */
    ghost predicate ReflectsAll(updates: seq<(nat, int)>, n: nat)
      requires n <= |updates| && forall u <- updates :: u.0 < |groups|
      reads groups
    {
      forall g <- groups :: Reflects(kind, aggregate.nullBit, g, Routed(groups, updates, n, g))
    }

    /** The next update: the other groups stay as they are. */
    method AddUpdate(updates: seq<(nat, int)>, n: nat) returns (ok: bool)
      requires aggregate.Valid() && (forall g <- groups :: g in aggregate.live) && n < |updates|
      requires forall u <- updates :: u.0 < |groups| && IsBigint(u.1)
      requires ReflectsAll(updates, n)
      modifies aggregate`numNulls, groups
      ensures aggregate.Valid() && (ok <==> !Overflows(updates, n))
      ensures ReflectsAll(updates, if ok then n + 1 else n)
    {
      var row, value := updates[n].0, updates[n].1;
      assert updates[n] in updates;
      ghost var values := Routed(groups, updates, n, groups[row]);
      CombinedMeans(kind, values);
      ok := AddValue(row, value, values);
      forall g | g in groups
        ensures Reflects(kind, aggregate.nullBit, g, Routed(groups, updates, if ok then n + 1 else n, g))
      {
        if g != groups[row] {
          assert old(Reflects(kind, aggregate.nullBit, g, Routed(groups, updates, n, g)));
        }
      }
    }

    /**
     Values decoded into all-null groups: up to the first overflow, each accumulator is the sum, minimum or maximum of
     the values routed to its group, and the group is null just when there were none.
     */
    method AddValues(updates: seq<(nat, int)>) returns (done: nat)
      requires aggregate.Valid() && forall g <- groups :: g in aggregate.live
      requires forall u <- updates :: u.0 < |groups| && IsBigint(u.1)
      requires forall g <- groups :: Reflects(kind, aggregate.nullBit, g, [])
      modifies aggregate`numNulls, groups
      ensures aggregate.Valid() && done <= |updates| && ReflectsAll(updates, done)
      ensures forall n :: 0 <= n < done ==> !Overflows(updates, n)
      ensures done < |updates| ==> Overflows(updates, done)
    {
      done := 0;
      while done < |updates|
        invariant aggregate.Valid() && done <= |updates| && ReflectsAll(updates, done)
        invariant forall n :: 0 <= n < done ==> !Overflows(updates, n)
      {
        var ok := AddUpdate(updates, done);
        if !ok {
          return;
        }
        done := done + 1;
      }
    }
  }
}
