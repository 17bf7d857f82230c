/**
 Unique row ids (velox/exec/AssignUniqueId.cpp and .h).  Operators of a task take blocks of row numbers from a shared
 counter, and an id is the row number with the task's id in the bits above it.
 */
module UniqueIds {

  /** kRowIdsPerRequest, kMaxRowId and kTaskUniqueIdLimit. */
  const ROW_IDS_PER_REQUEST := 0x10_0000
  const MAX_ROW_ID := 0x100_0000_0000
  const TASK_UNIQUE_ID_LIMIT := 0x100_0000

  // ----- bits -----

  function And(a: nat, b: nat): nat {
    if a == 0 || b == 0 then 0 else 2 * And(a / 2, b / 2) + if a % 2 == 1 && b % 2 == 1 then 1 else 0
  }

  function Or(a: nat, b: nat): nat {
    if a == 0 then b else if b == 0 then a else 2 * Or(a / 2, b / 2) + if a % 2 == 1 || b % 2 == 1 then 1 else 0
  }

  function ShiftLeft(x: nat, k: nat): nat {
    if k == 0 then x else 2 * ShiftLeft(x, k - 1)
  }

  function ShiftRight(x: nat, k: nat): nat {
    if k == 0 then x else ShiftRight(x / 2, k - 1)
  }

  /** Bits below the shift do not meet a number that is shifted. */
  lemma {:induction false} AndShifted(x: nat, t: nat, k: nat)
    ensures And(x, ShiftLeft(t, k)) == ShiftLeft(And(ShiftRight(x, k), t), k)
  {
    if k > 0 {
      AndShifted(x / 2, t, k - 1);
      var y := ShiftLeft(t, k - 1);
      assert And(x, 2 * y) == 2 * And(x / 2, y);
    }
  }

  /** Bits that do not meet add up. */
  lemma {:induction false} OrShifted(t: nat, c: nat, k: nat)
    requires ShiftRight(c, k) == 0
    ensures Or(ShiftLeft(t, k), c) == ShiftLeft(t, k) + c
  {
    if k > 0 {
      OrShifted(t, c / 2, k - 1);
    }
  }

  lemma TenLeft(x: nat, k: nat)
    ensures ShiftLeft(x, k + 10) == 1024 * ShiftLeft(x, k)
  {
    assert ShiftLeft(x, k + 2) == 2 * ShiftLeft(x, k + 1) && ShiftLeft(x, k + 4) == 2 * ShiftLeft(x, k + 3);
    assert ShiftLeft(x, k + 6) == 2 * ShiftLeft(x, k + 5) && ShiftLeft(x, k + 8) == 2 * ShiftLeft(x, k + 7);
    assert ShiftLeft(x, k + 10) == 2 * ShiftLeft(x, k + 9);
  }

  lemma FiveRight(x: nat, k: nat)
    ensures ShiftRight(x, k + 5) == ShiftRight(x / 32, k)
  {
    assert ShiftRight(x, k + 5) == ShiftRight(x / 2, k + 4) == ShiftRight(x / 2 / 2, k + 3);
    assert ShiftRight(x / 2 / 2, k + 3) == ShiftRight(x / 2 / 2 / 2, k + 2) == ShiftRight(x / 2 / 2 / 2 / 2, k + 1);
    assert ShiftRight(x / 2 / 2 / 2 / 2, k + 1) == ShiftRight(x / 2 / 2 / 2 / 2 / 2, k);
  }

  lemma TenRight(x: nat, k: nat)
    ensures ShiftRight(x, k + 10) == ShiftRight(x / 1024, k)
  {
    FiveRight(x, k + 5);
    FiveRight(x / 32, k);
  }

  lemma Forty(x: nat)
    ensures ShiftLeft(x, 40) == x * MAX_ROW_ID && ShiftRight(x, 40) == x / MAX_ROW_ID
  {
    TenLeft(x, 0);
    TenLeft(x, 10);
    TenLeft(x, 20);
    TenLeft(x, 30);
    TenRight(x, 30);
    TenRight(x / 1024, 20);
    TenRight(x / 1024 / 1024, 10);
    TenRight(x / 1024 / 1024 / 1024, 0);
  }

  // ----- one round of the loop -----

  datatype Operator = Operator(task: nat, counter: nat, max: nat)

  /**
   What one round of the loop of `generateIdColumn` does.  `Stalls`: there was nothing to give out and the check let
   it pass; the next request makes the number of rows to fill negative.
   */
  datatype Outcome =
    | Took(op: Operator, pool: nat, first: nat, count: nat)
    | RanOut(op: Operator, pool: nat)
    | Stalls(op: Operator, pool: nat)

  function Min(a: int, b: int): int {
    if a < b then a else b
  }

  /** uniqueValueMask_. */
  function Mask(task: nat): nat {
    ShiftLeft(task, 40)
  }

  function Requested(op: Operator, pool: nat): Operator {
    op.(counter := pool, max := Min(pool + ROW_IDS_PER_REQUEST, MAX_ROW_ID))
  }

  /** The operator after its request, if it makes one, and the row numbers it then has for this round. */
  function Ready(op: Operator, pool: nat): (Operator, int) {
    var op' := if op.counter >= op.max then Requested(op, pool) else op;
    (op', Min(op'.max - op'.counter, ROW_IDS_PER_REQUEST))
  }

  function Round(op: Operator, pool: nat, wanted: nat): Outcome {
    var (op', available) := Ready(op, pool);
    var pool' := if op.counter >= op.max then pool + ROW_IDS_PER_REQUEST else pool;
    // The check comes before anything else, also when nothing is available.
    var next := op'.counter + Min(wanted, available);
    if And(next, Mask(op.task)) != 0 then RanOut(op', pool')
    else if available <= 0 then Stalls(op', pool')
    else Took(op'.(counter := next), pool', Or(Mask(op.task), op'.counter), Min(wanted, available))
  }

  /** The check fails just when the last row number below the limit is taken by a task with an odd id. */
  lemma CheckFailsIff(task: nat, next: nat)
    requires next <= MAX_ROW_ID
    ensures And(next, Mask(task)) != 0 <==> next == MAX_ROW_ID && task % 2 == 1
  {
    AndShifted(next, task, 40);
    Forty(next);
    var bit := And(next / MAX_ROW_ID, task);
    Forty(bit);
    if next == MAX_ROW_ID {
      AndOne(task);
    }
  }

  lemma AndOne(task: nat)
    ensures And(1, task) == task % 2
  {
    assert And(0, task / 2) == 0;
  }

  /** The row number and the task's bits add up, without a carry. */
  lemma FirstId(task: nat, counter: nat)
    requires counter < MAX_ROW_ID
    ensures Or(Mask(task), counter) == task * MAX_ROW_ID + counter
  {
    Forty(counter);
    Forty(task);
    OrShifted(task, counter, 40);
  }

  // ----- the operator -----

  class RowIdPool {
    var value: nat

    constructor ()
      ensures value == 0
    {
      value := 0;
    }

    method FetchAdd(n: nat) returns (before: nat)
      modifies this
      ensures before == old(value) && value == old(value) + n
    {
      before := value;
      value := value + n;
    }
  }

  /** `Astray`: the loop has left its bounds. */
  datatype Column = Ids(ids: seq<int>) | Failed | Astray

  /** `first`, `first + 1`, ... */
  function Iota(first: int, n: nat): (s: seq<int>)
    ensures |s| == n && forall i :: 0 <= i < n ==> s[i] == first + i
  {
    seq(n, i => first + i)
  }

  /** The ids of `wanted` rows, round by round, after those of earlier rounds. */
  function Generated(op: Operator, pool: nat, wanted: nat, ids: seq<int>): (Column, Operator, nat)
    decreases wanted
  {
    if wanted == 0 then (Ids(ids), op, pool)
    else
      match Round(op, pool, wanted)
      case Took(op', pool', first, count) =>
        if 0 < count <= wanted then Generated(op', pool', wanted - count, ids + Iota(first, count))
        else (Astray, op', pool')
      case RanOut(op', pool') => (Failed, op', pool')
      case Stalls(op', pool') => (Astray, op', pool')
  }

  class AssignUniqueId {
    const task: nat
    const uniqueValueMask: nat
    const pool: RowIdPool
    var rowIdCounter: nat
    var maxRowIdCounterValue: nat

    ghost function State(): Operator
      reads this
    {
      Operator(task, rowIdCounter, maxRowIdCounterValue)
    }

    ghost predicate Valid()
      reads this
    {
      uniqueValueMask == Mask(task)
    }

    constructor (task: nat, pool: RowIdPool)
      requires task < TASK_UNIQUE_ID_LIMIT
      ensures Valid() && State() == Operator(task, 0, 0) && this.pool == pool
    {
      this.task, this.pool, uniqueValueMask := task, pool, ShiftLeft(task, 40);
      rowIdCounter, maxRowIdCounterValue := 0, 0;
    }

    method RequestRowIds()
      requires Valid()
      modifies this, pool
      ensures Valid() && State() == Requested(old(State()), old(pool.value))
          && pool.value == old(pool.value) + ROW_IDS_PER_REQUEST
    {
      rowIdCounter := pool.FetchAdd(ROW_IDS_PER_REQUEST);
      maxRowIdCounterValue := Min(rowIdCounter + ROW_IDS_PER_REQUEST, MAX_ROW_ID);
    }

    /** One round of the loop: the ids it appends, none if the check fails or there is nothing to give out. */
    method TakeRound(wanted: nat) returns (ids: Column)
      requires Valid()
      modifies this, pool
      ensures Valid()
      ensures match Round(old(State()), old(pool.value), wanted)
              case Took(op, value, first, count) =>
                ids == Ids(Iota(first, count)) && State() == op && pool.value == value
              case RanOut(op, value) => ids == Failed && State() == op && pool.value == value
              case Stalls(op, value) => ids == Astray && State() == op && pool.value == value
    {
      if rowIdCounter >= maxRowIdCounterValue {
        RequestRowIds();
      }
      var numAvailableIds := Min(maxRowIdCounterValue - rowIdCounter, ROW_IDS_PER_REQUEST);
      var n := Min(wanted, numAvailableIds);
      if And(rowIdCounter + n, uniqueValueMask) != 0 {
        return Failed;
      }
      if numAvailableIds <= 0 {
        return Astray;
      }
      ids := Ids(Iota(Or(uniqueValueMask, rowIdCounter), n));
      rowIdCounter := rowIdCounter + n;
    }

    /** `generateIdColumn`; a loop that would go out of its bounds is left with `Astray`. */
    method GenerateIdColumn(size: nat) returns (column: Column)
      requires Valid()
      modifies this, pool
      ensures Valid() && (column, State(), pool.value) == Generated(old(State()), old(pool.value), size, [])
    {
      var ids: seq<int> := [];
      while |ids| < size
        invariant |ids| <= size && Valid()
        invariant Generated(State(), pool.value, size - |ids|, ids)
            == Generated(old(State()), old(pool.value), size, [])
        decreases size - |ids|
      {
        var round := TakeRound(size - |ids|);
        if !round.Ids? {
          return round;
        }
        ids := ids + round.ids;
      }
      return Ids(ids);
    }
  }

  // ----- how a column ends -----

  /**
   The blocks of an operator come from the pool, in whole requests, below the limit.  The pool is not so far past the
   limit that the 32-bit index of the last row to fill, which then counts down from the first, would wrap around.
   */
  predicate Placed(op: Operator, pool: nat) {
    op.max <= pool && op.max <= MAX_ROW_ID && pool % ROW_IDS_PER_REQUEST == 0 && pool <= MAX_ROW_ID + 0x8000_0000
  }

  function Left(op: Operator): nat {
    if op.counter < op.max then op.max - op.counter else 0
  }

  /** Without other operators: the row numbers that are left to this one. */
  function Total(op: Operator, pool: nat): nat {
    Left(op) + if pool < MAX_ROW_ID then MAX_ROW_ID - pool else 0
  }

  /** The last row number of all is among the `wanted`, and is this operator's to take. */
  predicate TakesLast(op: Operator, pool: nat, wanted: nat) {
    wanted > 0 && wanted >= Total(op, pool) && (pool < MAX_ROW_ID || (Left(op) > 0 && op.max == MAX_ROW_ID))
  }

  /**
   How a column ends.  A task with an odd id fails if the numbers run out, or if it is to have the very last one; a
   task with an even id goes astray if they run out; otherwise there is a column of the size asked for.
   */
  lemma {:induction false} ColumnOutcome(op: Operator, pool: nat, wanted: nat, ids: seq<int>)
    requires Placed(op, pool)
    ensures var column := Generated(op, pool, wanted, ids).0;
            && (column.Failed? <==> op.task % 2 == 1 && (TakesLast(op, pool, wanted) || wanted > Total(op, pool)))
            && (column.Astray? <==> op.task % 2 == 0 && wanted > Total(op, pool))
            && (column.Ids? ==> |column.ids| == |ids| + wanted)
    decreases wanted
  {
    if wanted > 0 {
      RoundOutcome(op, pool, wanted);
      var round := Round(op, pool, wanted);
      if round.Took? {
        ColumnOutcome(round.op, round.pool, wanted - round.count, ids + Iota(round.first, round.count));
      }
    }
  }

  lemma RoundOutcome(op: Operator, pool: nat, wanted: nat)
    requires Placed(op, pool) && wanted > 0
    ensures var round := Round(op, pool, wanted);
            && (round.Stalls? <==> op.task % 2 == 0 && Total(op, pool) == 0)
            && (round.RanOut? ==> op.task % 2 == 1 && (TakesLast(op, pool, wanted) || Total(op, pool) == 0))
            && (round.Took? ==>
                  && 0 < round.count <= wanted && Placed(round.op, round.pool) && round.op.task == op.task
                  && Total(round.op, round.pool) == Total(op, pool) - round.count
                  && (op.task % 2 == 1 && wanted <= Total(op, pool) ==>
                        (TakesLast(op, pool, wanted) <==> TakesLast(round.op, round.pool, wanted - round.count))))
  {
    RoundEnds(op, pool, wanted);
    if Round(op, pool, wanted).Took? {
      RoundTakes(op, pool, wanted);
    }
  }

  /** A round that asks gets a whole block below the limit, or nothing. */
  lemma ReadyPlaced(op: Operator, pool: nat)
    requires Placed(op, pool)
    ensures var (op', available) := Ready(op, pool);
            && op'.counter + available <= op'.max <= MAX_ROW_ID && (available <= 0 <==> Total(op, pool) == 0)
            && (available <= 0 ==> op'.counter + available == MAX_ROW_ID)
            && (op.counter >= op.max && available > 0 ==> pool + ROW_IDS_PER_REQUEST <= MAX_ROW_ID)
  {
  }

  lemma RoundEnds(op: Operator, pool: nat, wanted: nat)
    requires Placed(op, pool) && wanted > 0
    ensures var round := Round(op, pool, wanted);
            && (round.Stalls? <==> op.task % 2 == 0 && Total(op, pool) == 0)
            && (round.RanOut? ==> op.task % 2 == 1 && (TakesLast(op, pool, wanted) || Total(op, pool) == 0))
  {
    var (op', available) := Ready(op, pool);
    ReadyPlaced(op, pool);
    CheckFailsIff(op.task, op'.counter + Min(wanted, available));
  }

  lemma RoundTakes(op: Operator, pool: nat, wanted: nat)
    requires Placed(op, pool) && wanted > 0 && Round(op, pool, wanted).Took?
    ensures var round := Round(op, pool, wanted);
            && 0 < round.count <= wanted && Placed(round.op, round.pool) && round.op.task == op.task
            && Total(round.op, round.pool) == Total(op, pool) - round.count
            && (op.task % 2 == 1 && wanted <= Total(op, pool) ==>
                  (TakesLast(op, pool, wanted) <==> TakesLast(round.op, round.pool, wanted - round.count)))
  {
    var (op', available) := Ready(op, pool);
    ReadyPlaced(op, pool);
    CheckFailsIff(op.task, op'.counter + Min(wanted, available));
    var n := Min(wanted, available);
    if op.counter >= op.max {
      TakesAfterRequest(op, pool, wanted, n);
    } else {
      TakesFromBlock(op, pool, wanted, n);
    }
  }

  /** Row numbers out of a new block. */
  lemma TakesAfterRequest(op: Operator, pool: nat, wanted: nat, n: nat)
    requires Placed(op, pool) && op.counter >= op.max && pool + ROW_IDS_PER_REQUEST <= MAX_ROW_ID
    requires 0 < n <= wanted && n <= ROW_IDS_PER_REQUEST && (n < wanted ==> n == ROW_IDS_PER_REQUEST)
    requires op.task % 2 == 1 ==> pool + n != MAX_ROW_ID
    ensures var op' := Operator(op.task, pool + n, pool + ROW_IDS_PER_REQUEST);
            var pool' := pool + ROW_IDS_PER_REQUEST;
            && Placed(op', pool') && Total(op', pool') == Total(op, pool) - n
            && (op.task % 2 == 1 && wanted <= Total(op, pool) ==>
                  (TakesLast(op, pool, wanted) <==> TakesLast(op', pool', wanted - n)))
  {
  }

  /** Row numbers out of the block at hand. */
  lemma TakesFromBlock(op: Operator, pool: nat, wanted: nat, n: nat)
    requires Placed(op, pool) && op.counter < op.max
    requires 0 < n <= wanted && op.counter + n <= op.max
    requires n < wanted ==> n == ROW_IDS_PER_REQUEST || op.counter + n == op.max
    requires op.task % 2 == 1 ==> op.counter + n != MAX_ROW_ID
    ensures var op' := op.(counter := op.counter + n);
            && Placed(op', pool) && Total(op', pool) == Total(op, pool) - n
            && (op.task % 2 == 1 && wanted <= Total(op, pool) ==>
                  (TakesLast(op, pool, wanted) <==> TakesLast(op', pool, wanted - n)))
  {
  }

  /** With the pool at its limit, a task with an odd id fails and one with an even id goes astray. */
  lemma ExhaustedPool(task: nat)
    ensures Generated(Operator(task, 0, 0), MAX_ROW_ID, 1, []).0 == if task % 2 == 1 then Failed else Astray
  {
    ColumnOutcome(Operator(task, 0, 0), MAX_ROW_ID, 1, []);
  }

  // ----- tasks whose operators run together -----

  /** The operators of a task share a pool; `ids` are all they have given out, in the order they did. */
  datatype Task = Task(id: nat, pool: nat, operators: seq<Operator>, ids: seq<int>)

  /** An operator of a task goes round its loop, with `wanted` rows still to number. */
  datatype Step = Step(task: nat, operator: nat, wanted: nat)

  function Advance(t: Task, o: nat, wanted: nat): Task
    requires o < |t.operators|
  {
    match Round(t.operators[o], t.pool, wanted)
    case Took(op, pool, first, count) => Task(t.id, pool, t.operators[o := op], t.ids + Iota(first, count))
    case RanOut(op, pool) => t.(pool := pool, operators := t.operators[o := op])
    case Stalls(op, pool) => t.(pool := pool, operators := t.operators[o := op])
  }

  /** The steps of a run, in any order the tasks and their operators are scheduled. */
  function After(tasks: seq<Task>, steps: seq<Step>, n: nat): (after: seq<Task>)
    requires n <= |steps|
    ensures |after| == |tasks|
  {
    if n == 0 then tasks
    else
      var before, step := After(tasks, steps, n - 1), steps[n - 1];
      if step.task < |before| && step.operator < |before[step.task].operators| then
        before[step.task := Advance(before[step.task], step.operator, step.wanted)]
      else before
  }

  /** The row number in an id. */
  function Row(task: nat, id: int): int {
    id - task * MAX_ROW_ID
  }

  predicate Holds(op: Operator, row: int) {
    op.counter <= row < op.max
  }

  /** No two operators hold the same row number, and none holds one that has been given out. */
  ghost predicate TaskInv(t: Task) {
    && (forall o :: 0 <= o < |t.operators| ==>
          t.operators[o].task == t.id && t.operators[o].max <= t.pool && t.operators[o].max <= MAX_ROW_ID)
    && (forall o, p, row :: 0 <= o < p < |t.operators| && Holds(t.operators[o], row) ==> !Holds(t.operators[p], row))
    && (forall i :: 0 <= i < |t.ids| ==> GivenOut(t, t.ids[i]))
    && (forall i, j :: 0 <= i < j < |t.ids| ==> t.ids[i] != t.ids[j])
  }

  ghost predicate GivenOut(t: Task, id: int) {
    && 0 <= Row(t.id, id) < MAX_ROW_ID && Row(t.id, id) < t.pool
    && forall o :: 0 <= o < |t.operators| ==> !Holds(t.operators[o], Row(t.id, id))
  }

  /** `RequestRowIds` of operator `o`. */
  function AfterRequest(t: Task, o: nat): Task
    requires o < |t.operators|
  {
    t.(pool := t.pool + ROW_IDS_PER_REQUEST, operators := t.operators[o := Requested(t.operators[o], t.pool)])
  }

  lemma RequestKeeps(t: Task, o: nat)
    requires TaskInv(t) && o < |t.operators| && t.operators[o].counter >= t.operators[o].max
    ensures TaskInv(AfterRequest(t, o))
  {
    var t' := AfterRequest(t, o);
    forall i | 0 <= i < |t'.ids| ensures GivenOut(t', t'.ids[i]) {
      assert GivenOut(t, t.ids[i]);
    }
  }

  /** Operator `o` gives out `n` of the numbers it holds. */
  function AfterGiving(t: Task, o: nat, n: nat): Task
    requires o < |t.operators|
  {
    var op := t.operators[o];
    t.(operators := t.operators[o := op.(counter := op.counter + n)],
       ids := t.ids + Iota(t.id * MAX_ROW_ID + op.counter, n))
  }

  lemma GivingKeeps(t: Task, o: nat, n: nat)
    requires TaskInv(t) && o < |t.operators| && n <= t.operators[o].max - t.operators[o].counter
    ensures TaskInv(AfterGiving(t, o, n))
  {
    var op, t' := t.operators[o], AfterGiving(t, o, n);
    forall i | 0 <= i < |t'.ids| ensures GivenOut(t', t'.ids[i]) {
      if i < |t.ids| {
        assert GivenOut(t, t.ids[i]);
      } else {
        assert Row(t.id, t'.ids[i]) == op.counter + (i - |t.ids|) && Holds(op, Row(t.id, t'.ids[i]));
      }
    }
    forall i, j | 0 <= i < j < |t'.ids| ensures t'.ids[i] != t'.ids[j] {
      if i < |t.ids| <= j {
        assert GivenOut(t, t.ids[i]) && Holds(op, Row(t.id, t'.ids[j]));
      }
    }
  }

  lemma AdvanceKeeps(t: Task, o: nat, wanted: nat)
    requires TaskInv(t) && o < |t.operators|
    ensures TaskInv(Advance(t, o, wanted)) && Advance(t, o, wanted).id == t.id
  {
    var op := t.operators[o];
    var t' := if op.counter >= op.max then AfterRequest(t, o) else t;
    if op.counter >= op.max {
      RequestKeeps(t, o);
    }
    var round := Round(op, t.pool, wanted);
    if round.Took? {
      FirstId(op.task, t'.operators[o].counter);
      GivingKeeps(t', o, round.count);
      assert Advance(t, o, wanted) == AfterGiving(t', o, round.count);
    } else {
      assert t.operators[o := op] == t.operators;
      assert Advance(t, o, wanted) == t';
    }
  }

  /** Tasks at the start: pools at zero, and operators that hold nothing. */
  ghost predicate Fresh(tasks: seq<Task>) {
    && (forall t :: 0 <= t < |tasks| ==>
          && tasks[t].id < TASK_UNIQUE_ID_LIMIT && tasks[t].pool == 0 && tasks[t].ids == []
          && forall o :: 0 <= o < |tasks[t].operators| ==> tasks[t].operators[o] == Operator(tasks[t].id, 0, 0))
    && (forall t, u :: 0 <= t < u < |tasks| ==> tasks[t].id != tasks[u].id)
  }

  lemma {:induction false} RunKeeps(tasks: seq<Task>, steps: seq<Step>, n: nat)
    requires Fresh(tasks) && n <= |steps|
    ensures forall t :: 0 <= t < |tasks| ==>
        TaskInv(After(tasks, steps, n)[t]) && After(tasks, steps, n)[t].id == tasks[t].id
  {
    if n > 0 {
      RunKeeps(tasks, steps, n - 1);
      var before, step := After(tasks, steps, n - 1), steps[n - 1];
      if step.task < |before| && step.operator < |before[step.task].operators| {
        AdvanceKeeps(before[step.task], step.operator, step.wanted);
      }
    }
  }

  /**
   Ids are unique over all tasks and operators, however they are scheduled: different, below 2^64, and with the
   task's id above bit 40.
   */
  lemma AllDistinct(tasks: seq<Task>, steps: seq<Step>, t: nat, i: nat, u: nat, j: nat)
    requires Fresh(tasks) && t < |tasks| && u < |tasks|
    requires var after := After(tasks, steps, |steps|); i < |after[t].ids| && j < |after[u].ids|
    ensures var after := After(tasks, steps, |steps|);
            && (after[t].ids[i] == after[u].ids[j] ==> t == u && i == j)
            && after[t].ids[i] / MAX_ROW_ID == tasks[t].id && 0 <= after[t].ids[i] < MAX_ROW_ID * TASK_UNIQUE_ID_LIMIT
  {
    RunKeeps(tasks, steps, |steps|);
    var after := After(tasks, steps, |steps|);
    assert GivenOut(after[t], after[t].ids[i]) && GivenOut(after[u], after[u].ids[j]);
    assert after[t].ids[i] / MAX_ROW_ID == tasks[t].id && after[u].ids[j] / MAX_ROW_ID == tasks[u].id;
  }
}
