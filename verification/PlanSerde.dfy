/**
 Serialisation of plan nodes and back (velox/core/PlanNode.cpp).

 Several nodes do not keep the names they were given: a window node, an unnest node, a row-number node and
 a unique-id node only keep their output type, and `serialize` recovers the names by slicing it.
 */
module PlanSerde {
  import opened Options
  import opened TypedExpressions
  import opened ExpressionSerde
  import opened PlanNodes

  // ----- lists -----

  function SerializeEach<T>(xs: seq<T>, serialize: T -> Dyn): (ds: seq<Dyn>)
    ensures |ds| == |xs|
  {
    seq(|xs|, i requires 0 <= i < |xs| => serialize(xs[i]))
  }

  function CreateEach<T>(ds: seq<Dyn>, create: Dyn -> Option<T>): Option<seq<T>> {
    if ds == [] then Some([])
    else
      var x, rest := create(ds[0]), CreateEach(ds[1..], create);
      if x.None? || rest.None? then None else Some([x.value] + rest.value)
  }

  function GetEach<T>(fields: map<Key, Dyn>, key: Key, create: Dyn -> Option<T>): Option<seq<T>> {
    var ds := GetArray(fields, key);
    if ds.None? then None else CreateEach(ds.value, create)
  }

  /** A list comes back if every element of it does. */
  lemma {:induction false} EachBack<T>(xs: seq<T>, serialize: T -> Dyn, create: Dyn -> Option<T>, restorable: T -> bool)
    requires forall x <- xs :: create(serialize(x)) == if restorable(x) then Some(x) else None
    ensures CreateEach(SerializeEach(xs, serialize), create)
         == if forall x <- xs :: restorable(x) then Some(xs) else None
  {
    if xs != [] {
      assert xs[0] in xs && forall x <- xs[1..] :: x in xs;
      EachBack(xs[1..], serialize, create, restorable);
      assert SerializeEach(xs, serialize)[1..] == SerializeEach(xs[1..], serialize);
      assert xs == [xs[0]] + xs[1..];
    }
  }

  // ----- serialising -----

  function SerializeString(s: string): Dyn {
    Str(s)
  }

  function SerializeInt(n: int): Dyn {
    Int(n)
  }

  function SerializeType(t: Type): Dyn {
    SerializedType(t)
  }

  function SerializeOrder(o: SortOrder): Dyn {
    Obj(map[Ascending := Bool(o.ascending), NullsFirst := Bool(o.nullsFirst)])
  }

  function SerializeOption(key: Key, e: Option<Expr>): map<Key, Dyn> {
    if e.Some? then map[key := Serialize(e.value)] else map[]
  }

  function SerializeAggregate(a: Aggregate): Dyn {
    Obj(map[CallKey := Serialize(a.call), RawInputTypes := Arr(SerializeEach(a.rawInputTypes, SerializeType)),
            SortingKeys := Arr(SerializeAll(a.sortingKeys)),
            SortingOrders := Arr(SerializeEach(a.sortingOrders, SerializeOrder)), Distinct := Bool(a.distinct)]
        + SerializeOption(Mask, a.mask))
  }

  function SerializeFrame(f: Frame): Dyn {
    Obj(map[FrameType := Str(WindowTypeName(f.frameType)), StartType := Str(BoundTypeName(f.startType)),
            EndType := Str(BoundTypeName(f.endType))]
        + SerializeOption(StartValue, f.startValue) + SerializeOption(EndValue, f.endValue))
  }

  function SerializeFunction(f: WindowFunction): Dyn {
    Obj(map[FunctionCall := Serialize(f.call), FrameKey := SerializeFrame(f.frame), IgnoreNulls := Bool(f.ignoreNulls)])
  }

  /** The names of a row from column `from` on. */
  function NamesFrom(row: Row, from: nat): seq<string> {
    if from <= |row.names| then row.names[from..] else []
  }

  /** `names().back()`, when there are more names than in the input. */
  function LastName(row: Row, input: Row): Option<string> {
    if |row.names| > |input.names| then Some(row.names[|row.names| - 1]) else None
  }

  /** The names of the unnested columns, recovered from the output type. */
  function UnnestNamesOf(replicated: nat, withOrdinality: bool, output: Row): seq<string> {
    var end := |output.names| - if withOrdinality then 1 else 0;
    if replicated <= end then output.names[replicated..end] else []
  }

  function OptionalString(key: Key, s: Option<string>): map<Key, Dyn> {
    if s.Some? then map[key := Str(s.value)] else map[]
  }

  function OptionalInt(key: Key, n: Option<int>): map<Key, Dyn> {
    if n.Some? then map[key := Int(n.value)] else map[]
  }

  function SerializeVector(vector: (Row, int)): Dyn {
    SerializedVector(RowType(vector.0.names, vector.0.types), vector.1)
  }

  function ValuesFields(p: Plan): map<Key, Dyn>
    requires p.Values?
  {
    map[Data := Arr(SerializeEach(p.vectors, SerializeVector)), Parallelizable := Bool(p.parallelizable),
        RepeatTimes := Int(p.repeatTimes)]
  }

  function FilterFields(filter: Expr): map<Key, Dyn> {
    map[Filter_ := Serialize(filter)]
  }

  function ProjectFields(names: seq<string>, projections: seq<Expr>): map<Key, Dyn> {
    map[Names := Arr(SerializeEach(names, SerializeString)), Projections := Arr(SerializeAll(projections))]
  }

  function AggregationFields(p: Plan): map<Key, Dyn>
    requires p.Aggregation?
  {
    map[Step := Str(StepName(p.step)), GroupingKeys := Arr(SerializeAll(p.groupingKeys)),
        PreGroupedKeys := Arr(SerializeAll(p.preGroupedKeys)),
        AggregateNames := Arr(SerializeEach(p.aggregateNames, SerializeString)),
        Aggregates := Arr(SerializeEach(p.aggregates, SerializeAggregate)),
        GlobalGroupingSets := Arr(SerializeEach(p.globalGroupingSets, SerializeInt)),
        IgnoreNullKeys := Bool(p.ignoreNullKeys)]
    + SerializeOption(GroupId, p.groupId)
  }

  function UnnestFields(p: Plan): map<Key, Dyn>
    requires p.Unnest?
  {
    var names := p.outputType.names;
    map[ReplicateVariables := Arr(SerializeAll(p.replicateVariables)),
        UnnestVariables := Arr(SerializeAll(p.unnestVariables)),
        UnnestNames :=
          Arr(SerializeEach(UnnestNamesOf(|p.replicateVariables|, p.withOrdinality, p.outputType), SerializeString))]
    + OptionalString(OrdinalityName, if p.withOrdinality && names != [] then Some(names[|names| - 1]) else None)
  }

  function AssignUniqueIdFields(p: Plan): map<Key, Dyn>
    requires p.AssignUniqueId?
  {
    map[TaskUniqueId := Int(p.taskUniqueId)] + OptionalString(IdName, LastName(p.outputType, Row([], [])))
  }

  function WindowFields(p: Plan): map<Key, Dyn>
    requires p.Window?
  {
    map[PartitionKeys := Arr(SerializeAll(p.partitionKeys)), SortingKeys := Arr(SerializeAll(p.sortingKeys)),
        SortingOrders := Arr(SerializeEach(p.sortingOrders, SerializeOrder)),
        Functions := Arr(SerializeEach(p.functions, SerializeFunction)),
        Names := Arr(SerializeEach(NamesFrom(p.outputType, |OutputType(p.source).names|), SerializeString)),
        InputsSorted := Bool(p.inputsSorted)]
  }

  function RowNumberFields(p: Plan): map<Key, Dyn>
    requires p.RowNumber?
  {
    map[PartitionKeys := Arr(SerializeAll(p.partitionKeys))]
    + OptionalString(RowNumberColumnName, LastName(p.outputType, OutputType(p.source))) + OptionalInt(Limit, p.limit)
  }

  function TopNRowNumberFields(p: Plan): map<Key, Dyn>
    requires p.TopNRowNumber?
  {
    map[PartitionKeys := Arr(SerializeAll(p.partitionKeys)), SortingKeys := Arr(SerializeAll(p.sortingKeys)),
        SortingOrders := Arr(SerializeEach(p.sortingOrders, SerializeOrder)), Limit := Int(p.topNLimit)]
    + OptionalString(RowNumberColumnName, LastName(p.outputType, OutputType(p.source)))
  }

  function HashJoinFields(p: Plan): map<Key, Dyn>
    requires p.HashJoin?
  {
    map[JoinTypeKey := Str(JoinTypeName(p.joinType)), NullAware := Bool(p.nullAware),
        LeftKeys := Arr(SerializeAll(p.leftKeys)), RightKeys := Arr(SerializeAll(p.rightKeys)),
        OutputType_ := SerializedType(RowType(p.outputType.names, p.outputType.types))]
    + SerializeOption(Filter_, p.joinFilter)
  }

  function NodeFields(p: Plan): map<Key, Dyn> {
    match p
    case Values(_, _, _, _) => ValuesFields(p)
    case Filter(_, filter, _) => FilterFields(filter)
    case Project(_, names, projections, _) => ProjectFields(names, projections)
    case Aggregation(_, _, _, _, _, _, _, _, _, _) => AggregationFields(p)
    case Unnest(_, _, _, _, _, _) => UnnestFields(p)
    case AssignUniqueId(_, _, _, _) => AssignUniqueIdFields(p)
    case Window(_, _, _, _, _, _, _, _) => WindowFields(p)
    case RowNumber(_, _, _, _, _) => RowNumberFields(p)
    case TopNRowNumber(_, _, _, _, _, _, _) => TopNRowNumberFields(p)
    case HashJoin(_, _, _, _, _, _, _, _, _) => HashJoinFields(p)
  }

  function ClassOf(p: Plan): Class {
    match p
    case Values(_, _, _, _) => ValuesNode
    case Filter(_, _, _) => FilterNode
    case Project(_, _, _, _) => ProjectNode
    case Aggregation(_, _, _, _, _, _, _, _, _, _) => AggregationNode
    case Unnest(_, _, _, _, _, _) => UnnestNode
    case AssignUniqueId(_, _, _, _) => AssignUniqueIdNode
    case Window(_, _, _, _, _, _, _, _) => WindowNode
    case RowNumber(_, _, _, _, _) => RowNumberNode
    case TopNRowNumber(_, _, _, _, _, _, _) => TopNRowNumberNode
    case HashJoin(_, _, _, _, _, _, _, _, _) => HashJoinNode
  }

  /** `PlanNode::serialize`: what every node writes. */
  function Base(c: Class, id: string, sources: seq<Dyn>): map<Key, Dyn> {
    map[Name := ClassName(c), Id := Str(id)] + if sources == [] then map[] else map[Sources := Arr(sources)]
  }

  function SerializePlan(p: Plan): Dyn {
    Obj(NodeFields(p) + Base(ClassOf(p), p.id, SerializeSources(p)))
  }

  function SerializeSources(p: Plan): seq<Dyn>
    decreases p, 0
  {
    match p
    case Values(_, _, _, _) => []
    case HashJoin(_, _, _, _, _, _, left, right, _) => [SerializePlan(left), SerializePlan(right)]
    case _ => [SerializePlan(p.source)]
  }

  // ----- creating -----

  function CreateString(d: Dyn): Option<string> {
    if d.Str? then Some(d.s) else None
  }

  function CreateInt(d: Dyn): Option<int> {
    if d.Int? then Some(d.n) else None
  }

  function CreateType(d: Dyn): Option<Type> {
    if d.SerializedType? then Some(d.t) else None
  }

  function CreateOrder(d: Dyn): Option<SortOrder> {
    if !d.Obj? then None
    else
      var ascending, nullsFirst := GetBool(d.fields, Ascending), GetBool(d.fields, NullsFirst);
      if ascending.None? || nullsFirst.None? then None else Some(SortOrder(ascending.value, nullsFirst.value))
  }

  function GetExprs(fields: map<Key, Dyn>, key: Key, pool: bool): Option<seq<Expr>> {
    var ds := GetArray(fields, key);
    if ds.None? then None else CreateAll(ds.value, pool)
  }

  /** An optional expression: absent, or there and creatable. */
  function GetOption(fields: map<Key, Dyn>, key: Key, pool: bool): Option<Option<Expr>> {
    if key !in fields then Some(None)
    else
      var e := Create(fields[key], pool);
      if e.None? then None else Some(Some(e.value))
  }

  function GetOptionalString(fields: map<Key, Dyn>, key: Key): Option<Option<string>> {
    if key !in fields then Some(None)
    else
      var s := GetString(fields, key);
      if s.None? then None else Some(Some(s.value))
  }

  function GetExpr(fields: map<Key, Dyn>, key: Key, pool: bool): Option<Expr> {
    if key in fields then Create(fields[key], pool) else None
  }

  /** `Aggregate::deserialize` passes the context on for the sorting keys only. */
  function CreateAggregate(pool: bool): Dyn -> Option<Aggregate> {
    (d: Dyn) =>
      if !d.Obj? then None
      else
        var call := GetExpr(d.fields, CallKey, false);
        var rawInputTypes := GetEach(d.fields, RawInputTypes, CreateType);
        var mask := GetOption(d.fields, Mask, false);
        var keys, orders := GetExprs(d.fields, SortingKeys, pool), GetEach(d.fields, SortingOrders, CreateOrder);
        var distinct := GetBool(d.fields, Distinct);
        if call.None? || !call.value.Call? || rawInputTypes.None? || mask.None? || keys.None? || orders.None?
           || distinct.None?
        then None
        else Some(Aggregate(call.value, rawInputTypes.value, mask.value, keys.value, orders.value, distinct.value))
  }

  function GetBound(fields: map<Key, Dyn>, key: Key): Option<BoundType> {
    var name := GetString(fields, key);
    if name.None? then None else BoundTypeFromName(name.value)
  }

  function GetWindowType(fields: map<Key, Dyn>): Option<WindowType> {
    var name := GetString(fields, FrameType);
    if name.None? then None else WindowTypeFromName(name.value)
  }

  function GetStep(fields: map<Key, Dyn>): Option<AggregationStep> {
    var name := GetString(fields, Step);
    if name.None? then None else StepFromName(name.value)
  }

  /** `Frame::deserialize` takes no context. */
  function CreateFrame(d: Dyn): Option<Frame> {
    if !d.Obj? then None
    else
      var frameType, startType, endType :=
          GetWindowType(d.fields), GetBound(d.fields, StartType), GetBound(d.fields, EndType);
      var startValue, endValue := GetOption(d.fields, StartValue, false), GetOption(d.fields, EndValue, false);
      if frameType.None? || startType.None? || endType.None? || startValue.None? || endValue.None? then None
      else Some(Frame(frameType.value, startType.value, startValue.value, endType.value, endValue.value))
  }

  /** `Function::deserialize` takes no context. */
  function CreateFunction(d: Dyn): Option<WindowFunction> {
    if !d.Obj? then None
    else
      var call := GetExpr(d.fields, FunctionCall, false);
      var frame := if FrameKey in d.fields then CreateFrame(d.fields[FrameKey]) else None;
      var ignoreNulls := GetBool(d.fields, IgnoreNulls);
      if call.None? || !call.value.Call? || frame.None? || ignoreNulls.None? then None
      else Some(WindowFunction(call.value, frame.value, ignoreNulls.value))
  }

  function CreatePlan(d: Dyn, pool: bool): Option<Plan>
    decreases d, 1
  {
    if !d.Obj? || Name !in d.fields || !d.fields[Name].ClassName? then None
    else
      var id := GetString(d.fields, Id);
      if id.None? then None
      else if d.fields[Name].c == ValuesNode then CreateValues(d.fields, id.value, pool)
      else if Sources !in d.fields || !d.fields[Sources].Arr? then None
      else if d.fields[Name].c == HashJoinNode then CreateJoin(d, id.value, pool)
      // deserializeSingleSource
      else if |d.fields[Sources].items| != 1 then None
      else
        var source, create := CreatePlan(d.fields[Sources].items[0], pool), CreatorOf(d.fields[Name].c);
        if source.None? || create.None? then None else create.value(d.fields, id.value, source.value, pool)
  }

  function CreateJoin(d: Dyn, id: string, pool: bool): Option<Plan>
    requires d.Obj? && Sources in d.fields && d.fields[Sources].Arr?
    decreases d, 0
  {
    if |d.fields[Sources].items| != 2 then None
    else
      var left, right := CreatePlan(d.fields[Sources].items[0], pool), CreatePlan(d.fields[Sources].items[1], pool);
      if left.None? || right.None? then None else CreateHashJoin(d.fields, id, left.value, right.value, pool)
  }

  type Creator = (map<Key, Dyn>, string, Plan, bool) -> Option<Plan>

  /** The registry of `create` functions by class name. */
  function CreatorOf(c: Class): Option<Creator> {
    match c
    case FilterNode => Some(CreateFilter)
    case ProjectNode => Some(CreateProject)
    case AggregationNode => Some(CreateAggregation)
    case UnnestNode => Some(CreateUnnest)
    case AssignUniqueIdNode => Some(CreateAssignUniqueId)
    case WindowNode => Some(CreateWindow)
    case RowNumberNode => Some(CreateRowNumber)
    case TopNRowNumberNode => Some(CreateTopNRowNumber)
    case _ => None
  }

  /** `restoreVector` needs a pool. */
  function CreateVector(pool: bool): Dyn -> Option<(Row, int)> {
    (d: Dyn) =>
      if d.SerializedVector? && d.vectorType.RowType? && pool
      then Some((Row(d.vectorType.names, d.vectorType.children), d.payload)) else None
  }

  function CreateValues(fields: map<Key, Dyn>, id: string, pool: bool): Option<Plan> {
    var vectors := GetEach(fields, Data, CreateVector(pool));
    var parallelizable, repeatTimes := GetBool(fields, Parallelizable), GetInt(fields, RepeatTimes);
    if Sources in fields && fields[Sources] != Arr([]) then None
    else if vectors.None? || parallelizable.None? || repeatTimes.None? then None
    else Some(Values(id, vectors.value, parallelizable.value, repeatTimes.value))
  }

  function GetJoinType(fields: map<Key, Dyn>): Option<JoinType> {
    var name := GetString(fields, JoinTypeKey);
    if name.None? then None else JoinTypeFromName(name.value)
  }

  function GetRow(fields: map<Key, Dyn>, key: Key): Option<Row> {
    var t := GetType(fields, key);
    if t.None? || !t.value.RowType? then None else Some(Row(t.value.names, t.value.children))
  }

  /** `HashJoinNode::create` passes the context on for the keys, but not for the filter. */
  function CreateHashJoin(fields: map<Key, Dyn>, id: string, left: Plan, right: Plan, pool: bool): Option<Plan> {
    var joinType, nullAware := GetJoinType(fields), GetBool(fields, NullAware);
    var leftKeys, rightKeys := GetExprs(fields, LeftKeys, pool), GetExprs(fields, RightKeys, pool);
    var filter, output := GetOption(fields, Filter_, false), GetRow(fields, OutputType_);
    if joinType.None? || nullAware.None? || leftKeys.None? || rightKeys.None? || filter.None? || output.None? then None
    else NewHashJoin(id, joinType.value, nullAware.value, leftKeys.value, rightKeys.value, filter.value, left, right,
                     output.value)
  }

  /** `FilterNode::create` passes no context on to its expression. */
  function CreateFilter(fields: map<Key, Dyn>, id: string, source: Plan, pool: bool): Option<Plan> {
    var filter := GetExpr(fields, Filter_, false);
    if filter.None? then None else NewFilter(id, filter.value, source)
  }

  function CreateProject(fields: map<Key, Dyn>, id: string, source: Plan, pool: bool): Option<Plan> {
    var names, projections := GetEach(fields, Names, CreateString), GetExprs(fields, Projections, pool);
    if names.None? || projections.None? then None else NewProject(id, names.value, projections.value, source)
  }

  function CreateAggregation(fields: map<Key, Dyn>, id: string, source: Plan, pool: bool): Option<Plan> {
    var step := GetStep(fields);
    var keys, preGrouped := GetExprs(fields, GroupingKeys, pool), GetExprs(fields, PreGroupedKeys, pool);
    var names, aggregates :=
        GetEach(fields, AggregateNames, CreateString), GetEach(fields, Aggregates, CreateAggregate(pool));
    var sets, groupId := GetEach(fields, GlobalGroupingSets, CreateInt), GetOption(fields, GroupId, pool);
    var ignoreNullKeys := GetBool(fields, IgnoreNullKeys);
    if step.None? || keys.None? || preGrouped.None? || names.None? || aggregates.None? || sets.None? || groupId.None?
       || ignoreNullKeys.None? then None
    else NewAggregation(id, step.value, keys.value, preGrouped.value, names.value, aggregates.value, sets.value,
                        groupId.value, ignoreNullKeys.value, source)
  }

  function CreateUnnest(fields: map<Key, Dyn>, id: string, source: Plan, pool: bool): Option<Plan> {
    var replicate, unnest := GetExprs(fields, ReplicateVariables, pool), GetExprs(fields, UnnestVariables, pool);
    var names, ordinality := GetEach(fields, UnnestNames, CreateString), GetOptionalString(fields, OrdinalityName);
    if replicate.None? || unnest.None? || names.None? || ordinality.None? then None
    else NewUnnest(id, replicate.value, unnest.value, names.value, ordinality.value, source)
  }

  function CreateAssignUniqueId(fields: map<Key, Dyn>, id: string, source: Plan, pool: bool): Option<Plan> {
    var name, task := GetString(fields, IdName), GetInt(fields, TaskUniqueId);
    if name.None? || task.None? then None else NewAssignUniqueId(id, name.value, task.value, source)
  }

  function CreateWindow(fields: map<Key, Dyn>, id: string, source: Plan, pool: bool): Option<Plan> {
    var partitionKeys, sortingKeys := GetExprs(fields, PartitionKeys, pool), GetExprs(fields, SortingKeys, pool);
    var orders, functions := GetEach(fields, SortingOrders, CreateOrder), GetEach(fields, Functions, CreateFunction);
    var names, inputsSorted := GetEach(fields, Names, CreateString), GetBool(fields, InputsSorted);
    if partitionKeys.None? || sortingKeys.None? || orders.None? || functions.None? || names.None? || inputsSorted.None?
    then None
    else NewWindow(id, partitionKeys.value, sortingKeys.value, orders.value, names.value, functions.value,
                   inputsSorted.value, source)
  }

  function CreateRowNumber(fields: map<Key, Dyn>, id: string, source: Plan, pool: bool): Option<Plan> {
    var partitionKeys, name := GetExprs(fields, PartitionKeys, pool), GetOptionalString(fields, RowNumberColumnName);
    if partitionKeys.None? || name.None? then None
    else if Limit in fields && !fields[Limit].Int? then None
    else NewRowNumber(id, partitionKeys.value, name.value, GetInt(fields, Limit), source)
  }

  function CreateTopNRowNumber(fields: map<Key, Dyn>, id: string, source: Plan, pool: bool): Option<Plan> {
    var partitionKeys, sortingKeys := GetExprs(fields, PartitionKeys, pool), GetExprs(fields, SortingKeys, pool);
    var orders, name := GetEach(fields, SortingOrders, CreateOrder), GetOptionalString(fields, RowNumberColumnName);
    var limit := GetInt(fields, Limit);
    if partitionKeys.None? || sortingKeys.None? || orders.None? || name.None? || limit.None? then None
    else NewTopNRowNumber(id, partitionKeys.value, sortingKeys.value, orders.value, name.value, limit.value, source)
  }
}
