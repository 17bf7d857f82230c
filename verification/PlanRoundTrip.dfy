/**
 Creating a plan back from its serialised form (velox/core/PlanNode.cpp).

 Constants held in vectors need a memory pool to come back, and some of the `create` functions do not pass the
 context that holds it on.  `PlanRoundTrip` says exactly which plans come back.
 */
module PlanRoundTrip {
  import opened Options
  import opened TypedExpressions
  import opened ExpressionSerde
  import opened PlanNodes
  import opened PlanSerde

  // ----- what comes back -----

  predicate OptionRestorable(e: Option<Expr>, pool: bool) {
    e.Some? ==> Restorable(e.value, pool)
  }

  /** The call and the mask are created without a pool, whatever the caller has. */
  predicate AggregateRestorable(a: Aggregate, pool: bool) {
    Restorable(a.call, false) && OptionRestorable(a.mask, false) && AllRestorable(a.sortingKeys, pool)
  }

  predicate FunctionRestorable(f: WindowFunction) {
    && Restorable(f.call, false)
    && OptionRestorable(f.frame.startValue, false) && OptionRestorable(f.frame.endValue, false)
  }

  /** What `create` can restore of a node itself: vectors need a pool, which the context must reach. */
  predicate NodeRestorable(p: Plan, pool: bool) {
    match p
    case Values(_, vectors, _, _) => vectors != [] ==> pool
    case Filter(_, filter, _) => Restorable(filter, false)
    case Project(_, _, projections, _) => AllRestorable(projections, pool)
    case Aggregation(_, _, keys, preGrouped, _, aggregates, _, groupId, _, _) =>
      && AllRestorable(keys, pool) && AllRestorable(preGrouped, pool) && OptionRestorable(groupId, pool)
      && forall a <- aggregates :: AggregateRestorable(a, pool)
    case Unnest(_, replicate, unnest, _, _, _) => AllRestorable(replicate, pool) && AllRestorable(unnest, pool)
    case AssignUniqueId(_, _, _, _) => true
    case Window(_, partitionKeys, sortingKeys, _, functions, _, _, _) =>
      && AllRestorable(partitionKeys, pool) && AllRestorable(sortingKeys, pool)
      && forall f <- functions :: FunctionRestorable(f)
    case RowNumber(_, partitionKeys, _, _, _) => AllRestorable(partitionKeys, pool)
    case TopNRowNumber(_, partitionKeys, sortingKeys, _, _, _, _) =>
      AllRestorable(partitionKeys, pool) && AllRestorable(sortingKeys, pool)
    case HashJoin(_, _, _, leftKeys, rightKeys, filter, _, _, _) =>
      AllRestorable(leftKeys, pool) && AllRestorable(rightKeys, pool) && OptionRestorable(filter, false)
  }

  predicate PlanRestorable(p: Plan, pool: bool) {
    && NodeRestorable(p, pool)
    && match p
       case Values(_, _, _, _) => true
       case HashJoin(_, _, _, _, _, _, left, right, _) => PlanRestorable(left, pool) && PlanRestorable(right, pool)
       case _ => PlanRestorable(p.source, pool)
  }

  /** The nodes over one source. */
  predicate HasSource(p: Plan) {
    !p.Values? && !p.HashJoin?
  }

  function Restored(p: Plan, pool: bool): Option<Plan> {
    if NodeRestorable(p, pool) then Some(p) else None
  }

  // ----- fields come back -----

  predicate Has(fields: map<Key, Dyn>, key: Key, d: Dyn) {
    key in fields && fields[key] == d
  }

  lemma ExprsBack(fields: map<Key, Dyn>, key: Key, es: seq<Expr>, pool: bool)
    requires AllWellFormed(es) && Has(fields, key, Arr(SerializeAll(es)))
    ensures GetExprs(fields, key, pool) == if AllRestorable(es, pool) then Some(es) else None
  {
    var parent := Call(BIGINT, es, "");
    assert forall e :: e in parent.inputs ==> e < parent;
    CreateAllSerialized(parent, es, pool);
  }

  lemma OptionBack(fields: map<Key, Dyn>, key: Key, e: Option<Expr>, pool: bool)
    requires OptionWellFormed(e)
    requires if e.Some? then Has(fields, key, Serialize(e.value)) else key !in fields
    ensures GetOption(fields, key, pool) == if OptionRestorable(e, pool) then Some(e) else None
  {
    if e.Some? {
      RoundTrip(e.value, pool);
    }
  }

  lemma ExprBack(fields: map<Key, Dyn>, key: Key, e: Expr, pool: bool)
    requires WellFormed(e) && Has(fields, key, Serialize(e))
    ensures GetExpr(fields, key, pool) == if Restorable(e, pool) then Some(e) else None
  {
    RoundTrip(e, pool);
  }

  lemma StringsBack(fields: map<Key, Dyn>, key: Key, ss: seq<string>)
    requires Has(fields, key, Arr(SerializeEach(ss, SerializeString)))
    ensures GetEach(fields, key, CreateString) == Some(ss)
  {
    EachBack(ss, SerializeString, CreateString, _ => true);
  }

  lemma IntsBack(fields: map<Key, Dyn>, key: Key, ns: seq<int>)
    requires Has(fields, key, Arr(SerializeEach(ns, SerializeInt)))
    ensures GetEach(fields, key, CreateInt) == Some(ns)
  {
    EachBack(ns, SerializeInt, CreateInt, _ => true);
  }

  lemma TypesBack(fields: map<Key, Dyn>, key: Key, ts: seq<Type>)
    requires Has(fields, key, Arr(SerializeEach(ts, SerializeType)))
    ensures GetEach(fields, key, CreateType) == Some(ts)
  {
    EachBack(ts, SerializeType, CreateType, _ => true);
  }

  lemma OrdersBack(fields: map<Key, Dyn>, key: Key, os: seq<SortOrder>)
    requires Has(fields, key, Arr(SerializeEach(os, SerializeOrder)))
    ensures GetEach(fields, key, CreateOrder) == Some(os)
  {
    EachBack(os, SerializeOrder, CreateOrder, _ => true);
  }

  predicate HasAggregate(fields: map<Key, Dyn>, a: Aggregate) {
    && Has(fields, CallKey, Serialize(a.call))
    && Has(fields, RawInputTypes, Arr(SerializeEach(a.rawInputTypes, SerializeType)))
    && (if a.mask.Some? then Has(fields, Mask, Serialize(a.mask.value)) else Mask !in fields)
    && Has(fields, SortingKeys, Arr(SerializeAll(a.sortingKeys)))
    && Has(fields, SortingOrders, Arr(SerializeEach(a.sortingOrders, SerializeOrder)))
    && Has(fields, Distinct, Bool(a.distinct))
  }

  lemma AggregateCreated(fields: map<Key, Dyn>, a: Aggregate, pool: bool)
    requires AggregateWellFormed(a) && HasAggregate(fields, a)
    ensures CreateAggregate(pool)(Obj(fields)) == if AggregateRestorable(a, pool) then Some(a) else None
  {
    ExprBack(fields, CallKey, a.call, false);
    TypesBack(fields, RawInputTypes, a.rawInputTypes);
    OptionBack(fields, Mask, a.mask, false);
    ExprsBack(fields, SortingKeys, a.sortingKeys, pool);
    OrdersBack(fields, SortingOrders, a.sortingOrders);
  }

  lemma AggregateBack(a: Aggregate, pool: bool)
    requires AggregateWellFormed(a)
    ensures CreateAggregate(pool)(SerializeAggregate(a)) == if AggregateRestorable(a, pool) then Some(a) else None
  {
    AggregateCreated(SerializeAggregate(a).fields, a, pool);
  }

  lemma AggregatesBack(fields: map<Key, Dyn>, key: Key, aggregates: seq<Aggregate>, pool: bool)
    requires forall a <- aggregates :: AggregateWellFormed(a)
    requires Has(fields, key, Arr(SerializeEach(aggregates, SerializeAggregate)))
    ensures GetEach(fields, key, CreateAggregate(pool))
         == if forall a <- aggregates :: AggregateRestorable(a, pool) then Some(aggregates) else None
  {
    forall a | a in aggregates
      ensures CreateAggregate(pool)(SerializeAggregate(a)) == if AggregateRestorable(a, pool) then Some(a) else None
    {
      AggregateBack(a, pool);
    }
    EachBack(aggregates, SerializeAggregate, CreateAggregate(pool), a => AggregateRestorable(a, pool));
  }

  lemma BoundBack(fields: map<Key, Dyn>, key: Key, b: BoundType)
    requires Has(fields, key, Str(BoundTypeName(b)))
    ensures GetBound(fields, key) == Some(b)
  {
    NamesInvert(Partial, Rows, b);
  }

  lemma WindowTypeBack(fields: map<Key, Dyn>, t: WindowType)
    requires Has(fields, FrameType, Str(WindowTypeName(t)))
    ensures GetWindowType(fields) == Some(t)
  {
    NamesInvert(Partial, t, CurrentRow);
  }

  lemma StepBack(fields: map<Key, Dyn>, step: AggregationStep)
    requires Has(fields, Step, Str(StepName(step)))
    ensures GetStep(fields) == Some(step)
  {
    NamesInvert(step, Rows, CurrentRow);
  }

  lemma FrameBack(f: Frame)
    requires OptionWellFormed(f.startValue) && OptionWellFormed(f.endValue)
    ensures CreateFrame(SerializeFrame(f))
         == if OptionRestorable(f.startValue, false) && OptionRestorable(f.endValue, false) then Some(f) else None
  {
    var fields := SerializeFrame(f).fields;
    WindowTypeBack(fields, f.frameType);
    BoundBack(fields, StartType, f.startType);
    BoundBack(fields, EndType, f.endType);
    OptionBack(fields, StartValue, f.startValue, false);
    OptionBack(fields, EndValue, f.endValue, false);
  }

  lemma FunctionBack(f: WindowFunction)
    requires FunctionWellFormed(f)
    ensures CreateFunction(SerializeFunction(f)) == if FunctionRestorable(f) then Some(f) else None
  {
    ExprBack(SerializeFunction(f).fields, FunctionCall, f.call, false);
    FrameBack(f.frame);
  }

  lemma FunctionsBack(fields: map<Key, Dyn>, key: Key, fs: seq<WindowFunction>)
    requires forall f <- fs :: FunctionWellFormed(f)
    requires Has(fields, key, Arr(SerializeEach(fs, SerializeFunction)))
    ensures GetEach(fields, key, CreateFunction) == if forall f <- fs :: FunctionRestorable(f) then Some(fs) else None
  {
    forall f | f in fs
      ensures CreateFunction(SerializeFunction(f)) == if FunctionRestorable(f) then Some(f) else None
    {
      FunctionBack(f);
    }
    EachBack(fs, SerializeFunction, CreateFunction, FunctionRestorable);
  }

  // ----- nodes come back -----

  /** The fields every node writes. */
  predicate IsBase(base: map<Key, Dyn>) {
    base.Keys <= {Name, Id, Sources}
  }

  /** Over a source that has come back, the `create` function of a node's class makes the node. */
  predicate ComesBack(p: Plan, base: map<Key, Dyn>, pool: bool)
    requires HasSource(p)
  {
    var create := CreatorOf(ClassOf(p));
    create.Some? && create.value(NodeFields(p) + base, p.id, p.source, pool) == Restored(p, pool)
  }

  lemma FilterBack(p: Plan, base: map<Key, Dyn>, pool: bool)
    requires IsBase(base) && p.Filter? && WellFormed(p.filter) && NewFilter(p.id, p.filter, p.source) == Some(p)
    ensures ComesBack(p, base, pool)
  {
    ExprBack(FilterFields(p.filter) + base, Filter_, p.filter, false);
    assert CreateFilter(FilterFields(p.filter) + base, p.id, p.source, pool) == Restored(p, pool);
  }

  lemma ProjectBack(p: Plan, base: map<Key, Dyn>, pool: bool)
    requires IsBase(base) && p.Project? && AllWellFormed(p.projections)
    requires NewProject(p.id, p.names, p.projections, p.source) == Some(p)
    ensures ComesBack(p, base, pool)
  {
    var fields := ProjectFields(p.names, p.projections) + base;
    StringsBack(fields, Names, p.names);
    ExprsBack(fields, Projections, p.projections, pool);
    assert CreateProject(ProjectFields(p.names, p.projections) + base, p.id, p.source, pool) == Restored(p, pool);
  }

  predicate HasAggregation(fields: map<Key, Dyn>, p: Plan)
    requires p.Aggregation?
  {
    && Has(fields, Step, Str(StepName(p.step)))
    && Has(fields, GroupingKeys, Arr(SerializeAll(p.groupingKeys)))
    && Has(fields, PreGroupedKeys, Arr(SerializeAll(p.preGroupedKeys)))
    && Has(fields, AggregateNames, Arr(SerializeEach(p.aggregateNames, SerializeString)))
    && Has(fields, Aggregates, Arr(SerializeEach(p.aggregates, SerializeAggregate)))
    && Has(fields, GlobalGroupingSets, Arr(SerializeEach(p.globalGroupingSets, SerializeInt)))
    && Has(fields, IgnoreNullKeys, Bool(p.ignoreNullKeys))
    && if p.groupId.Some? then Has(fields, GroupId, Serialize(p.groupId.value)) else GroupId !in fields
  }

  lemma AggregationCreated(fields: map<Key, Dyn>, p: Plan, pool: bool)
    requires p.Aggregation? && ExpressionsWellFormed(p) && HasAggregation(fields, p)
    ensures CreateAggregation(fields, p.id, p.source, pool) ==
      if NodeRestorable(p, pool) then
        NewAggregation(p.id, p.step, p.groupingKeys, p.preGroupedKeys, p.aggregateNames, p.aggregates,
                       p.globalGroupingSets, p.groupId, p.ignoreNullKeys, p.source)
      else None
  {
    StepBack(fields, p.step);
    ExprsBack(fields, GroupingKeys, p.groupingKeys, pool);
    ExprsBack(fields, PreGroupedKeys, p.preGroupedKeys, pool);
    StringsBack(fields, AggregateNames, p.aggregateNames);
    AggregatesBack(fields, Aggregates, p.aggregates, pool);
    IntsBack(fields, GlobalGroupingSets, p.globalGroupingSets);
    OptionBack(fields, GroupId, p.groupId, pool);
  }

  lemma AggregationFieldsWritten(p: Plan)
    requires p.Aggregation?
    ensures HasAggregation(AggregationFields(p), p)
  {
  }

  lemma AggregationOverBase(fields: map<Key, Dyn>, p: Plan, base: map<Key, Dyn>)
    requires IsBase(base) && p.Aggregation? && HasAggregation(fields, p)
    ensures HasAggregation(fields + base, p)
  {
  }

  lemma AggregationWritten(p: Plan, base: map<Key, Dyn>)
    requires IsBase(base) && p.Aggregation?
    ensures HasAggregation(AggregationFields(p) + base, p)
  {
    AggregationFieldsWritten(p);
    AggregationOverBase(AggregationFields(p), p, base);
  }

  lemma AggregationMade(p: Plan, base: map<Key, Dyn>, pool: bool)
    requires IsBase(base) && p.Aggregation? && ExpressionsWellFormed(p)
    requires NewAggregation(p.id, p.step, p.groupingKeys, p.preGroupedKeys, p.aggregateNames, p.aggregates,
                            p.globalGroupingSets, p.groupId, p.ignoreNullKeys, p.source) == Some(p)
    ensures CreateAggregation(AggregationFields(p) + base, p.id, p.source, pool) == Restored(p, pool)
  {
    AggregationWritten(p, base);
    AggregationCreated(AggregationFields(p) + base, p, pool);
  }

  lemma AggregationBack(p: Plan, base: map<Key, Dyn>, pool: bool)
    requires IsBase(base) && p.Aggregation? && ExpressionsWellFormed(p)
    requires NewAggregation(p.id, p.step, p.groupingKeys, p.preGroupedKeys, p.aggregateNames, p.aggregates,
                            p.globalGroupingSets, p.groupId, p.ignoreNullKeys, p.source) == Some(p)
    ensures ComesBack(p, base, pool)
  {
    assert CreatorOf(ClassOf(p)) == Some(CreateAggregation) && NodeFields(p) == AggregationFields(p);
    AggregationMade(p, base, pool);
  }

  /** The names given to an unnest node come back out of its output type, up to those it uses. */
  lemma UnnestNamesBack(replicate: seq<Expr>, unnest: seq<Expr>, names: seq<string>, ordinality: Option<string>)
    requires |UnnestedTypes(unnest)| <= |names|
    ensures var row := UnnestOutput(replicate, unnest, names, ordinality);
            var recovered := UnnestNamesOf(|replicate|, ordinality.Some?, row);
            && recovered == names[..|UnnestedTypes(unnest)|]
            && UnnestOutput(replicate, unnest, recovered, ordinality) == row
            && (ordinality.Some? ==> row.names != [] && row.names[|row.names| - 1] == ordinality.value)
  {
    var row := UnnestOutput(replicate, unnest, names, ordinality);
    var recovered := UnnestNamesOf(|replicate|, ordinality.Some?, row);
    assert recovered == names[..|UnnestedTypes(unnest)|];
    assert recovered[..|recovered|] == recovered;
  }

  predicate HasUnnest(fields: map<Key, Dyn>, p: Plan, ordinality: Option<string>)
    requires p.Unnest?
  {
    && Has(fields, ReplicateVariables, Arr(SerializeAll(p.replicateVariables)))
    && Has(fields, UnnestVariables, Arr(SerializeAll(p.unnestVariables)))
    && Has(fields, UnnestNames,
           Arr(SerializeEach(UnnestNamesOf(|p.replicateVariables|, p.withOrdinality, p.outputType), SerializeString)))
    && GetOptionalString(fields, OrdinalityName) == Some(ordinality)
  }

  lemma UnnestWritten(p: Plan, base: map<Key, Dyn>, ordinality: Option<string>)
    requires IsBase(base) && p.Unnest? && p.withOrdinality == ordinality.Some?
    requires ordinality.Some? ==>
      p.outputType.names != [] && p.outputType.names[|p.outputType.names| - 1] == ordinality.value
    ensures HasUnnest(UnnestFields(p) + base, p, ordinality)
  {
  }

  lemma UnnestMade(p: Plan, base: map<Key, Dyn>, names: seq<string>, ordinality: Option<string>, pool: bool)
    requires IsBase(base) && p.Unnest? && ExpressionsWellFormed(p)
    requires NewUnnest(p.id, p.replicateVariables, p.unnestVariables, names, ordinality, p.source) == Some(p)
    ensures CreateUnnest(UnnestFields(p) + base, p.id, p.source, pool) == Restored(p, pool)
  {
    UnnestNamesBack(p.replicateVariables, p.unnestVariables, names, ordinality);
    UnnestWritten(p, base, ordinality);
    UnnestCreated(UnnestFields(p) + base, p, ordinality, pool);
  }

  lemma UnnestBack(p: Plan, base: map<Key, Dyn>, names: seq<string>, ordinality: Option<string>, pool: bool)
    requires IsBase(base) && p.Unnest? && ExpressionsWellFormed(p)
    requires NewUnnest(p.id, p.replicateVariables, p.unnestVariables, names, ordinality, p.source) == Some(p)
    ensures ComesBack(p, base, pool)
  {
    assert CreatorOf(ClassOf(p)) == Some(CreateUnnest) && NodeFields(p) == UnnestFields(p);
    UnnestMade(p, base, names, ordinality, pool);
  }

  lemma UnnestCreated(fields: map<Key, Dyn>, p: Plan, ordinality: Option<string>, pool: bool)
    requires p.Unnest? && ExpressionsWellFormed(p)
    requires HasUnnest(fields, p, ordinality)
    ensures CreateUnnest(fields, p.id, p.source, pool) ==
      if NodeRestorable(p, pool) then
        NewUnnest(p.id, p.replicateVariables, p.unnestVariables,
                  UnnestNamesOf(|p.replicateVariables|, p.withOrdinality, p.outputType), ordinality, p.source)
      else None
  {
    StringsBack(fields, UnnestNames, UnnestNamesOf(|p.replicateVariables|, p.withOrdinality, p.outputType));
    ExprsBack(fields, ReplicateVariables, p.replicateVariables, pool);
    ExprsBack(fields, UnnestVariables, p.unnestVariables, pool);
  }

  lemma AssignUniqueIdBack(p: Plan, base: map<Key, Dyn>, name: string, pool: bool)
    requires IsBase(base) && p.AssignUniqueId?
    requires NewAssignUniqueId(p.id, name, p.taskUniqueId, p.source) == Some(p)
    ensures ComesBack(p, base, pool)
  {
    assert LastName(p.outputType, Row([], [])) == Some(name);
    assert CreateAssignUniqueId(AssignUniqueIdFields(p) + base, p.id, p.source, pool) == Restored(p, pool);
  }

  predicate HasWindow(fields: map<Key, Dyn>, p: Plan, names: seq<string>)
    requires p.Window?
  {
    && Has(fields, PartitionKeys, Arr(SerializeAll(p.partitionKeys)))
    && Has(fields, SortingKeys, Arr(SerializeAll(p.sortingKeys)))
    && Has(fields, SortingOrders, Arr(SerializeEach(p.sortingOrders, SerializeOrder)))
    && Has(fields, Functions, Arr(SerializeEach(p.functions, SerializeFunction)))
    && Has(fields, Names, Arr(SerializeEach(names, SerializeString)))
    && Has(fields, InputsSorted, Bool(p.inputsSorted))
  }

  lemma WindowCreated(fields: map<Key, Dyn>, p: Plan, names: seq<string>, pool: bool)
    requires p.Window? && ExpressionsWellFormed(p) && HasWindow(fields, p, names)
    ensures CreateWindow(fields, p.id, p.source, pool) ==
      if NodeRestorable(p, pool) then
        NewWindow(p.id, p.partitionKeys, p.sortingKeys, p.sortingOrders, names, p.functions, p.inputsSorted, p.source)
      else None
  {
    StringsBack(fields, Names, names);
    ExprsBack(fields, PartitionKeys, p.partitionKeys, pool);
    ExprsBack(fields, SortingKeys, p.sortingKeys, pool);
    OrdersBack(fields, SortingOrders, p.sortingOrders);
    FunctionsBack(fields, Functions, p.functions);
  }

  lemma WindowWritten(p: Plan, base: map<Key, Dyn>)
    requires IsBase(base) && p.Window?
    ensures HasWindow(WindowFields(p) + base, p, NamesFrom(p.outputType, |OutputType(p.source).names|))
  {
  }

  lemma WindowMade(p: Plan, base: map<Key, Dyn>, names: seq<string>, pool: bool)
    requires IsBase(base) && p.Window? && ExpressionsWellFormed(p)
    requires NewWindow(p.id, p.partitionKeys, p.sortingKeys, p.sortingOrders, names, p.functions, p.inputsSorted,
                       p.source) == Some(p)
    ensures CreateWindow(WindowFields(p) + base, p.id, p.source, pool) == Restored(p, pool)
  {
    assert NamesFrom(p.outputType, |OutputType(p.source).names|) == names;
    WindowWritten(p, base);
    WindowCreated(WindowFields(p) + base, p, names, pool);
  }

  lemma WindowBack(p: Plan, base: map<Key, Dyn>, names: seq<string>, pool: bool)
    requires IsBase(base) && p.Window? && ExpressionsWellFormed(p)
    requires NewWindow(p.id, p.partitionKeys, p.sortingKeys, p.sortingOrders, names, p.functions, p.inputsSorted,
                       p.source) == Some(p)
    ensures ComesBack(p, base, pool)
  {
    assert CreatorOf(ClassOf(p)) == Some(CreateWindow) && NodeFields(p) == WindowFields(p);
    WindowMade(p, base, names, pool);
  }

  lemma RowNumberWritten(p: Plan, base: map<Key, Dyn>)
    requires IsBase(base) && p.RowNumber?
    ensures var fields := RowNumberFields(p) + base;
            && Has(fields, PartitionKeys, Arr(SerializeAll(p.partitionKeys)))
            && GetOptionalString(fields, RowNumberColumnName) == Some(LastName(p.outputType, OutputType(p.source)))
            && (if p.limit.Some? then Has(fields, Limit, Int(p.limit.value)) else Limit !in fields)
  {
  }

  lemma RowNumberMade(p: Plan, base: map<Key, Dyn>, name: Option<string>, pool: bool)
    requires IsBase(base) && p.RowNumber? && ExpressionsWellFormed(p)
    requires NewRowNumber(p.id, p.partitionKeys, name, p.limit, p.source) == Some(p)
    ensures CreateRowNumber(RowNumberFields(p) + base, p.id, p.source, pool) == Restored(p, pool)
  {
    var fields := RowNumberFields(p) + base;
    assert LastName(p.outputType, OutputType(p.source)) == name;
    RowNumberWritten(p, base);
    ExprsBack(fields, PartitionKeys, p.partitionKeys, pool);
  }

  lemma RowNumberBack(p: Plan, base: map<Key, Dyn>, name: Option<string>, pool: bool)
    requires IsBase(base) && p.RowNumber? && ExpressionsWellFormed(p)
    requires NewRowNumber(p.id, p.partitionKeys, name, p.limit, p.source) == Some(p)
    ensures ComesBack(p, base, pool)
  {
    assert CreatorOf(ClassOf(p)) == Some(CreateRowNumber) && NodeFields(p) == RowNumberFields(p);
    RowNumberMade(p, base, name, pool);
  }

  predicate HasTopN(fields: map<Key, Dyn>, p: Plan, name: Option<string>)
    requires p.TopNRowNumber?
  {
    && Has(fields, PartitionKeys, Arr(SerializeAll(p.partitionKeys)))
    && Has(fields, SortingKeys, Arr(SerializeAll(p.sortingKeys)))
    && Has(fields, SortingOrders, Arr(SerializeEach(p.sortingOrders, SerializeOrder)))
    && Has(fields, Limit, Int(p.topNLimit))
    && GetOptionalString(fields, RowNumberColumnName) == Some(name)
  }

  lemma TopNRowNumberWritten(p: Plan, base: map<Key, Dyn>)
    requires IsBase(base) && p.TopNRowNumber?
    ensures HasTopN(TopNRowNumberFields(p) + base, p, LastName(p.outputType, OutputType(p.source)))
  {
  }

  lemma TopNRowNumberCreated(fields: map<Key, Dyn>, p: Plan, name: Option<string>, pool: bool)
    requires p.TopNRowNumber? && ExpressionsWellFormed(p) && HasTopN(fields, p, name)
    ensures CreateTopNRowNumber(fields, p.id, p.source, pool) ==
      if NodeRestorable(p, pool) then
        NewTopNRowNumber(p.id, p.partitionKeys, p.sortingKeys, p.sortingOrders, name, p.topNLimit, p.source)
      else None
  {
    ExprsBack(fields, PartitionKeys, p.partitionKeys, pool);
    ExprsBack(fields, SortingKeys, p.sortingKeys, pool);
    OrdersBack(fields, SortingOrders, p.sortingOrders);
  }

  lemma TopNRowNumberMade(p: Plan, base: map<Key, Dyn>, name: Option<string>, pool: bool)
    requires IsBase(base) && p.TopNRowNumber? && ExpressionsWellFormed(p)
    requires NewTopNRowNumber(p.id, p.partitionKeys, p.sortingKeys, p.sortingOrders, name, p.topNLimit, p.source)
        == Some(p)
    ensures CreateTopNRowNumber(TopNRowNumberFields(p) + base, p.id, p.source, pool) == Restored(p, pool)
  {
    assert LastName(p.outputType, OutputType(p.source)) == name;
    TopNRowNumberWritten(p, base);
    TopNRowNumberCreated(TopNRowNumberFields(p) + base, p, name, pool);
  }

  lemma TopNRowNumberBack(p: Plan, base: map<Key, Dyn>, name: Option<string>, pool: bool)
    requires IsBase(base) && p.TopNRowNumber? && ExpressionsWellFormed(p)
    requires NewTopNRowNumber(p.id, p.partitionKeys, p.sortingKeys, p.sortingOrders, name, p.topNLimit, p.source)
        == Some(p)
    ensures ComesBack(p, base, pool)
  {
    assert CreatorOf(ClassOf(p)) == Some(CreateTopNRowNumber) && NodeFields(p) == TopNRowNumberFields(p);
    TopNRowNumberMade(p, base, name, pool);
  }

  lemma NodeBack(p: Plan, base: map<Key, Dyn>, pool: bool)
    requires IsBase(base) && Constructed(p) && HasSource(p)
    ensures ComesBack(p, base, pool)
  {
    match p
    case Filter(_, _, _) => FilterBack(p, base, pool);
    case Project(_, _, _, _) => ProjectBack(p, base, pool);
    case Aggregation(_, _, _, _, _, _, _, _, _, _) => AggregationBack(p, base, pool);
    case Unnest(id, replicate, unnest, _, source, _) =>
      var names, ordinality :| NewUnnest(id, replicate, unnest, names, ordinality, source) == Some(p);
      UnnestBack(p, base, names, ordinality, pool);
    case AssignUniqueId(id, task, source, _) =>
      var name :| NewAssignUniqueId(id, name, task, source) == Some(p);
      AssignUniqueIdBack(p, base, name, pool);
    case Window(id, keys, sortingKeys, orders, functions, sorted, source, _) =>
      var names :| NewWindow(id, keys, sortingKeys, orders, names, functions, sorted, source) == Some(p);
      WindowBack(p, base, names, pool);
    case RowNumber(id, keys, limit, source, _) =>
      var name :| NewRowNumber(id, keys, name, limit, source) == Some(p);
      RowNumberBack(p, base, name, pool);
    case TopNRowNumber(id, keys, sortingKeys, orders, limit, source, _) =>
      var name :| NewTopNRowNumber(id, keys, sortingKeys, orders, name, limit, source) == Some(p);
      TopNRowNumberBack(p, base, name, pool);
  }

  predicate HasJoin(fields: map<Key, Dyn>, p: Plan)
    requires p.HashJoin?
  {
    && Has(fields, JoinTypeKey, Str(JoinTypeName(p.joinType)))
    && Has(fields, NullAware, Bool(p.nullAware))
    && Has(fields, LeftKeys, Arr(SerializeAll(p.leftKeys)))
    && Has(fields, RightKeys, Arr(SerializeAll(p.rightKeys)))
    && Has(fields, OutputType_, SerializedType(RowType(p.outputType.names, p.outputType.types)))
    && if p.joinFilter.Some? then Has(fields, Filter_, Serialize(p.joinFilter.value)) else Filter_ !in fields
  }

  lemma JoinWritten(p: Plan, base: map<Key, Dyn>)
    requires IsBase(base) && p.HashJoin?
    ensures HasJoin(HashJoinFields(p) + base, p)
  {
  }

  lemma JoinCreated(fields: map<Key, Dyn>, p: Plan, pool: bool)
    requires p.HashJoin? && ExpressionsWellFormed(p) && HasJoin(fields, p)
    ensures CreateHashJoin(fields, p.id, p.left, p.right, pool) ==
      if NodeRestorable(p, pool) then
        NewHashJoin(p.id, p.joinType, p.nullAware, p.leftKeys, p.rightKeys, p.joinFilter, p.left, p.right, p.outputType)
      else None
  {
    JoinTypeNamesInvert(p.joinType);
    ExprsBack(fields, LeftKeys, p.leftKeys, pool);
    ExprsBack(fields, RightKeys, p.rightKeys, pool);
    OptionBack(fields, Filter_, p.joinFilter, false);
  }

  /** Over two sources that have come back, the join does, unless its filter holds a vector. */
  lemma JoinBack(p: Plan, base: map<Key, Dyn>, pool: bool)
    requires IsBase(base) && p.HashJoin? && Constructed(p)
    ensures CreateHashJoin(NodeFields(p) + base, p.id, p.left, p.right, pool) == Restored(p, pool)
  {
    JoinWritten(p, base);
    JoinCreated(HashJoinFields(p) + base, p, pool);
  }

  lemma DispatchJoin(fields: map<Key, Dyn>, id: string, left: Dyn, right: Dyn, pool: bool)
    requires Has(fields, Name, ClassName(HashJoinNode)) && Has(fields, Id, Str(id))
    requires Has(fields, Sources, Arr([left, right]))
    ensures var l, r := CreatePlan(left, pool), CreatePlan(right, pool);
            CreatePlan(Obj(fields), pool) ==
              if l.None? || r.None? then None else CreateHashJoin(fields, id, l.value, r.value, pool)
  {
  }

  /** `CreatePlan` looks at the class, the id and the one source, and leaves the rest to the class. */
  lemma Dispatch(fields: map<Key, Dyn>, c: Class, id: string, source: Dyn, pool: bool)
    requires Has(fields, Name, ClassName(c)) && Has(fields, Id, Str(id)) && Has(fields, Sources, Arr([source]))
    requires CreatorOf(c).Some?
    ensures var r := CreatePlan(source, pool);
            CreatePlan(Obj(fields), pool) == if r.None? then None else CreatorOf(c).value(fields, id, r.value, pool)
  {
  }

  lemma BaseWritten(fields: map<Key, Dyn>, c: Class, id: string, sources: seq<Dyn>)
    requires sources != []
    ensures var all := fields + Base(c, id, sources);
            && Has(all, Name, ClassName(c)) && Has(all, Id, Str(id)) && Has(all, Sources, Arr(sources))
            && IsBase(Base(c, id, sources))
  {
  }

  lemma VectorsBack(fields: map<Key, Dyn>, vectors: seq<(Row, int)>, pool: bool)
    requires Has(fields, Data, Arr(SerializeEach(vectors, SerializeVector)))
    ensures GetEach(fields, Data, CreateVector(pool)) == if vectors != [] ==> pool then Some(vectors) else None
  {
    EachBack(vectors, SerializeVector, CreateVector(pool), _ => pool);
    assert vectors != [] ==> vectors[0] in vectors;
  }

  lemma ValuesWritten(p: Plan)
    requires p.Values?
    ensures var fields := ValuesFields(p) + Base(ValuesNode, p.id, []);
            && Has(fields, Data, Arr(SerializeEach(p.vectors, SerializeVector)))
            && Has(fields, Parallelizable, Bool(p.parallelizable)) && Has(fields, RepeatTimes, Int(p.repeatTimes))
            && Has(fields, Name, ClassName(ValuesNode)) && Has(fields, Id, Str(p.id)) && Sources !in fields
  {
  }

  lemma DispatchValues(fields: map<Key, Dyn>, id: string, pool: bool)
    requires Has(fields, Name, ClassName(ValuesNode)) && Has(fields, Id, Str(id))
    ensures CreatePlan(Obj(fields), pool) == CreateValues(fields, id, pool)
  {
  }

  /** Vectors of rows need a pool to come back; no vectors need none. */
  lemma ValuesBack(p: Plan, pool: bool)
    requires p.Values?
    ensures CreatePlan(SerializePlan(p), pool) == Restored(p, pool)
  {
    var fields := ValuesFields(p) + Base(ValuesNode, p.id, []);
    ValuesWritten(p);
    DispatchValues(fields, p.id, pool);
    VectorsBack(fields, p.vectors, pool);
  }

  lemma SourceRoundTrip(p: Plan, pool: bool)
    requires Constructed(p) && HasSource(p)
    requires CreatePlan(SerializePlan(p.source), pool)
          == if PlanRestorable(p.source, pool) then Some(p.source) else None
    ensures CreatePlan(SerializePlan(p), pool) == if PlanRestorable(p, pool) then Some(p) else None
  {
    var base := Base(ClassOf(p), p.id, [SerializePlan(p.source)]);
    BaseWritten(NodeFields(p), ClassOf(p), p.id, [SerializePlan(p.source)]);
    NodeBack(p, base, pool);
    Dispatch(NodeFields(p) + base, ClassOf(p), p.id, SerializePlan(p.source), pool);
  }

  lemma JoinRoundTrip(p: Plan, pool: bool)
    requires Constructed(p) && p.HashJoin?
    requires CreatePlan(SerializePlan(p.left), pool) == if PlanRestorable(p.left, pool) then Some(p.left) else None
    requires CreatePlan(SerializePlan(p.right), pool) == if PlanRestorable(p.right, pool) then Some(p.right) else None
    ensures CreatePlan(SerializePlan(p), pool) == if PlanRestorable(p, pool) then Some(p) else None
  {
    var sources := [SerializePlan(p.left), SerializePlan(p.right)];
    var base := Base(HashJoinNode, p.id, sources);
    BaseWritten(NodeFields(p), HashJoinNode, p.id, sources);
    JoinBack(p, base, pool);
    DispatchJoin(NodeFields(p) + base, p.id, sources[0], sources[1], pool);
  }

  /** A plan comes back as it was, unless it holds a vector that the context does not reach: then nothing does. */
  lemma {:induction false} PlanRoundTrip(p: Plan, pool: bool)
    requires Constructed(p)
    ensures CreatePlan(SerializePlan(p), pool) == if PlanRestorable(p, pool) then Some(p) else None
  {
    if p.Values? {
      ValuesBack(p, pool);
    } else if p.HashJoin? {
      PlanRoundTrip(p.left, pool);
      PlanRoundTrip(p.right, pool);
      JoinRoundTrip(p, pool);
    } else {
      PlanRoundTrip(p.source, pool);
      SourceRoundTrip(p, pool);
    }
  }

  /** A vector in a filter is lost even when there is a pool; the same vector in a projection is not. */
  lemma FilterDropsTheContext()
    ensures var filter := Filter("1", Const(Vector(BOOLEAN, 0)), Values("0", [], false, 1));
            Constructed(filter) && CreatePlan(SerializePlan(filter), true) == None
    ensures var project := Project("1", ["c"], [Const(Vector(BOOLEAN, 0))], Values("0", [], false, 1));
            Constructed(project) && CreatePlan(SerializePlan(project), true) == Some(project)
  {
    PlanRoundTrip(Filter("1", Const(Vector(BOOLEAN, 0)), Values("0", [], false, 1)), true);
    PlanRoundTrip(Project("1", ["c"], [Const(Vector(BOOLEAN, 0))], Values("0", [], false, 1)), true);
  }

  /** The join on a = b of two columns. */
  function JoinOf(filter: Constant): Plan {
    HashJoin("3", Inner, false, [Column(BIGINT, "a")], [Column(BIGINT, "b")], Some(Const(filter)),
             Project("1", ["a"], [Column(BIGINT, "x")], Values("0", [], false, 1)),
             Project("2", ["b"], [Column(BIGINT, "x")], Values("0", [], false, 1)), Row(["a"], [BIGINT]))
  }

  lemma JoinMatches()
    ensures KeysMatch([Column(BIGINT, "a")], [Column(BIGINT, "b")], Row(["a"], [BIGINT]), Row(["b"], [BIGINT]))
    ensures JoinOutput(Inner, Row(["a"], [BIGINT]), Row(["b"], [BIGINT]), Row(["a"], [BIGINT]))
  {
    assert FromOneSide(Inner, "a", Row(["a"], [BIGINT]), Row(["b"], [BIGINT]));
  }

  lemma JoinConstructed(filter: Constant)
    ensures Constructed(JoinOf(filter))
  {
    assert Constructed(Values("0", [], false, 1));
    assert Constructed(JoinOf(filter).left) && Constructed(JoinOf(filter).right);
    JoinMatches();
  }

  lemma JoinRestorable(filter: Constant)
    ensures PlanRestorable(JoinOf(filter), true) <==> filter.Variant?
  {
    assert PlanRestorable(Values("0", [], false, 1), true);
    assert PlanRestorable(JoinOf(filter).left, true) && PlanRestorable(JoinOf(filter).right, true);
    assert NodeRestorable(JoinOf(filter), true) <==> !HasVector(Const(filter));
  }

  /** A join comes back with a scalar constant in its filter, and never with a vector there. */
  lemma JoinFilterDropsTheContext(filter: Constant)
    ensures Constructed(JoinOf(filter))
    ensures CreatePlan(SerializePlan(JoinOf(filter)), true) == if filter.Variant? then Some(JoinOf(filter)) else None
  {
    JoinConstructed(filter);
    JoinRestorable(filter);
    PlanRoundTrip(JoinOf(filter), true);
  }
}
