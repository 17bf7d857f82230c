/**
 Plan nodes: their fields, the output types their constructors compute and the checks they make
 (velox/core/PlanNode.cpp).
 */
module PlanNodes {
  import opened Options
  import opened TypedExpressions

  // ----- plan nodes -----

  datatype Row = Row(names: seq<string>, types: seq<Type>)

  datatype SortOrder = SortOrder(ascending: bool, nullsFirst: bool)

  datatype AggregationStep = Partial | Final | Intermediate | Single
  datatype WindowType = Rows | Range
  datatype BoundType = CurrentRow | Preceding | Following | UnboundedPreceding | UnboundedFollowing

  datatype JoinType =
    | Inner | Left | Right | Full | LeftSemiFilter | LeftSemiProject | RightSemiFilter | RightSemiProject | Anti

  datatype Aggregate = Aggregate(call: Expr, rawInputTypes: seq<Type>, mask: Option<Expr>,
                                 sortingKeys: seq<Expr>, sortingOrders: seq<SortOrder>, distinct: bool)

  datatype Frame = Frame(frameType: WindowType, startType: BoundType, startValue: Option<Expr>,
                         endType: BoundType, endValue: Option<Expr>)

  datatype WindowFunction = WindowFunction(call: Expr, frame: Frame, ignoreNulls: bool)

  datatype Plan =
    // Each vector of rows is its type and its contents.
    | Values(id: string, vectors: seq<(Row, int)>, parallelizable: bool, repeatTimes: int)
    | Filter(id: string, filter: Expr, source: Plan)
    | Project(id: string, names: seq<string>, projections: seq<Expr>, source: Plan)
    | Aggregation(id: string, step: AggregationStep, groupingKeys: seq<Expr>, preGroupedKeys: seq<Expr>,
                  aggregateNames: seq<string>, aggregates: seq<Aggregate>, globalGroupingSets: seq<int>,
                  groupId: Option<Expr>, ignoreNullKeys: bool, source: Plan)
    | Unnest(id: string, replicateVariables: seq<Expr>, unnestVariables: seq<Expr>, withOrdinality: bool,
             source: Plan, outputType: Row)
    | AssignUniqueId(id: string, taskUniqueId: int, source: Plan, outputType: Row)
    | Window(id: string, partitionKeys: seq<Expr>, sortingKeys: seq<Expr>, sortingOrders: seq<SortOrder>,
             functions: seq<WindowFunction>, inputsSorted: bool, source: Plan, outputType: Row)
    | RowNumber(id: string, partitionKeys: seq<Expr>, limit: Option<int>, source: Plan, outputType: Row)
    | TopNRowNumber(id: string, partitionKeys: seq<Expr>, sortingKeys: seq<Expr>, sortingOrders: seq<SortOrder>,
                    topNLimit: int, source: Plan, outputType: Row)
    | HashJoin(id: string, joinType: JoinType, nullAware: bool, leftKeys: seq<Expr>, rightKeys: seq<Expr>,
               joinFilter: Option<Expr>, left: Plan, right: Plan, outputType: Row)

  const BIGINT := ScalarType("BIGINT")
  const BOOLEAN := ScalarType("BOOLEAN")

  function FieldNames(keys: seq<Expr>): (names: seq<string>)
    ensures |names| == |keys|
  {
    seq(|keys|, i requires 0 <= i < |keys| => if IsField(keys[i]) then keys[i].name else "")
  }

  function AggregateTypes(aggregates: seq<Aggregate>): seq<Type> {
    seq(|aggregates|, i requires 0 <= i < |aggregates| => TypeOf(aggregates[i].call))
  }

  function FunctionTypes(functions: seq<WindowFunction>): (ts: seq<Type>)
    ensures |ts| == |functions|
  {
    seq(|functions|, i requires 0 <= i < |functions| => TypeOf(functions[i].call))
  }

  function OutputType(p: Plan): Row {
    match p
    case Values(_, vectors, _, _) => if vectors == [] then Row([], []) else vectors[0].0
    case Filter(_, _, source) => OutputType(source)
    case Project(_, names, projections, _) => Row(names, TypesOf(projections))
    case Aggregation(_, _, keys, _, names, aggregates, _, _, _, _) =>
      Row(FieldNames(keys) + names, TypesOf(keys) + AggregateTypes(aggregates))
    case _ => p.outputType
  }

  // ----- constructors: what they compute and what they check -----

  predicate AllDifferent(names: seq<string>) {
    forall i, j :: 0 <= i < j < |names| ==> names[i] != names[j]
  }

  predicate AreFields(keys: seq<Expr>) {
    forall k <- keys :: IsField(k)
  }

  function NewFilter(id: string, filter: Expr, source: Plan): Option<Plan> {
    if TypeOf(filter) == BOOLEAN then Some(Filter(id, filter, source)) else None
  }

  function NewProject(id: string, names: seq<string>, projections: seq<Expr>, source: Plan): Option<Plan> {
    if |names| == |projections| then Some(Project(id, names, projections, source)) else None
  }

  function NewAggregation(id: string, step: AggregationStep, groupingKeys: seq<Expr>, preGroupedKeys: seq<Expr>,
                          aggregateNames: seq<string>, aggregates: seq<Aggregate>, globalGroupingSets: seq<int>,
                          groupId: Option<Expr>, ignoreNullKeys: bool, source: Plan): Option<Plan>
  {
    if |aggregateNames| == |aggregates| && AreFields(groupingKeys) && AreFields(preGroupedKeys)
       && (groupId.Some? ==> IsField(groupId.value))
       && (forall name <- FieldNames(preGroupedKeys) :: name in FieldNames(groupingKeys))
       && (groupId.Some? ==> groupId.value.name in FieldNames(groupingKeys))
       && (groupId.Some? <==> globalGroupingSets != [])
    then Some(Aggregation(id, step, groupingKeys, preGroupedKeys, aggregateNames, aggregates, globalGroupingSets,
                          groupId, ignoreNullKeys, source))
    else None
  }

  /** The columns that unnesting one variable gives: the elements of an array, the keys and values of a map. */
  function UnnestedColumns(variable: Expr): seq<Type> {
    match TypeOf(variable)
    case ArrayType(element) => [element]
    case MapType(key, value) => [key, value]
    case _ => []
  }

  /** The columns that the first `n` variables give. */
  function UnnestedUpTo(variables: seq<Expr>, n: nat): seq<Type>
    requires n <= |variables|
  {
    if n == 0 then [] else UnnestedUpTo(variables, n - 1) + UnnestedColumns(variables[n - 1])
  }

  function UnnestedTypes(variables: seq<Expr>): seq<Type> {
    UnnestedUpTo(variables, |variables|)
  }

  lemma {:induction false} UnnestedTypesGrow(variables: seq<Expr>, i: nat, n: nat)
    requires i <= n <= |variables|
    ensures |UnnestedUpTo(variables, i)| <= |UnnestedUpTo(variables, n)|
  {
    if i < n {
      UnnestedTypesGrow(variables, i, n - 1);
    }
  }

  predicate CanUnnest(e: Expr) {
    TypeOf(e).ArrayType? || TypeOf(e).MapType?
  }

  /** Replicated columns first, then one for each array and two for each map, then the ordinality. */
  function UnnestOutput(replicate: seq<Expr>, unnest: seq<Expr>, unnestNames: seq<string>,
                        ordinality: Option<string>): Row
    requires |UnnestedTypes(unnest)| <= |unnestNames|
  {
    Row(FieldNames(replicate) + unnestNames[..|UnnestedTypes(unnest)|]
        + (if ordinality.Some? then [ordinality.value] else []),
        TypesOf(replicate) + UnnestedTypes(unnest) + (if ordinality.Some? then [BIGINT] else []))
  }

  lemma TakeMore<T>(first: seq<T>, s: seq<T>, i: nat, j: nat)
    requires i <= j <= |s|
    ensures first + s[..i] + s[i..j] == first + s[..j]
  {
  }

  /** The second loop of the constructor; reading past the end of the given names is an error. */
  method UnnestColumns(input: Row, unnest: seq<Expr>, unnestNames: seq<string>) returns (r: Option<Row>)
    ensures r == if (forall e <- unnest :: CanUnnest(e)) && |UnnestedTypes(unnest)| <= |unnestNames|
                 then Some(Row(input.names + unnestNames[..|UnnestedTypes(unnest)|],
                               input.types + UnnestedTypes(unnest)))
                 else None
  {
    var names, types := input.names, input.types;
    var unnestIndex := 0;
    for i := 0 to |unnest|
      invariant forall k :: 0 <= k < i ==> CanUnnest(unnest[k])
      invariant unnestIndex == |UnnestedUpTo(unnest, i)| <= |unnestNames|
      invariant names == input.names + unnestNames[..unnestIndex]
      invariant types == input.types + UnnestedUpTo(unnest, i)
    {
      var columns := UnnestedColumns(unnest[i]);
      if columns == [] {
        assert unnest[i] in unnest && !CanUnnest(unnest[i]);
        return None;
      }
      if unnestIndex + |columns| > |unnestNames| {
        UnnestedTypesGrow(unnest, i + 1, |unnest|);
        return None;
      }
      TakeMore(input.names, unnestNames, unnestIndex, unnestIndex + |columns|);
      names := names + unnestNames[unnestIndex..unnestIndex + |columns|];
      types := types + columns;
      unnestIndex := unnestIndex + |columns|;
    }
    return Some(Row(names, types));
  }

  method UnnestOutputType(replicate: seq<Expr>, unnest: seq<Expr>, unnestNames: seq<string>, ordinality: Option<string>)
    returns (r: Option<Row>)
    ensures r == if (forall e <- unnest :: CanUnnest(e)) && |UnnestedTypes(unnest)| <= |unnestNames|
                 then Some(UnnestOutput(replicate, unnest, unnestNames, ordinality)) else None
  {
    var names, types := [], [];
    for i := 0 to |replicate|
      invariant names == FieldNames(replicate)[..i] && types == TypesOf(replicate)[..i]
    {
      names := names + [if IsField(replicate[i]) then replicate[i].name else ""];
      types := types + [TypeOf(replicate[i])];
    }
    assert names == FieldNames(replicate) && types == TypesOf(replicate);
    var row := UnnestColumns(Row(names, types), unnest, unnestNames);
    if row.Some? && ordinality.Some? {
      return Some(AppendColumn(row.value, ordinality.value, BIGINT));
    }
    assert row.Some? ==> row.value.names + [] == row.value.names && row.value.types + [] == row.value.types;
    return row;
  }

  function NewUnnest(id: string, replicate: seq<Expr>, unnest: seq<Expr>, unnestNames: seq<string>,
                     ordinality: Option<string>, source: Plan): Option<Plan>
  {
    if AreFields(replicate) && AreFields(unnest) && (forall e <- unnest :: CanUnnest(e))
       && |UnnestedTypes(unnest)| <= |unnestNames|
    then Some(Unnest(id, replicate, unnest, ordinality.Some?, source,
                     UnnestOutput(replicate, unnest, unnestNames, ordinality)))
    else None
  }

  function AppendColumn(row: Row, name: string, ty: Type): Row {
    Row(row.names + [name], row.types + [ty])
  }

  function NewAssignUniqueId(id: string, idName: string, taskUniqueId: int, source: Plan): Option<Plan> {
    Some(AssignUniqueId(id, taskUniqueId, source, AppendColumn(OutputType(source), idName, BIGINT)))
  }

  predicate KeysUnique(partitionKeys: seq<Expr>, sortingKeys: seq<Expr>) {
    && AreFields(partitionKeys) && AreFields(sortingKeys)
    && AllDifferent(FieldNames(partitionKeys) + FieldNames(sortingKeys))
  }

  function NewWindow(id: string, partitionKeys: seq<Expr>, sortingKeys: seq<Expr>, sortingOrders: seq<SortOrder>,
                     windowNames: seq<string>, functions: seq<WindowFunction>, inputsSorted: bool,
                     source: Plan): Option<Plan>
  {
    if |windowNames| == |functions| && functions != [] && |sortingKeys| == |sortingOrders|
       && KeysUnique(partitionKeys, sortingKeys)
       && (forall f <- functions ::
             f.frame.frameType == Range && (f.frame.startValue.Some? || f.frame.endValue.Some?) ==>
             |sortingKeys| == 1)
    then
      Some(Window(id, partitionKeys, sortingKeys, sortingOrders, functions, inputsSorted, source,
                  Row(OutputType(source).names + windowNames, OutputType(source).types + FunctionTypes(functions))))
    else None
  }

  /** `getWindowOutputType`: the columns of the input, then one for each function. */
  method WindowOutputType(input: Row, windowNames: seq<string>, functions: seq<WindowFunction>) returns (r: Option<Row>)
    ensures r == if |windowNames| == |functions|
                 then Some(Row(input.names + windowNames, input.types + FunctionTypes(functions))) else None
  {
    if |windowNames| != |functions| {
      return None;
    }
    var names, types := input.names, input.types;
    for i := 0 to |windowNames|
      invariant names == input.names + windowNames[..i] && types == input.types + FunctionTypes(functions)[..i]
    {
      names := names + [windowNames[i]];
      types := types + [TypeOf(functions[i].call)];
    }
    assert windowNames[..|windowNames|] == windowNames
        && FunctionTypes(functions)[..|functions|] == FunctionTypes(functions);
    return Some(Row(names, types));
  }

  function OptionalRowNumber(row: Row, name: Option<string>): Row {
    if name.Some? then AppendColumn(row, name.value, BIGINT) else row
  }

  function NewRowNumber(id: string, partitionKeys: seq<Expr>, name: Option<string>, limit: Option<int>,
                        source: Plan): Option<Plan>
  {
    if AreFields(partitionKeys)
    then Some(RowNumber(id, partitionKeys, limit, source, OptionalRowNumber(OutputType(source), name)))
    else None
  }

  function NewTopNRowNumber(id: string, partitionKeys: seq<Expr>, sortingKeys: seq<Expr>, sortingOrders: seq<SortOrder>,
                            name: Option<string>, limit: int, source: Plan): Option<Plan>
  {
    if |sortingKeys| == |sortingOrders| && sortingKeys != [] && limit > 0 && KeysUnique(partitionKeys, sortingKeys) then
      Some(TopNRowNumber(id, partitionKeys, sortingKeys, sortingOrders, limit, source,
                         OptionalRowNumber(OutputType(source), name)))
    else None
  }

  predicate SameKind(t: Type, u: Type) {
    match t
    case ScalarType(kind) => u.ScalarType? && u.kind == kind
    case ArrayType(_) => u.ArrayType?
    case MapType(_, _) => u.MapType?
    case RowType(_, _) => u.RowType?
    case FunctionType(_, _) => u.FunctionType?
  }

  predicate KeysMatch(leftKeys: seq<Expr>, rightKeys: seq<Expr>, left: Row, right: Row) {
    && leftKeys != [] && |leftKeys| == |rightKeys| && AreFields(leftKeys) && AreFields(rightKeys)
    && (forall name <- FieldNames(leftKeys) :: name in left.names)
    && (forall name <- FieldNames(rightKeys) :: name in right.names)
    && forall i :: 0 <= i < |leftKeys| ==> SameKind(TypeOf(leftKeys[i]), TypeOf(rightKeys[i]))
  }

  predicate SemiProject(joinType: JoinType) {
    joinType.LeftSemiProject? || joinType.RightSemiProject?
  }

  predicate TakesLeft(joinType: JoinType) {
    !joinType.RightSemiFilter? && !joinType.RightSemiProject?
  }

  predicate TakesRight(joinType: JoinType) {
    !joinType.LeftSemiFilter? && !joinType.LeftSemiProject? && !joinType.Anti?
  }

  /** An output column is on one side only, and on a side that the join type may output. */
  predicate FromOneSide(joinType: JoinType, name: string, left: Row, right: Row) {
    || (TakesLeft(joinType) && name in left.names && name !in right.names)
    || (TakesRight(joinType) && name in right.names && name !in left.names)
  }

  /** The output columns of a join; a semi-project join has a boolean column of a new name after them. */
  predicate JoinOutput(joinType: JoinType, left: Row, right: Row, output: Row) {
    var n := |output.names| - if SemiProject(joinType) then 1 else 0;
    && |output.names| == |output.types| && 0 <= n
    && (SemiProject(joinType) ==> output.types[n] == BOOLEAN && output.names[n] !in left.names + right.names)
    && forall i :: 0 <= i < n ==> FromOneSide(joinType, output.names[i], left, right)
  }

  /** The checks of the constructor, column by column. */
  method CheckJoinOutput(joinType: JoinType, left: Row, right: Row, output: Row) returns (ok: bool)
    requires |output.names| == |output.types|
    ensures ok == JoinOutput(joinType, left, right, output)
  {
    var n := |output.types|;
    if SemiProject(joinType) {
      n := n - 1;
      if n < 0 || output.types[n] != BOOLEAN || output.names[n] in left.names || output.names[n] in right.names {
        return false;
      }
    }
    for i := 0 to n
      invariant forall k :: 0 <= k < i ==> FromOneSide(joinType, output.names[k], left, right)
    {
      var name := output.names[i];
      if TakesLeft(joinType) && name in left.names {
        if name in right.names {
          return false;
        }
      } else if TakesRight(joinType) && name in right.names {
        if name in left.names {
          return false;
        }
      } else {
        return false;
      }
    }
    return true;
  }

  predicate NullAwareSupported(joinType: JoinType, keys: nat, filter: Option<Expr>) {
    && (joinType.Anti? || SemiProject(joinType)) && keys == 1
    && (filter.Some? ==> !joinType.RightSemiProject?)
  }

  function NewHashJoin(id: string, joinType: JoinType, nullAware: bool, leftKeys: seq<Expr>, rightKeys: seq<Expr>,
                       filter: Option<Expr>, left: Plan, right: Plan, output: Row): Option<Plan>
  {
    if KeysMatch(leftKeys, rightKeys, OutputType(left), OutputType(right))
       && JoinOutput(joinType, OutputType(left), OutputType(right), output)
       && (nullAware ==> NullAwareSupported(joinType, |leftKeys|, filter))
    then Some(HashJoin(id, joinType, nullAware, leftKeys, rightKeys, filter, left, right, output))
    else None
  }

  /** The plan was built by the constructors, from well-formed expressions. */
  ghost predicate Constructed(p: Plan) {
    && ExpressionsWellFormed(p)
    && match p
       case Values(_, _, _, _) => true
       case Filter(id, filter, source) => Constructed(source) && NewFilter(id, filter, source) == Some(p)
       case Project(id, names, projections, source) =>
         Constructed(source) && NewProject(id, names, projections, source) == Some(p)
       case Aggregation(id, step, keys, preGrouped, names, aggregates, sets, groupId, ignoreNullKeys, source) =>
         Constructed(source)
         && NewAggregation(id, step, keys, preGrouped, names, aggregates, sets, groupId, ignoreNullKeys, source)
            == Some(p)
       case Unnest(id, replicate, unnest, withOrdinality, source, _) =>
         Constructed(source)
         && exists names, ordinality :: NewUnnest(id, replicate, unnest, names, ordinality, source) == Some(p)
       case AssignUniqueId(id, taskUniqueId, source, _) =>
         Constructed(source) && exists name :: NewAssignUniqueId(id, name, taskUniqueId, source) == Some(p)
       case Window(id, partitionKeys, sortingKeys, sortingOrders, functions, inputsSorted, source, _) =>
         Constructed(source)
         && exists names ::
              NewWindow(id, partitionKeys, sortingKeys, sortingOrders, names, functions, inputsSorted, source)
                == Some(p)
       case RowNumber(id, partitionKeys, limit, source, _) =>
         Constructed(source) && exists name :: NewRowNumber(id, partitionKeys, name, limit, source) == Some(p)
       case TopNRowNumber(id, partitionKeys, sortingKeys, sortingOrders, limit, source, _) =>
         Constructed(source)
         && exists name ::
              NewTopNRowNumber(id, partitionKeys, sortingKeys, sortingOrders, name, limit, source) == Some(p)
       case HashJoin(id, joinType, nullAware, leftKeys, rightKeys, filter, left, right, output) =>
         Constructed(left) && Constructed(right)
         && NewHashJoin(id, joinType, nullAware, leftKeys, rightKeys, filter, left, right, output) == Some(p)
  }

  predicate AllWellFormed(es: seq<Expr>) {
    forall e <- es :: WellFormed(e)
  }

  predicate OptionWellFormed(e: Option<Expr>) {
    e.Some? ==> WellFormed(e.value)
  }

  /** The calls of aggregates and window functions are calls, and all expressions are well formed. */
  predicate ExpressionsWellFormed(p: Plan) {
    match p
    case Values(_, _, _, _) => true
    case Filter(_, filter, _) => WellFormed(filter)
    case Project(_, _, projections, _) => AllWellFormed(projections)
    case Aggregation(_, _, keys, preGrouped, _, aggregates, _, groupId, _, _) =>
      && AllWellFormed(keys) && AllWellFormed(preGrouped) && OptionWellFormed(groupId)
      && forall a <- aggregates :: AggregateWellFormed(a)
    case Unnest(_, replicate, unnest, _, _, _) => AllWellFormed(replicate) && AllWellFormed(unnest)
    case AssignUniqueId(_, _, _, _) => true
    case Window(_, partitionKeys, sortingKeys, _, functions, _, _, _) =>
      && AllWellFormed(partitionKeys) && AllWellFormed(sortingKeys)
      && forall f <- functions :: FunctionWellFormed(f)
    case RowNumber(_, partitionKeys, _, _, _) => AllWellFormed(partitionKeys)
    case TopNRowNumber(_, partitionKeys, sortingKeys, _, _, _, _) =>
      AllWellFormed(partitionKeys) && AllWellFormed(sortingKeys)
    case HashJoin(_, _, _, leftKeys, rightKeys, filter, _, _, _) =>
      AllWellFormed(leftKeys) && AllWellFormed(rightKeys) && OptionWellFormed(filter)
  }

  predicate AggregateWellFormed(a: Aggregate) {
    && WellFormed(a.call) && a.call.Call? && AllWellFormed(a.sortingKeys) && AreFields(a.sortingKeys)
    && OptionWellFormed(a.mask) && (a.mask.Some? ==> IsField(a.mask.value))
  }

  predicate FunctionWellFormed(f: WindowFunction) {
    WellFormed(f.call) && f.call.Call? && OptionWellFormed(f.frame.startValue) && OptionWellFormed(f.frame.endValue)
  }

  // ----- enumerations and their names -----

  function StepName(step: AggregationStep): string {
    match step
    case Partial => "PARTIAL"
    case Final => "FINAL"
    case Intermediate => "INTERMEDIATE"
    case Single => "SINGLE"
  }

  function StepFromName(name: string): Option<AggregationStep> {
    if name == "PARTIAL" then Some(Partial)
    else if name == "FINAL" then Some(Final)
    else if name == "INTERMEDIATE" then Some(Intermediate)
    else if name == "SINGLE" then Some(Single)
    else None
  }

  function WindowTypeName(t: WindowType): string {
    match t
    case Rows => "ROWS"
    case Range => "RANGE"
  }

  function WindowTypeFromName(name: string): Option<WindowType> {
    if name == "ROWS" then Some(Rows) else if name == "RANGE" then Some(Range) else None
  }

  function BoundTypeName(t: BoundType): string {
    match t
    case CurrentRow => "CURRENT ROW"
    case Preceding => "PRECEDING"
    case Following => "FOLLOWING"
    case UnboundedPreceding => "UNBOUNDED PRECEDING"
    case UnboundedFollowing => "UNBOUNDED FOLLOWING"
  }

  function BoundTypeFromName(name: string): Option<BoundType> {
    if name == "CURRENT ROW" then Some(CurrentRow)
    else if name == "PRECEDING" then Some(Preceding)
    else if name == "FOLLOWING" then Some(Following)
    else if name == "UNBOUNDED PRECEDING" then Some(UnboundedPreceding)
    else if name == "UNBOUNDED FOLLOWING" then Some(UnboundedFollowing)
    else None
  }

  function JoinTypeName(t: JoinType): string {
    match t
    case Inner => "INNER"
    case Left => "LEFT"
    case Right => "RIGHT"
    case Full => "FULL"
    case LeftSemiFilter => "LEFT SEMI (FILTER)"
    case LeftSemiProject => "LEFT SEMI (PROJECT)"
    case RightSemiFilter => "RIGHT SEMI (FILTER)"
    case RightSemiProject => "RIGHT SEMI (PROJECT)"
    case Anti => "ANTI"
  }

  function JoinTypeFromName(name: string): Option<JoinType> {
    if name == "INNER" then Some(Inner)
    else if name == "LEFT" then Some(Left)
    else if name == "RIGHT" then Some(Right)
    else if name == "FULL" then Some(Full)
    else if name == "LEFT SEMI (FILTER)" then Some(LeftSemiFilter)
    else if name == "LEFT SEMI (PROJECT)" then Some(LeftSemiProject)
    else if name == "RIGHT SEMI (FILTER)" then Some(RightSemiFilter)
    else if name == "RIGHT SEMI (PROJECT)" then Some(RightSemiProject)
    else if name == "ANTI" then Some(Anti)
    else None
  }

  lemma JoinTypeNamesInvert(t: JoinType)
    ensures JoinTypeFromName(JoinTypeName(t)) == Some(t)
  {
    assert JoinTypeName(Inner)[0] != JoinTypeName(Right)[0];
    assert JoinTypeName(Left)[0] != JoinTypeName(Full)[0];
    assert JoinTypeName(Anti)[0] != JoinTypeName(Left)[0] && JoinTypeName(Anti)[0] != JoinTypeName(Full)[0];
    assert JoinTypeName(LeftSemiProject)[0] != JoinTypeName(RightSemiFilter)[0];
  }

  lemma NamesInvert(step: AggregationStep, w: WindowType, b: BoundType)
    ensures StepFromName(StepName(step)) == Some(step)
    ensures WindowTypeFromName(WindowTypeName(w)) == Some(w)
    ensures BoundTypeFromName(BoundTypeName(b)) == Some(b)
  {
    assert "PRECEDING"[0] != "FOLLOWING"[0];
    assert "UNBOUNDED PRECEDING"[10] != "UNBOUNDED FOLLOWING"[10];
  }
}
