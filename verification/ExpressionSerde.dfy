/**
 Serialisation of typed expressions into dynamic objects and back (velox/core/Expressions.cpp).

 A dynamic value is a JSON-like tree.  Object keys and class names are enumerated; the serialised forms of
 types, variants and vectors are atoms that decode to what was encoded.
 */
module ExpressionSerde {
  import opened Options
  import opened TypedExpressions

  datatype Key =
    | Name | Type_ | Inputs | Value | ValueVector | FunctionName | FieldName | FieldIndex | Signature | Body
    | NullOnFailure
    | Id | Sources | Data | Parallelizable | RepeatTimes
    | Filter_ | Names | Projections | Step | GroupingKeys | PreGroupedKeys | AggregateNames
    | Aggregates | GlobalGroupingSets | GroupId | IgnoreNullKeys | CallKey | RawInputTypes | Mask | SortingKeys
    | SortingOrders | Distinct | Ascending | NullsFirst | ReplicateVariables | UnnestVariables | UnnestNames
    | OrdinalityName | IdName | TaskUniqueId | PartitionKeys | Functions | InputsSorted | FunctionCall | FrameKey
    | IgnoreNulls | FrameType | StartType | StartValue | EndType | EndValue | RowNumberColumnName | Limit
    | JoinTypeKey | NullAware | LeftKeys | RightKeys | OutputType_

  datatype Class =
    | InputTypedExpr | ConstantTypedExpr | CallTypedExpr | FieldAccessTypedExpr | DereferenceTypedExpr
    | ConcatTypedExpr | LambdaTypedExpr | CastTypedExpr
    | ValuesNode | FilterNode | ProjectNode | AggregationNode | UnnestNode | AssignUniqueIdNode | WindowNode
    | RowNumberNode | TopNRowNumberNode | HashJoinNode

  datatype Dyn =
    | Bool(b: bool)
    | Int(n: int)
    | Str(s: string)
    | ClassName(c: Class)
    | Arr(items: seq<Dyn>)
    | Obj(fields: map<Key, Dyn>)
    | SerializedType(t: Type)
    | SerializedVariant(v: int)
    | SerializedVector(vectorType: Type, payload: int)

  // ----- serialising -----

  /** `serializeBase`: the class, the type, and the inputs if there are any. */
  function SerializeBase(c: Class, ty: Type, inputs: seq<Dyn>): map<Key, Dyn> {
    map[Name := ClassName(c), Type_ := SerializedType(ty)] + if inputs == [] then map[] else map[Inputs := Arr(inputs)]
  }

  function Serialize(e: Expr): Dyn {
    match e
    case Input(ty) => Obj(SerializeBase(InputTypedExpr, ty, []))
    case Const(Variant(ty, v)) => Obj(SerializeBase(ConstantTypedExpr, ty, [])[Value := SerializedVariant(v)])
    case Const(Vector(ty, v)) => Obj(SerializeBase(ConstantTypedExpr, ty, [])[ValueVector := SerializedVector(ty, v)])
    case Call(ty, inputs, name) =>
      Obj(SerializeBase(CallTypedExpr, ty, SerializeAll(inputs))[FunctionName := Str(name)])
    case Column(ty, name) => Obj(SerializeBase(FieldAccessTypedExpr, ty, [])[FieldName := Str(name)])
    case Field(ty, input, name) =>
      Obj(SerializeBase(FieldAccessTypedExpr, ty, [Serialize(input)])[FieldName := Str(name)])
    case Dereference(ty, input, index) =>
      Obj(SerializeBase(DereferenceTypedExpr, ty, [Serialize(input)])[FieldIndex := Int(index)])
    case Concat(names, inputs) => Obj(SerializeBase(ConcatTypedExpr, TypeOf(e), SerializeAll(inputs)))
    case Lambda(params, paramTypes, body) =>
      Obj(SerializeBase(LambdaTypedExpr, TypeOf(e), [])
            [Signature := SerializedType(RowType(params, paramTypes))][Body := Serialize(body)])
    case Cast(ty, input, nullOnFailure) =>
      Obj(SerializeBase(CastTypedExpr, ty, [Serialize(input)])[NullOnFailure := Bool(nullOnFailure)])
  }

  function SerializeAll(es: seq<Expr>): (ds: seq<Dyn>)
    ensures |ds| == |es|
  {
    seq(|es|, i requires 0 <= i < |es| => Serialize(es[i]))
  }

  // ----- creating -----

  function GetType(fields: map<Key, Dyn>, key: Key): Option<Type> {
    if key in fields && fields[key].SerializedType? then Some(fields[key].t) else None
  }

  function GetString(fields: map<Key, Dyn>, key: Key): Option<string> {
    if key in fields && fields[key].Str? then Some(fields[key].s) else None
  }

  function GetInt(fields: map<Key, Dyn>, key: Key): Option<int> {
    if key in fields && fields[key].Int? then Some(fields[key].n) else None
  }

  function GetBool(fields: map<Key, Dyn>, key: Key): Option<bool> {
    if key in fields && fields[key].Bool? then Some(fields[key].b) else None
  }

  function GetArray(fields: map<Key, Dyn>, key: Key): (r: Option<seq<Dyn>>)
    ensures r.Some? ==> key in fields && fields[key] == Arr(r.value)
  {
    if key in fields && fields[key].Arr? then Some(fields[key].items) else None
  }

  /**
   `ISerializable::deserialize` and the `create` functions it dispatches to.  `pool` says whether the
   context holds a memory pool, which only the restoring of a vector needs.
   */
  function Create(d: Dyn, pool: bool): Option<Expr>
    decreases d, 1
  {
    if !d.Obj? || Name !in d.fields || !d.fields[Name].ClassName? then None
    else
      match d.fields[Name].c
      case InputTypedExpr => CreateInput(d.fields)
      case ConstantTypedExpr => CreateConstant(d.fields, pool)
      case CallTypedExpr => CreateCall(d.fields, CreateInputs(d, pool))
      case FieldAccessTypedExpr => CreateFieldAccess(d.fields, CreateInputs(d, pool))
      case DereferenceTypedExpr => CreateDereference(d.fields, CreateInputs(d, pool))
      case ConcatTypedExpr => CreateConcat(d.fields, CreateInputs(d, pool))
      case LambdaTypedExpr => if Body in d.fields then CreateLambda(d.fields, Create(d.fields[Body], pool)) else None
      case CastTypedExpr => CreateCast(d.fields, CreateInputs(d, pool))
      case _ => None
  }

  function CreateCall(fields: map<Key, Dyn>, inputs: Option<seq<Expr>>): Option<Expr> {
    var ty, name := GetType(fields, Type_), GetString(fields, FunctionName);
    if ty.None? || inputs.None? || name.None? then None else Some(Call(ty.value, inputs.value, name.value))
  }

  function CreateFieldAccess(fields: map<Key, Dyn>, inputs: Option<seq<Expr>>): Option<Expr> {
    var ty, name := GetType(fields, Type_), GetString(fields, FieldName);
    if ty.None? || inputs.None? || |inputs.value| > 1 || name.None? then None
    else if inputs.value == [] then Some(Column(ty.value, name.value))
    else Some(Field(ty.value, inputs.value[0], name.value))
  }

  function CreateDereference(fields: map<Key, Dyn>, inputs: Option<seq<Expr>>): Option<Expr> {
    var ty, index := GetType(fields, Type_), GetInt(fields, FieldIndex);
    if ty.None? || inputs.None? || |inputs.value| != 1 || index.None? || index.value < 0 then None
    else if inputs.value[0].Input? then None
    else Some(Dereference(ty.value, inputs.value[0], index.value))
  }

  function CreateConcat(fields: map<Key, Dyn>, inputs: Option<seq<Expr>>): Option<Expr> {
    var ty := GetType(fields, Type_);
    if ty.None? || inputs.None? || !ty.value.RowType? || |ty.value.names| > |inputs.value| then None
    else Some(Concat(ty.value.names, inputs.value))
  }

  function CreateLambda(fields: map<Key, Dyn>, body: Option<Expr>): Option<Expr> {
    var signature := GetType(fields, Signature);
    if signature.None? || !signature.value.RowType? || body.None? then None
    else Some(Lambda(signature.value.names, signature.value.children, body.value))
  }

  function CreateCast(fields: map<Key, Dyn>, inputs: Option<seq<Expr>>): Option<Expr> {
    var ty, nullOnFailure := GetType(fields, Type_), GetBool(fields, NullOnFailure);
    if ty.None? || inputs.None? || |inputs.value| != 1 || nullOnFailure.None? then None
    else Some(Cast(ty.value, inputs.value[0], nullOnFailure.value))
  }

  function CreateInput(fields: map<Key, Dyn>): Option<Expr> {
    var ty := GetType(fields, Type_);
    if ty.None? then None else Some(Input(ty.value))
  }

  function CreateConstant(fields: map<Key, Dyn>, pool: bool): Option<Expr> {
    var ty := GetType(fields, Type_);
    if ty.None? then None
    else if Value in fields then
      if fields[Value].SerializedVariant? then Some(Const(Variant(ty.value, fields[Value].v))) else None
    else if ValueVector in fields && fields[ValueVector].SerializedVector? && pool then
      Some(Const(Vector(fields[ValueVector].vectorType, fields[ValueVector].payload)))
    else None
  }

  /** `deserializeInputs`: no inputs at all if there is no such key. */
  function CreateInputs(d: Dyn, pool: bool): Option<seq<Expr>>
    requires d.Obj?
    decreases d, 0
  {
    if Inputs !in d.fields then Some([])
    else if !d.fields[Inputs].Arr? then None
    else CreateAll(d.fields[Inputs].items, pool)
  }

  function CreateAll(ds: seq<Dyn>, pool: bool): Option<seq<Expr>>
    decreases ds
  {
    if ds == [] then Some([])
    else
      var e := Create(ds[0], pool);
      var rest := CreateAll(ds[1..], pool);
      if e.None? || rest.None? then None else Some([e.value] + rest.value)
  }

  // ----- round trip -----

  /** Expressions without vectors need no pool. */
  predicate Restorable(e: Expr, pool: bool) {
    pool || !HasVector(e)
  }

  lemma {:induction false} CreateAllSerialized(parent: Expr, es: seq<Expr>, pool: bool)
    requires forall e :: e in es ==> e < parent && WellFormed(e)
    ensures CreateAll(SerializeAll(es), pool) == if AllRestorable(es, pool) then Some(es) else None
    decreases parent, 0, |es|
  {
    if es != [] {
      assert es[0] in es && forall e :: e in es[1..] ==> e in es;
      RoundTrip(es[0], pool);
      CreateAllSerialized(parent, es[1..], pool);
      assert SerializeAll(es)[1..] == SerializeAll(es[1..]);
      AllRestorableSplit(es, pool);
    }
  }

  predicate AllRestorable(es: seq<Expr>, pool: bool) {
    forall e <- es :: Restorable(e, pool)
  }

  lemma AllRestorableSplit(es: seq<Expr>, pool: bool)
    requires es != []
    ensures es == [es[0]] + es[1..]
    ensures AllRestorable(es, pool) <==> Restorable(es[0], pool) && AllRestorable(es[1..], pool)
  {
  }

  /** What `create` sees of a serialised node with inputs: its own fields, and the inputs created back. */
  lemma NodeBack(c: Class, ty: Type, inputs: seq<Dyn>, d: Dyn, pool: bool)
    requires d.Obj? && d.fields.Keys >= {Name, Type_} && d.fields[Name] == ClassName(c)
        && d.fields[Type_] == SerializedType(ty)
    requires if inputs == [] then Inputs !in d.fields else Inputs in d.fields && d.fields[Inputs] == Arr(inputs)
    ensures CreateInputs(d, pool) == CreateAll(inputs, pool) && GetType(d.fields, Type_) == Some(ty)
  {
  }

  lemma CallBack(ty: Type, inputs: seq<Expr>, name: string, pool: bool)
    ensures Create(Serialize(Call(ty, inputs, name)), pool) ==
              var r := CreateAll(SerializeAll(inputs), pool); if r.None? then None else Some(Call(ty, r.value, name))
  {
    NodeBack(CallTypedExpr, ty, SerializeAll(inputs), Serialize(Call(ty, inputs, name)), pool);
  }

  lemma ConcatBack(names: seq<string>, inputs: seq<Expr>, pool: bool)
    requires |names| <= |inputs|
    ensures var r := CreateAll(SerializeAll(inputs), pool);
            (r.Some? ==> |r.value| == |inputs|) ==>
              Create(Serialize(Concat(names, inputs)), pool) == if r.None? then None else Some(Concat(names, r.value))
  {
    var e := Concat(names, inputs);
    NodeBack(ConcatTypedExpr, TypeOf(e), SerializeAll(inputs), Serialize(e), pool);
  }

  lemma FieldBack(ty: Type, input: Expr, name: string, pool: bool)
    ensures Create(Serialize(Field(ty, input, name)), pool) ==
              var r := Create(Serialize(input), pool); if r.None? then None else Some(Field(ty, r.value, name))
  {
    NodeBack(FieldAccessTypedExpr, ty, [Serialize(input)], Serialize(Field(ty, input, name)), pool);
    CreateOne(Serialize(input), pool);
  }

  lemma DereferenceBack(ty: Type, input: Expr, index: nat, pool: bool)
    ensures var r := Create(Serialize(input), pool);
            (r.Some? ==> !r.value.Input?) ==>
              Create(Serialize(Dereference(ty, input, index)), pool) ==
                if r.None? then None else Some(Dereference(ty, r.value, index))
  {
    NodeBack(DereferenceTypedExpr, ty, [Serialize(input)], Serialize(Dereference(ty, input, index)), pool);
    CreateOne(Serialize(input), pool);
  }

  lemma CastBack(ty: Type, input: Expr, nullOnFailure: bool, pool: bool)
    ensures Create(Serialize(Cast(ty, input, nullOnFailure)), pool) ==
              var r := Create(Serialize(input), pool); if r.None? then None else Some(Cast(ty, r.value, nullOnFailure))
  {
    NodeBack(CastTypedExpr, ty, [Serialize(input)], Serialize(Cast(ty, input, nullOnFailure)), pool);
    CreateOne(Serialize(input), pool);
  }

  lemma LambdaBack(params: seq<string>, paramTypes: seq<Type>, body: Expr, pool: bool)
    ensures Create(Serialize(Lambda(params, paramTypes, body)), pool) ==
              var r := Create(Serialize(body), pool);
              if r.None? then None else Some(Lambda(params, paramTypes, r.value))
  {
  }

  lemma LeafBack(e: Expr, pool: bool)
    requires e.Input? || e.Const? || e.Column?
    ensures Create(Serialize(e), pool) == if Restorable(e, pool) then Some(e) else None
  {
  }

  lemma CreateOne(d: Dyn, pool: bool)
    ensures CreateAll([d], pool) == var r := Create(d, pool); if r.None? then None else Some([r.value])
  {
    assert [d][1..] == [];
    if Create(d, pool).Some? {
      assert [Create(d, pool).value] + [] == [Create(d, pool).value];
    }
  }

  /**
   Creating from what an expression serialises to gives the expression back; without a pool it fails
   exactly when the expression holds a vector.
   */
  lemma {:induction false} RoundTrip(e: Expr, pool: bool)
    requires WellFormed(e)
    ensures Create(Serialize(e), pool) == if Restorable(e, pool) then Some(e) else None
    decreases e, 1
  {
    match e
    case Call(ty, inputs, name) =>
      CreateAllSerialized(e, inputs, pool);
      CallBack(ty, inputs, name, pool);
    case Concat(names, inputs) =>
      CreateAllSerialized(e, inputs, pool);
      ConcatBack(names, inputs, pool);
    case Field(ty, input, name) =>
      RoundTrip(input, pool);
      FieldBack(ty, input, name, pool);
    case Dereference(ty, input, index) =>
      RoundTrip(input, pool);
      DereferenceBack(ty, input, index, pool);
    case Cast(ty, input, nullOnFailure) =>
      RoundTrip(input, pool);
      CastBack(ty, input, nullOnFailure, pool);
    case Lambda(params, paramTypes, body) =>
      RoundTrip(body, pool);
      LambdaBack(params, paramTypes, body, pool);
    case _ => LeafBack(e, pool);
  }
}
