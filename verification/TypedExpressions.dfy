/**
 Typed expressions (velox/core/ITypedExpr.h and Expressions.h): a tree of inputs, constants, calls, field
 accesses, dereferences, row constructors, lambdas and casts, each with its result type.
 */
module TypedExpressions {

  datatype Type =
    | ScalarType(kind: string)
    | ArrayType(element: Type)
    | MapType(key: Type, value: Type)
    | RowType(names: seq<string>, children: seq<Type>)
    | FunctionType(arguments: seq<Type>, result: Type)

  /** A constant: a variant of a given type, or a vector, whose type is its own. */
  datatype Constant = Variant(ty: Type, value: int) | Vector(vectorType: Type, payload: int)

  datatype Expr =
    // The whole input row.
    | Input(ty: Type)
    | Const(constant: Constant)
    | Call(ty: Type, inputs: seq<Expr>, name: string)
    // FieldAccessTypedExpr without and with an input.
    | Column(ty: Type, name: string)
    | Field(ty: Type, input: Expr, name: string)
    | Dereference(ty: Type, input: Expr, index: nat)
    | Concat(names: seq<string>, inputs: seq<Expr>)
    | Lambda(params: seq<string>, paramTypes: seq<Type>, body: Expr)
    | Cast(ty: Type, input: Expr, nullOnFailure: bool)

  /** The type of an expression; a row constructor and a lambda derive theirs from their parts. */
  function TypeOf(e: Expr): Type {
    match e
    case Const(Variant(ty, _)) => ty
    case Const(Vector(ty, _)) => ty
    case Concat(names, inputs) => RowType(names, TypesOf(inputs)[..if |names| < |inputs| then |names| else |inputs|])
    case Lambda(_, paramTypes, body) => FunctionType(paramTypes, TypeOf(body))
    case _ => e.ty
  }

  function TypesOf(es: seq<Expr>): (ts: seq<Type>)
    ensures |ts| == |es|
  {
    seq(|es|, i requires 0 <= i < |es| => TypeOf(es[i]))
  }

  /** What the constructors of expressions check. */
  predicate WellFormed(e: Expr) {
    match e
    case Call(_, inputs, _) => forall x <- inputs :: WellFormed(x)
    case Field(_, input, _) => WellFormed(input)
    case Dereference(_, input, _) => !input.Input? && WellFormed(input)
    case Concat(names, inputs) => |names| <= |inputs| && forall x <- inputs :: WellFormed(x)
    case Lambda(params, paramTypes, body) => |params| == |paramTypes| && WellFormed(body)
    case Cast(_, input, _) => WellFormed(input)
    case _ => true
  }

  /** Some constant in the expression is a vector. */
  predicate HasVector(e: Expr) {
    match e
    case Const(c) => c.Vector?
    case Call(_, inputs, _) => exists x <- inputs :: HasVector(x)
    case Field(_, input, _) => HasVector(input)
    case Dereference(_, input, _) => HasVector(input)
    case Concat(_, inputs) => exists x <- inputs :: HasVector(x)
    case Lambda(_, _, body) => HasVector(body)
    case Cast(_, input, _) => HasVector(input)
    case _ => false
  }

  /** A FieldAccessTypedExpr. */
  predicate IsField(e: Expr) {
    e.Column? || e.Field?
  }
}
