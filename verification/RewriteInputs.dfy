/**
 `rewriteInputNames` (velox/core/Expressions.h): replaces input columns by expressions.

 The reference is an evaluator that fixes only what binds what: columns are looked up by name, a field
 access on the whole input row is a column too, and a lambda evaluates its body with its parameters bound
 and everything else captured.  Every other construct means whatever an interpretation says.
 */
module RewriteInputs {
  import opened TypedExpressions

  datatype Error = AmbiguousVariable(name: string) | DereferenceOfInput
  datatype Result<+T> = Ok(value: T) | Err(error: Error)

  type Mapping = map<string, Expr>

  // ----- the rewriting -----

  /** The first of `names` that the mapping would replace. */
  function FirstMapped(names: seq<string>, m: Mapping): Result<string> {
    if names == [] then Ok("")
    else if names[0] in m then Err(AmbiguousVariable(names[0]))
    else FirstMapped(names[1..], m)
  }

  function Rewrite(e: Expr, m: Mapping): Result<Expr> {
    match e
    case Input(_) => Ok(e)
    case Const(_) => Ok(e)
    case Call(ty, inputs, name) =>
      var r := RewriteAll(inputs, m);
      if r.Err? then Err(r.error) else Ok(Call(ty, r.value, name))
    case Column(ty, name) => Ok(if name in m then m[name] else e)
    case Field(ty, input, name) =>
      var r := Rewrite(input, m);
      if r.Err? then r
      else if !r.value.Input? then Ok(Field(ty, r.value, name))
      else Ok(Field(ty, r.value, NewName(name, m)))
    case Dereference(ty, input, index) =>
      var r := Rewrite(input, m);
      if r.Err? then r
      else if r.value.Input? then Err(DereferenceOfInput)
      else Ok(Dereference(ty, r.value, index))
    case Concat(names, inputs) =>
      var r := RewriteAll(inputs, m);
      if r.Err? then Err(r.error) else Ok(Concat(names, r.value))
    case Lambda(params, paramTypes, body) =>
      var check := FirstMapped(params, m);
      if check.Err? then Err(check.error)
      else
        var r := Rewrite(body, m);
        if r.Err? then r else Ok(Lambda(params, paramTypes, r.value))
    case Cast(ty, input, nullOnFailure) =>
      var r := Rewrite(input, m);
      if r.Err? then r else Ok(Cast(ty, r.value, nullOnFailure))
  }

  /** The new name of a column of the whole input row: the mapped field access's own name, if it is one. */
  function NewName(name: string, m: Mapping): string {
    if name in m && (m[name].Column? || m[name].Field?) then m[name].name else name
  }

  function RewriteAll(es: seq<Expr>, m: Mapping): Result<seq<Expr>> {
    if es == [] then Ok([])
    else
      var r := Rewrite(es[0], m);
      if r.Err? then Err(r.error)
      else
        var rest := RewriteAll(es[1..], m);
        if rest.Err? then rest else Ok([r.value] + rest.value)
  }

  lemma {:induction false} RewriteAllAt(es: seq<Expr>, m: Mapping)
    ensures RewriteAll(es, m).Ok? ==>
              && |RewriteAll(es, m).value| == |es|
              && forall i :: 0 <= i < |es| ==> Rewrite(es[i], m) == Ok(RewriteAll(es, m).value[i])
    ensures RewriteAll(es, m).Err? ==> exists i :: 0 <= i < |es| && Rewrite(es[i], m) == Err(RewriteAll(es, m).error)
  {
    if es != [] {
      RewriteAllAt(es[1..], m);
      assert forall i :: 0 <= i < |es| - 1 ==> es[1..][i] == es[i + 1];
      if RewriteAll(es, m).Err? && Rewrite(es[0], m).Ok? {
        var i :| 0 <= i < |es[1..]| && Rewrite(es[1..][i], m) == Err(RewriteAll(es[1..], m).error);
        assert Rewrite(es[i + 1], m) == Err(RewriteAll(es, m).error);
      }
    }
  }

  /** `rewriteInputsRecursive`: rewrites the inputs one after the other, stopping at the first failure. */
  method RewriteInputsRecursive(inputs: seq<Expr>, m: Mapping) returns (r: Result<seq<Expr>>)
    ensures r == RewriteAll(inputs, m)
  {
    var newInputs := [];
    assert inputs[0..] == inputs;
    ghost var all := RewriteAll(inputs, m);
    assert all.Ok? ==> newInputs + all.value == all.value;
    for i := 0 to |inputs|
      invariant RewriteAll(inputs, m) ==
                var rest := RewriteAll(inputs[i..], m); if rest.Err? then rest else Ok(newInputs + rest.value)
    {
      assert inputs[i..][1..] == inputs[i + 1..];
      var input := Rewrite(inputs[i], m);
      if input.Err? {
        return Err(input.error);
      }
      ghost var rest := RewriteAll(inputs[i + 1..], m);
      assert rest.Ok? ==> newInputs + ([input.value] + rest.value) == newInputs + [input.value] + rest.value;
      newInputs := newInputs + [input.value];
    }
    assert newInputs + [] == newInputs;
    r := Ok(newInputs);
  }

  // ----- the reference evaluator -----

  type Env<V> = map<string, V>

  /** What the constructs other than columns and binders mean. */
  datatype Interpretation<!V(==)> = Interpretation(
    constant: Constant -> V,
    call: (string, Type, seq<V>) -> V,
    field: (Type, V, string) -> V,
    dereference: (Type, V, nat) -> V,
    concat: (seq<string>, seq<V>) -> V,
    cast: (Type, bool, V) -> V,
    // A lambda is known by its graph.
    lambda: (seq<Type>, imap<seq<V>, V>) -> V,
    // A column that is not there, and the whole row.
    unbound: string -> V,
    row: Env<V> -> V)

  function Lookup<V(==)>(I: Interpretation<V>, env: Env<V>, name: string): V {
    if name in env then env[name] else I.unbound(name)
  }

  /** Parameters shadow what they are named after; the last of equal names wins. */
  function Bind<V>(params: seq<string>, args: seq<V>, env: Env<V>): Env<V>
    requires |params| == |args|
  {
    if params == [] then env else Bind(params[1..], args[1..], env[params[0] := args[0]])
  }

  ghost function Eval<V(!new)>(I: Interpretation<V>, e: Expr, env: Env<V>): V {
    match e
    case Input(_) => I.row(env)
    case Const(c) => I.constant(c)
    case Call(ty, inputs, name) => I.call(name, ty, EvalAll(I, inputs, env))
    case Column(_, name) => Lookup(I, env, name)
    case Field(ty, input, name) =>
      if input.Input? then Lookup(I, env, name) else I.field(ty, Eval(I, input, env), name)
    case Dereference(ty, input, index) => I.dereference(ty, Eval(I, input, env), index)
    case Concat(names, inputs) => I.concat(names, EvalAll(I, inputs, env))
    case Lambda(params, paramTypes, body) =>
      I.lambda(paramTypes, imap args: seq<V> | |args| == |params| :: Eval(I, body, Bind(params, args, env)))
    case Cast(ty, input, nullOnFailure) => I.cast(ty, nullOnFailure, Eval(I, input, env))
  }

  ghost function EvalAll<V(!new)>(I: Interpretation<V>, es: seq<Expr>, env: Env<V>): (vs: seq<V>)
    ensures |vs| == |es|
  {
    seq(|es|, i requires 0 <= i < |es| => Eval(I, es[i], env))
  }

  /** The environment in which every mapped column has the value of its expression. */
  ghost function Mapped<V(!new)>(I: Interpretation<V>, m: Mapping, env: Env<V>): Env<V> {
    env + map name | name in m :: Eval(I, m[name], env)
  }

  // ----- scoping -----

  /** The whole row occurs only under a field access, as the expression compiler demands. */
  predicate WellScoped(e: Expr) {
    match e
    case Input(_) => false
    case Call(_, inputs, _) => forall x <- inputs :: WellScoped(x)
    case Field(_, input, _) => input.Input? || WellScoped(input)
    case Dereference(_, input, _) => WellScoped(input)
    case Concat(_, inputs) => forall x <- inputs :: WellScoped(x)
    case Lambda(_, _, body) => WellScoped(body)
    case Cast(_, input, _) => WellScoped(input)
    case _ => true
  }

  ghost predicate WellScopedMapping(m: Mapping) {
    forall name :: name in m ==> WellScoped(m[name])
  }

  /** The columns an expression reads from its surroundings. */
  function Free(e: Expr): set<string> {
    match e
    case Column(_, name) => {name}
    case Call(_, inputs, _) => set x, name | x in inputs && name in Free(x) :: name
    case Field(_, input, name) => if input.Input? then {name} else Free(input)
    case Dereference(_, input, _) => Free(input)
    case Concat(_, inputs) => set x, name | x in inputs && name in Free(x) :: name
    case Lambda(params, _, body) => Free(body) - (set p | p in params)
    case Cast(_, input, _) => Free(input)
    case _ => {}
  }

  /** The names bound by lambdas anywhere in an expression. */
  function LambdaNames(e: Expr): set<string> {
    match e
    case Call(_, inputs, _) => set x, name | x in inputs && name in LambdaNames(x) :: name
    case Field(_, input, _) => LambdaNames(input)
    case Dereference(_, input, _) => LambdaNames(input)
    case Concat(_, inputs) => set x, name | x in inputs && name in LambdaNames(x) :: name
    case Lambda(params, _, body) => LambdaNames(body) + (set p | p in params)
    case Cast(_, input, _) => LambdaNames(input)
    case _ => {}
  }

  /**
   What a caller has to check, with `bound` the lambda parameters in scope: a mapped column is not
   replaced by an expression that reads one of them, and a mapped column of the whole row is mapped to a
   plain column that is none of them.
   */
  predicate Faithful(e: Expr, m: Mapping, bound: set<string>) {
    match e
    case Column(_, name) => name in m ==> Free(m[name]) !! bound
    case Call(_, inputs, _) => forall x <- inputs :: Faithful(x, m, bound)
    case Field(_, input, name) =>
      if input.Input? then name in m ==> IsPlainColumn(m[name]) && m[name].name !in bound
      else Faithful(input, m, bound)
    case Dereference(_, input, _) => Faithful(input, m, bound)
    case Concat(_, inputs) => forall x <- inputs :: Faithful(x, m, bound)
    case Lambda(params, _, body) => Faithful(body, m, bound + (set p | p in params))
    case Cast(_, input, _) => Faithful(input, m, bound)
    case _ => true
  }

  /** A column, in either of its two spellings. */
  predicate IsPlainColumn(e: Expr) {
    e.Column? || (e.Field? && e.input.Input?)
  }

  // ----- the substitution lemma -----

  lemma {:induction false} BindAgree<V>(I: Interpretation<V>, params: seq<string>, args: seq<V>,
                                        a: Env<V>, b: Env<V>, x: string)
    requires |params| == |args| && (x in params || Lookup(I, a, x) == Lookup(I, b, x))
    ensures Lookup(I, Bind(params, args, a), x) == Lookup(I, Bind(params, args, b), x)
    decreases |params|
  {
    if params != [] {
      BindAgree(I, params[1..], args[1..], a[params[0] := args[0]], b[params[0] := args[0]], x);
    }
  }

  lemma {:induction false} BindOther<V>(I: Interpretation<V>, params: seq<string>, args: seq<V>, a: Env<V>, x: string)
    requires |params| == |args| && x !in params
    ensures Lookup(I, Bind(params, args, a), x) == Lookup(I, a, x)
    decreases |params|
  {
    if params != [] {
      BindOther(I, params[1..], args[1..], a[params[0] := args[0]], x);
    }
  }

  /** An expression depends only on its free columns. */
  lemma {:induction false} Coincidence<V(!new)>(I: Interpretation<V>, e: Expr, a: Env<V>, b: Env<V>)
    requires WellScoped(e)
    requires forall x :: x in Free(e) ==> Lookup(I, a, x) == Lookup(I, b, x)
    ensures Eval(I, e, a) == Eval(I, e, b)
    decreases e
  {
    match e
    case Call(_, inputs, _) =>
      forall i | 0 <= i < |inputs| ensures Eval(I, inputs[i], a) == Eval(I, inputs[i], b) {
        Coincidence(I, inputs[i], a, b);
      }
      assert EvalAll(I, inputs, a) == EvalAll(I, inputs, b);
    case Concat(_, inputs) =>
      forall i | 0 <= i < |inputs| ensures Eval(I, inputs[i], a) == Eval(I, inputs[i], b) {
        Coincidence(I, inputs[i], a, b);
      }
      assert EvalAll(I, inputs, a) == EvalAll(I, inputs, b);
    case Field(_, input, _) => if !input.Input? { Coincidence(I, input, a, b); }
    case Dereference(_, input, _) => Coincidence(I, input, a, b);
    case Cast(_, input, _) => Coincidence(I, input, a, b);
    case Lambda(params, paramTypes, body) =>
      forall args: seq<V> | |args| == |params|
        ensures Eval(I, body, Bind(params, args, a)) == Eval(I, body, Bind(params, args, b))
      {
        forall x | x in Free(body) ensures Lookup(I, Bind(params, args, a), x) == Lookup(I, Bind(params, args, b), x) {
          BindAgree(I, params, args, a, b, x);
        }
        Coincidence(I, body, Bind(params, args, a), Bind(params, args, b));
      }
      assert (imap args: seq<V> | |args| == |params| :: Eval(I, body, Bind(params, args, a)))
          == (imap args: seq<V> | |args| == |params| :: Eval(I, body, Bind(params, args, b)));
    case _ =>
  }

  /**
   Under lambdas binding `bound`: `a` is the scope of the rewritten expression, opened over `base`, and
   `b` is the same scope with the mapped columns bound to the values of their expressions in `base`.
   */
  ghost predicate Scopes<V(!new)>(I: Interpretation<V>, m: Mapping, bound: set<string>,
                                  base: Env<V>, a: Env<V>, b: Env<V>)
  {
    && bound !! m.Keys
    && (forall x :: x !in bound ==> Lookup(I, a, x) == Lookup(I, base, x))
    && (forall x :: Lookup(I, b, x) == if x in m then Eval(I, m[x], base) else Lookup(I, a, x))
  }

  lemma OpenScope<V(!new)>(I: Interpretation<V>, m: Mapping, bound: set<string>, base: Env<V>, a: Env<V>, b: Env<V>,
                           params: seq<string>, args: seq<V>)
    requires Scopes(I, m, bound, base, a, b) && |params| == |args| && forall p :: p in params ==> p !in m
    ensures Scopes(I, m, bound + (set p | p in params), base, Bind(params, args, a), Bind(params, args, b))
  {
    var a', b' := Bind(params, args, a), Bind(params, args, b);
    forall x ensures Lookup(I, b', x) == if x in m then Eval(I, m[x], base) else Lookup(I, a', x) {
      if x in m {
        BindOther(I, params, args, b, x);
      } else {
        BindAgree(I, params, args, a, b, x);
      }
    }
    forall x | x !in bound + (set p | p in params) ensures Lookup(I, a', x) == Lookup(I, base, x) {
      BindOther(I, params, args, a, x);
    }
  }

  lemma {:induction false} FirstMappedOk(names: seq<string>, m: Mapping)
    ensures FirstMapped(names, m).Ok? <==> forall p :: p in names ==> p !in m
  {
    if names != [] {
      FirstMappedOk(names[1..], m);
    }
  }

  /** A column becomes the whole row only if it is mapped to it. */
  lemma RewriteNotInput(e: Expr, m: Mapping)
    requires WellScoped(e) && WellScopedMapping(m) && Rewrite(e, m).Ok?
    ensures !Rewrite(e, m).value.Input?
  {
  }

  lemma {:induction false} SubstitutionIn<V(!new)>(I: Interpretation<V>, e: Expr, m: Mapping, bound: set<string>,
                                                   base: Env<V>, a: Env<V>, b: Env<V>)
    requires WellScoped(e) && WellScopedMapping(m) && Rewrite(e, m).Ok?
    requires Faithful(e, m, bound) && Scopes(I, m, bound, base, a, b)
    ensures Eval(I, Rewrite(e, m).value, a) == Eval(I, e, b)
    decreases e
  {
    match e
    case Column(_, name) =>
      if name in m {
        Coincidence(I, m[name], a, base);
      }
    case Call(_, inputs, _) => SubstitutionAll(I, e, inputs, m, bound, base, a, b);
    case Concat(_, inputs) => SubstitutionAll(I, e, inputs, m, bound, base, a, b);
    case Field(_, input, name) =>
      if !input.Input? {
        RewriteNotInput(input, m);
        SubstitutionIn(I, input, m, bound, base, a, b);
      }
    case Dereference(_, input, _) => SubstitutionIn(I, input, m, bound, base, a, b);
    case Cast(_, input, _) => SubstitutionIn(I, input, m, bound, base, a, b);
    case Lambda(params, paramTypes, body) =>
      FirstMappedOk(params, m);
      var body' := Rewrite(body, m).value;
      forall args: seq<V> | |args| == |params|
        ensures Eval(I, body', Bind(params, args, a)) == Eval(I, body, Bind(params, args, b))
      {
        OpenScope(I, m, bound, base, a, b, params, args);
        SubstitutionIn(I, body, m, bound + (set p | p in params), base, Bind(params, args, a), Bind(params, args, b));
      }
      assert (imap args: seq<V> | |args| == |params| :: Eval(I, body', Bind(params, args, a)))
          == (imap args: seq<V> | |args| == |params| :: Eval(I, body, Bind(params, args, b)));
    case _ =>
  }

  lemma {:induction false} SubstitutionAll<V(!new)>(I: Interpretation<V>, parent: Expr, es: seq<Expr>, m: Mapping,
                                                    bound: set<string>, base: Env<V>, a: Env<V>, b: Env<V>)
    requires forall x :: x in es ==> x < parent
    requires (forall x :: x in es ==> WellScoped(x) && Faithful(x, m, bound)) && WellScopedMapping(m)
    requires RewriteAll(es, m).Ok? && Scopes(I, m, bound, base, a, b)
    ensures EvalAll(I, RewriteAll(es, m).value, a) == EvalAll(I, es, b)
    decreases parent, 0
  {
    RewriteAllAt(es, m);
    forall i | 0 <= i < |es| ensures Eval(I, RewriteAll(es, m).value[i], a) == Eval(I, es[i], b) {
      assert es[i] in es;
      SubstitutionIn(I, es[i], m, bound, base, a, b);
    }
  }

  /**
   If the rewriting succeeds and is faithful, the rewritten expression means, under every interpretation
   and in every environment, what the original means with the mapped columns bound to their expressions.
   */
  lemma Substitution<V(!new)>(I: Interpretation<V>, e: Expr, m: Mapping, env: Env<V>)
    requires WellScoped(e) && WellScopedMapping(m) && Rewrite(e, m).Ok? && Faithful(e, m, {})
    ensures Eval(I, Rewrite(e, m).value, env) == Eval(I, e, Mapped(I, m, env))
  {
    SubstitutionIn(I, e, m, {}, env, env, Mapped(I, m, env));
  }

  // ----- the conditions are necessary -----

  /** Values that remember how they were computed; a lambda is known by what it does to `Probe`. */
  datatype Term =
    | Probe
    | ColumnTerm(name: string)
    | ConstTerm(constant: Constant)
    | CallTerm(name: string, ty: Type, args: seq<Term>)
    | FieldTerm(ty: Type, arg: Term, name: string)
    | DereferenceTerm(ty: Type, arg: Term, index: nat)
    | ConcatTerm(names: seq<string>, args: seq<Term>)
    | CastTerm(ty: Type, nullOnFailure: bool, arg: Term)
    | LambdaTerm(paramTypes: seq<Type>, body: Term)

  function Probes(n: nat): seq<Term> {
    seq(n, i => Probe)
  }

  /** The result of a lambda on as many probes as it takes. */
  ghost function ApplyToProbes(graph: imap<seq<Term>, Term>): Term {
    if exists n: nat :: Probes(n) in graph then
      var n: nat :| Probes(n) in graph;
      graph[Probes(n)]
    else
      Probe
  }

  /** The interpretation that only records what is applied to what. */
  ghost function Recording(): Interpretation<Term> {
    Interpretation(
      c => ConstTerm(c),
      (name, ty, args) => CallTerm(name, ty, args),
      (ty, arg, name) => FieldTerm(ty, arg, name),
      (ty, arg, index) => DereferenceTerm(ty, arg, index),
      (names, args) => ConcatTerm(names, args),
      (ty, nullOnFailure, arg) => CastTerm(ty, nullOnFailure, arg),
      (paramTypes, graph) => LambdaTerm(paramTypes, ApplyToProbes(graph)),
      name => ColumnTerm(name),
      env => Probe)
  }

  lemma RecordLambda(params: seq<string>, paramTypes: seq<Type>, body: Expr, env: Env<Term>)
    ensures Eval(Recording(), Lambda(params, paramTypes, body), env)
         == LambdaTerm(paramTypes, Eval(Recording(), body, Bind(params, Probes(|params|), env)))
  {
    var graph := imap args: seq<Term> | |args| == |params| :: Eval(Recording(), body, Bind(params, args, env));
    assert Probes(|params|) in graph;
    assert forall n: nat :: Probes(n) in graph ==> |Probes(n)| == n == |params|;
  }

  lemma {:induction false} BindProbes(params: seq<string>, env: Env<Term>, x: string)
    requires x in params || Lookup(Recording(), env, x) == Probe
    ensures Lookup(Recording(), Bind(params, Probes(|params|), env), x) == Probe
    decreases |params|
  {
    if params != [] {
      assert Probes(|params|)[1..] == Probes(|params[1..]|);
      BindProbes(params[1..], env[params[0] := Probe], x);
    }
  }

  /** Under the recording interpretation an expression reveals every free column. */
  lemma {:induction false} Revealed(e: Expr, a: Env<Term>, b: Env<Term>, x: string)
    requires WellScoped(e) && Eval(Recording(), e, a) == Eval(Recording(), e, b) && x in Free(e)
    ensures Lookup(Recording(), a, x) == Lookup(Recording(), b, x)
    decreases e
  {
    match e
    case Call(_, inputs, _) => RevealedAll(e, inputs, a, b, x);
    case Concat(_, inputs) => RevealedAll(e, inputs, a, b, x);
    case Field(_, input, _) => if !input.Input? { Revealed(input, a, b, x); }
    case Dereference(_, input, _) => Revealed(input, a, b, x);
    case Cast(_, input, _) => Revealed(input, a, b, x);
    case Lambda(params, paramTypes, body) =>
      RecordLambda(params, paramTypes, body, a);
      RecordLambda(params, paramTypes, body, b);
      var probes := Probes(|params|);
      Revealed(body, Bind(params, probes, a), Bind(params, probes, b), x);
      BindOther(Recording(), params, probes, a, x);
      BindOther(Recording(), params, probes, b, x);
    case _ =>
  }

  lemma {:induction false} RevealedAll(parent: Expr, es: seq<Expr>, a: Env<Term>, b: Env<Term>, x: string)
    requires forall y :: y in es ==> y < parent && WellScoped(y)
    requires EvalAll(Recording(), es, a) == EvalAll(Recording(), es, b)
    requires exists y :: y in es && x in Free(y)
    ensures Lookup(Recording(), a, x) == Lookup(Recording(), b, x)
    decreases parent, 0
  {
    var i :| 0 <= i < |es| && x in Free(es[i]);
    assert EvalAll(Recording(), es, a)[i] == EvalAll(Recording(), es, b)[i];
    assert es[i] in es;
    Revealed(es[i], a, b, x);
  }

  lemma {:induction false} NecessaryIn(e: Expr, m: Mapping, bound: set<string>, a: Env<Term>, b: Env<Term>)
    requires WellScoped(e) && WellScopedMapping(m) && Rewrite(e, m).Ok?
    requires Scopes(Recording(), m, bound, map[], a, b) && forall x :: x in bound ==> Lookup(Recording(), a, x) == Probe
    requires Eval(Recording(), Rewrite(e, m).value, a) == Eval(Recording(), e, b)
    ensures Faithful(e, m, bound)
    decreases e
  {
    match e
    case Column(_, name) =>
      if name in m {
        forall x | x in Free(m[name]) ensures x !in bound {
          Revealed(m[name], a, map[], x);
        }
      }
    case Call(_, inputs, _) => NecessaryAll(e, inputs, m, bound, a, b);
    case Concat(_, inputs) => NecessaryAll(e, inputs, m, bound, a, b);
    case Field(_, input, name) =>
      if !input.Input? {
        RewriteNotInput(input, m);
        NecessaryIn(input, m, bound, a, b);
      }
    case Dereference(_, input, _) => NecessaryIn(input, m, bound, a, b);
    case Cast(_, input, _) => NecessaryIn(input, m, bound, a, b);
    case Lambda(params, paramTypes, body) =>
      FirstMappedOk(params, m);
      RecordLambda(params, paramTypes, Rewrite(body, m).value, a);
      RecordLambda(params, paramTypes, body, b);
      var probes := Probes(|params|);
      var bound' := bound + (set p | p in params);
      OpenScope(Recording(), m, bound, map[], a, b, params, probes);
      forall x | x in bound' ensures Lookup(Recording(), Bind(params, probes, a), x) == Probe {
        BindProbes(params, a, x);
      }
      NecessaryIn(body, m, bound', Bind(params, probes, a), Bind(params, probes, b));
    case _ =>
  }

  lemma {:induction false} NecessaryAll(parent: Expr, es: seq<Expr>, m: Mapping, bound: set<string>,
                                        a: Env<Term>, b: Env<Term>)
    requires forall x :: x in es ==> x < parent && WellScoped(x)
    requires WellScopedMapping(m) && RewriteAll(es, m).Ok?
    requires Scopes(Recording(), m, bound, map[], a, b) && forall x :: x in bound ==> Lookup(Recording(), a, x) == Probe
    requires EvalAll(Recording(), RewriteAll(es, m).value, a) == EvalAll(Recording(), es, b)
    ensures forall x :: x in es ==> Faithful(x, m, bound)
    decreases parent, 0
  {
    RewriteAllAt(es, m);
    forall i | 0 <= i < |es| ensures Faithful(es[i], m, bound) {
      assert EvalAll(Recording(), RewriteAll(es, m).value, a)[i] == EvalAll(Recording(), es, b)[i];
      assert es[i] in es;
      NecessaryIn(es[i], m, bound, a, b);
    }
  }

  /** The rewritten expression always means what it should. */
  ghost predicate PreservesMeaning(e: Expr, m: Mapping)
    requires Rewrite(e, m).Ok?
  {
    forall I: Interpretation<Term>, env: Env<Term> :: Eval(I, Rewrite(e, m).value, env) == Eval(I, e, Mapped(I, m, env))
  }

  /** A successful rewriting preserves meaning exactly when it is faithful. */
  lemma PreservesMeaningIff(e: Expr, m: Mapping)
    requires WellScoped(e) && WellScopedMapping(m) && Rewrite(e, m).Ok?
    ensures PreservesMeaning(e, m) <==> Faithful(e, m, {})
  {
    if Faithful(e, m, {}) {
      forall I: Interpretation<Term>, env: Env<Term>
        ensures Eval(I, Rewrite(e, m).value, env) == Eval(I, e, Mapped(I, m, env))
      {
        Substitution(I, e, m, env);
      }
    }
    if PreservesMeaning(e, m) {
      NecessaryIn(e, m, {}, map[], Mapped(Recording(), m, map[]));
    }
  }

  /** The rewriting fails exactly when some lambda has a parameter named like a mapped column. */
  lemma {:induction false} RewriteFailsIff(e: Expr, m: Mapping)
    requires WellScoped(e) && WellScopedMapping(m)
    ensures Rewrite(e, m).Ok? <==> LambdaNames(e) !! m.Keys
    decreases e
  {
    match e
    case Call(_, inputs, _) => RewriteAllFailsIff(e, inputs, m);
    case Concat(_, inputs) => RewriteAllFailsIff(e, inputs, m);
    case Field(_, input, _) => if !input.Input? { RewriteFailsIff(input, m); }
    case Dereference(_, input, _) =>
      RewriteFailsIff(input, m);
      if Rewrite(input, m).Ok? { RewriteNotInput(input, m); }
    case Cast(_, input, _) => RewriteFailsIff(input, m);
    case Lambda(params, _, body) =>
      FirstMappedOk(params, m);
      RewriteFailsIff(body, m);
    case _ =>
  }

  lemma {:induction false} RewriteAllFailsIff(parent: Expr, es: seq<Expr>, m: Mapping)
    requires (forall x :: x in es ==> x < parent && WellScoped(x)) && WellScopedMapping(m)
    ensures RewriteAll(es, m).Ok? <==> forall x :: x in es ==> LambdaNames(x) !! m.Keys
    decreases parent, 0
  {
    RewriteAllAt(es, m);
    forall i | 0 <= i < |es| ensures Rewrite(es[i], m).Ok? <==> LambdaNames(es[i]) !! m.Keys {
      assert es[i] in es;
      RewriteFailsIff(es[i], m);
    }
    if RewriteAll(es, m).Err? {
      var i :| 0 <= i < |es| && Rewrite(es[i], m).Err?;
      assert es[i] in es;
    }
  }

  // ----- rewritings that go wrong -----

  const INT := ScalarType("INTEGER")

  const F_OF_I_AND_A := Call(INT, [Column(INT, "i"), Column(INT, "a")], "f")

  lemma RewritesUnderLambda(m: Mapping)
    requires m == map["a" := Column(INT, "i")]
    ensures WellScoped(F_OF_I_AND_A) && Rewrite(Lambda(["i"], [INT], F_OF_I_AND_A), m).Ok?
  {
    forall x | x in F_OF_I_AND_A.inputs ensures LambdaNames(x) == {} && WellScoped(x) {}
    assert LambdaNames(F_OF_I_AND_A) == {} && WellScoped(F_OF_I_AND_A);
    RewriteFailsIff(Lambda(["i"], [INT], F_OF_I_AND_A), m);
  }

  lemma CapturesParameter(m: Mapping)
    requires m == map["a" := Column(INT, "i")]
    ensures !Faithful(Lambda(["i"], [INT], F_OF_I_AND_A), m, {})
  {
    assert F_OF_I_AND_A.inputs[1] in F_OF_I_AND_A.inputs;
    assert !Faithful(F_OF_I_AND_A, m, {"i"}) by {
      assert !Faithful(F_OF_I_AND_A.inputs[1], m, {"i"});
    }
    assert {} + (set p | p in ["i"]) == {"i"};
  }

  /** In `i -> f(i, a)`, mapping `a` to `i` succeeds, and captures the parameter. */
  lemma Capture()
    ensures var e := Lambda(["i"], [INT], Call(INT, [Column(INT, "i"), Column(INT, "a")], "f"));
            var m: Mapping := map["a" := Column(INT, "i")];
            Rewrite(e, m).Ok? && !PreservesMeaning(e, m)
  {
    var e := Lambda(["i"], [INT], F_OF_I_AND_A);
    var m: Mapping := map["a" := Column(INT, "i")];
    RewritesUnderLambda(m);
    CapturesParameter(m);
    PreservesMeaningIff(e, m);
  }

  /** Mapping `a` to `b.k` renames column `a` of the whole row to `k`. */
  lemma WholeRowToSubfield()
    ensures var e := Field(INT, Input(RowType(["a", "k"], [INT, INT])), "a");
            var m: Mapping := map["a" := Field(INT, Column(RowType(["k"], [INT]), "b"), "k")];
            Rewrite(e, m).Ok? && !PreservesMeaning(e, m)
  {
    var e := Field(INT, Input(RowType(["a", "k"], [INT, INT])), "a");
    var m: Mapping := map["a" := Field(INT, Column(RowType(["k"], [INT]), "b"), "k")];
    PreservesMeaningIff(e, m);
  }

  // ----- types -----

  /** Every mapped column has the type of its expression. */
  predicate SameTypes(e: Expr, m: Mapping) {
    match e
    case Column(ty, name) => name in m ==> TypeOf(m[name]) == ty
    case Call(_, inputs, _) => forall x <- inputs :: SameTypes(x, m)
    case Field(_, input, _) => SameTypes(input, m)
    case Dereference(_, input, _) => SameTypes(input, m)
    case Concat(_, inputs) => forall x <- inputs :: SameTypes(x, m)
    case Lambda(_, _, body) => SameTypes(body, m)
    case Cast(_, input, _) => SameTypes(input, m)
    case _ => true
  }

  /** Rewriting with expressions of the columns' types preserves the type of the expression. */
  lemma {:induction false} TypePreserved(e: Expr, m: Mapping)
    requires Rewrite(e, m).Ok? && SameTypes(e, m)
    ensures TypeOf(Rewrite(e, m).value) == TypeOf(e)
    decreases e
  {
    match e
    case Concat(_, inputs) =>
      RewriteAllAt(inputs, m);
      var inputs' := RewriteAll(inputs, m).value;
      forall i | 0 <= i < |inputs| ensures TypeOf(inputs'[i]) == TypeOf(inputs[i]) {
        assert inputs[i] in inputs;
        TypePreserved(inputs[i], m);
      }
      assert TypesOf(inputs') == TypesOf(inputs);
    case Lambda(_, _, body) => TypePreserved(body, m);
    case _ =>
  }
}
