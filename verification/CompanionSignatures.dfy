/**
 Signatures of companion aggregate functions (velox/exec/AggregateCompanionSignatures.cpp and .h):
 which variables a type uses, whether a result type follows from an intermediate type, and the
 normalisation that renames variables in the order they are met.
 */
module CompanionSignatures {
  import opened Options

  /** A type signature: a type or variable name, its parameters, and its name as a row field. */
  datatype TypeSignature = TypeSignature(base: string, params: seq<TypeSignature>, fieldName: Option<string>)

  datatype Signature = Signature(
    variables: set<string>,
    returnType: TypeSignature,
    intermediateType: TypeSignature,
    argumentTypes: seq<TypeSignature>,
    constantArguments: seq<bool>,
    variableArity: bool)

  /** Variables take no parameters, which the constructor of a signature checks. */
  predicate VariablesAreLeaves(t: TypeSignature, vars: set<string>) {
    && (t.base in vars ==> t.params == [])
    && forall p <- t.params :: VariablesAreLeaves(p, vars)
  }

  predicate ValidSignature(s: Signature) {
    VariablesAreLeaves(s.returnType, s.variables) && VariablesAreLeaves(s.intermediateType, s.variables)
  }

  // ----- used variables -----

  function Used(t: TypeSignature, vars: set<string>): (r: set<string>)
    ensures r <= vars
  {
    (if t.base in vars then {t.base} else {}) + UsedIn(t.params, vars)
  }

  function UsedIn(ts: seq<TypeSignature>, vars: set<string>): (r: set<string>)
    ensures r <= vars
  {
    set t, v | t in ts && v in Used(t, vars) :: v
  }

  lemma UsedInAppend(ts: seq<TypeSignature>, t: TypeSignature, vars: set<string>)
    ensures UsedIn(ts + [t], vars) == UsedIn(ts, vars) + Used(t, vars)
  {
  }

  /** `addUsedVariablesInType`: adds the variables of a type to those collected so far. */
  method AddUsedVariables(t: TypeSignature, vars: set<string>, collected: set<string>) returns (result: set<string>)
    ensures result == collected + Used(t, vars)
    decreases t
  {
    result := collected;
    if t.base in vars {
      result := result + {t.base};
    }
    for i := 0 to |t.params|
      invariant result == collected + (if t.base in vars then {t.base} else {}) + UsedIn(t.params[..i], vars)
    {
      UsedInAppend(t.params[..i], t.params[i], vars);
      result := AddUsedVariables(t.params[i], vars, result);
      assert t.params[..i + 1] == t.params[..i] + [t.params[i]];
    }
    assert t.params[..|t.params|] == t.params;
  }

  method UsedTypeVariables(types: seq<TypeSignature>, vars: set<string>) returns (result: set<string>)
    ensures result == UsedIn(types, vars)
  {
    result := {};
    for i := 0 to |types|
      invariant result == UsedIn(types[..i], vars)
    {
      UsedInAppend(types[..i], types[i], vars);
      result := AddUsedVariables(types[i], vars, result);
      assert types[..i + 1] == types[..i] + [types[i]];
    }
    assert types[..|types|] == types;
  }

  /** `isResultTypeResolvableGivenIntermediateType`. */
  predicate Resolvable(s: Signature) {
    Used(s.returnType, s.variables) <= Used(s.intermediateType, s.variables)
  }

  method IsResultTypeResolvable(s: Signature) returns (b: bool)
    ensures b <==> Resolvable(s)
  {
    if s.variables == {} {
      return true;
    }
    var inIntermediate := UsedTypeVariables([s.intermediateType], s.variables);
    var inResult := UsedTypeVariables([s.returnType], s.variables);
    UsedInOne(s.intermediateType, s.variables);
    UsedInOne(s.returnType, s.variables);
    b := AllIn(inResult, inIntermediate);
  }

  lemma UsedInOne(t: TypeSignature, vars: set<string>)
    ensures UsedIn([t], vars) == Used(t, vars)
  {
  }

  /** Looks for each variable in turn. */
  method AllIn(some: set<string>, all: set<string>) returns (b: bool)
    ensures b <==> some <= all
  {
    var rest := some;
    while rest != {}
      invariant rest <= some && some - rest <= all
      decreases |rest|
    {
      var v :| v in rest;
      if v !in all {
        return false;
      }
      rest := rest - {v};
    }
    b := true;
  }

  // ----- what resolvable means -----

  /** A choice of a type for every variable. */
  type Substitution = map<string, TypeSignature>

  ghost predicate IsSubstitution(s: Substitution, vars: set<string>) {
    s.Keys == vars && forall v :: v in s ==> s[v].fieldName == None
  }

  /** The type with its variables replaced; a row field keeps its name. */
  function Instantiate(t: TypeSignature, s: Substitution): TypeSignature {
    if t.base in s then s[t.base].(fieldName := t.fieldName)
    else TypeSignature(t.base, InstantiateAll(t.params, s), t.fieldName)
  }

  function InstantiateAll(ts: seq<TypeSignature>, s: Substitution): seq<TypeSignature> {
    seq(|ts|, i requires 0 <= i < |ts| => Instantiate(ts[i], s))
  }

  ghost predicate AgreeOn(s1: Substitution, s2: Substitution, vs: set<string>)
    requires vs <= s1.Keys && vs <= s2.Keys
  {
    forall v :: v in vs ==> s1[v] == s2[v]
  }

  /** Instances agree exactly when the substitutions agree on the variables used. */
  lemma {:induction false} InstantiateAgree(t: TypeSignature, vars: set<string>, s1: Substitution, s2: Substitution)
    requires VariablesAreLeaves(t, vars) && IsSubstitution(s1, vars) && IsSubstitution(s2, vars)
    ensures Instantiate(t, s1) == Instantiate(t, s2) <==> AgreeOn(s1, s2, Used(t, vars))
    decreases t
  {
    if t.base in vars {
      assert Used(t, vars) == {t.base};
      assert s1[t.base] == s1[t.base].(fieldName := t.fieldName).(fieldName := None);
      assert s2[t.base] == s2[t.base].(fieldName := t.fieldName).(fieldName := None);
    } else {
      InstantiateAllAgree(t, t.params, vars, s1, s2);
    }
  }

  lemma {:induction false} InstantiateAllAgree(parent: TypeSignature, ts: seq<TypeSignature>, vars: set<string>,
                                               s1: Substitution, s2: Substitution)
    requires forall t :: t in ts ==> t < parent && VariablesAreLeaves(t, vars)
    requires IsSubstitution(s1, vars) && IsSubstitution(s2, vars)
    ensures InstantiateAll(ts, s1) == InstantiateAll(ts, s2) <==> AgreeOn(s1, s2, UsedIn(ts, vars))
    decreases parent, 0
  {
    var i1, i2 := InstantiateAll(ts, s1), InstantiateAll(ts, s2);
    forall i | 0 <= i < |ts| ensures i1[i] == i2[i] <==> AgreeOn(s1, s2, Used(ts[i], vars)) {
      assert ts[i] in ts;
      InstantiateAgree(ts[i], vars, s1, s2);
    }
    if i1 == i2 {
      forall v | v in UsedIn(ts, vars) ensures s1[v] == s2[v] {
        var i :| 0 <= i < |ts| && v in Used(ts[i], vars);
        assert i1[i] == i2[i];
      }
    } else {
      var i :| 0 <= i < |ts| && i1[i] != i2[i];
      assert Used(ts[i], vars) <= UsedIn(ts, vars);
    }
  }

  /** Any two choices that give the same intermediate type give the same result type. */
  ghost predicate Determined(s: Signature) {
    forall s1, s2 ::
      IsSubstitution(s1, s.variables) && IsSubstitution(s2, s.variables)
      && Instantiate(s.intermediateType, s1) == Instantiate(s.intermediateType, s2)
      ==> Instantiate(s.returnType, s1) == Instantiate(s.returnType, s2)
  }

  /** The test is sound and complete. */
  lemma ResolvableIffDetermined(s: Signature)
    requires ValidSignature(s)
    ensures Resolvable(s) <==> Determined(s)
  {
    if Resolvable(s) {
      forall s1, s2 | && IsSubstitution(s1, s.variables) && IsSubstitution(s2, s.variables)
                      && Instantiate(s.intermediateType, s1) == Instantiate(s.intermediateType, s2)
        ensures Instantiate(s.returnType, s1) == Instantiate(s.returnType, s2)
      {
        InstantiateAgree(s.intermediateType, s.variables, s1, s2);
        InstantiateAgree(s.returnType, s.variables, s1, s2);
      }
    } else {
      var v :| v in Used(s.returnType, s.variables) && v !in Used(s.intermediateType, s.variables);
      var s1 := map u | u in s.variables :: TypeSignature("bigint", [], None);
      var s2 := s1[v := TypeSignature("varchar", [], None)];
      assert s1[v] != s2[v] by { assert s1[v].base[0] != s2[v].base[0]; }
      assert s2.Keys == s.variables;
      InstantiateAgree(s.intermediateType, s.variables, s1, s2);
      InstantiateAgree(s.returnType, s.variables, s1, s2);
    }
  }
}
