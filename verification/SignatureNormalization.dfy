/**
 `normalizeType` renames the variables of a type T0, T1, ... in the order they are met, so that types
 that differ only in their variables become equal; the companion functions keep one signature for each
 class of such types (velox/exec/AggregateCompanionSignatures.cpp and .h).
 */
module SignatureNormalization {
  import opened Options
  import opened CompanionSignatures

  // ----- generated names -----

  function Digit(d: nat): char
    requires d < 10
  {
    "0123456789"[d]
  }

  function Decimal(n: nat): string {
    if n < 10 then [Digit(n)] else Decimal(n / 10) + [Digit(n % 10)]
  }

  function Generated(n: nat): string {
    "T" + Decimal(n)
  }

  lemma {:induction false} DecimalInjective(a: nat, b: nat)
    requires Decimal(a) == Decimal(b)
    ensures a == b
  {
    var da, db := Decimal(a), Decimal(b);
    assert da[|da| - 1] == Digit(a % 10) && db[|db| - 1] == Digit(b % 10);
    if a >= 10 && b >= 10 {
      assert da[..|da| - 1] == Decimal(a / 10) && db[..|db| - 1] == Decimal(b / 10);
      DecimalInjective(a / 10, b / 10);
    }
  }

  lemma GeneratedInjective(a: nat, b: nat)
    requires Generated(a) == Generated(b)
    ensures a == b
  {
    assert Generated(a)[1..] == Decimal(a) && Generated(b)[1..] == Decimal(b);
    DecimalInjective(a, b);
  }

  // ----- normalisation -----

  type Renaming = map<string, string>

  function Normalize(t: TypeSignature, vars: set<string>, renamed: Renaming): (TypeSignature, Renaming) {
    if t.base in renamed then (TypeSignature(renamed[t.base], [], None), renamed)
    else if t.base in vars then
      var name := Generated(|renamed|);
      (TypeSignature(name, [], None), renamed[t.base := name])
    else if t.params == [] then (t, renamed)
    else
      var (params, renamed') := NormalizeAll(t.params, vars, renamed);
      (TypeSignature(t.base, params, None), renamed')
  }

  function NormalizeAll(ts: seq<TypeSignature>, vars: set<string>, renamed: Renaming): (seq<TypeSignature>, Renaming) {
    if ts == [] then ([], renamed)
    else
      var (t, renamed') := Normalize(ts[0], vars, renamed);
      var (rest, renamed'') := NormalizeAll(ts[1..], vars, renamed');
      ([t] + rest, renamed'')
  }

  /** `normalizeTypeImpl`, which extends the renaming as it goes. */
  method NormalizeTypeImpl(t: TypeSignature, vars: set<string>, renamed: Renaming)
    returns (result: TypeSignature, renamed': Renaming)
    ensures (result, renamed') == Normalize(t, vars, renamed)
    decreases t
  {
    renamed' := renamed;
    if t.base in renamed {
      return TypeSignature(renamed[t.base], [], None), renamed';
    }
    if t.base in vars {
      var normalizedName := Generated(|renamed|);
      renamed' := renamed'[t.base := normalizedName];
      return TypeSignature(normalizedName, [], None), renamed';
    }
    if t.params == [] {
      return t, renamed';
    }
    var normalizedParams := [];
    assert t.params[0..] == t.params;
    assert normalizedParams + NormalizeAll(t.params, vars, renamed).0 == NormalizeAll(t.params, vars, renamed).0;
    for i := 0 to |t.params|
      invariant NormalizeAll(t.params, vars, renamed) ==
                var (rest, r) := NormalizeAll(t.params[i..], vars, renamed'); (normalizedParams + rest, r)
    {
      assert t.params[i..][1..] == t.params[i + 1..];
      var param;
      ghost var before := renamed';
      param, renamed' := NormalizeTypeImpl(t.params[i], vars, renamed');
      ghost var rest := NormalizeAll(t.params[i + 1..], vars, renamed').0;
      assert normalizedParams + ([param] + rest) == normalizedParams + [param] + rest;
      normalizedParams := normalizedParams + [param];
    }
    assert normalizedParams + [] == normalizedParams;
    result := TypeSignature(t.base, normalizedParams, None);
  }

  function NormalForm(t: TypeSignature, vars: set<string>): TypeSignature {
    Normalize(t, vars, map[]).0
  }

  // ----- types that differ only in their variables -----

  /** No place holds a variable in one type and a concrete type in the other. */
  predicate SamePlaces(t1: TypeSignature, vars1: set<string>, t2: TypeSignature, vars2: set<string>) {
    && (t1.base in vars1 <==> t2.base in vars2)
    && forall i :: 0 <= i < |t1.params| && i < |t2.params| ==> SamePlaces(t1.params[i], vars1, t2.params[i], vars2)
  }

  /** Concrete type names are not of the form T<n>. */
  ghost predicate NoGeneratedNames(t: TypeSignature, vars: set<string>) {
    && (t.base !in vars ==> forall n: nat :: t.base != Generated(n))
    && forall p :: p in t.params ==> NoGeneratedNames(p, vars)
  }

  /**
   `t2` is `t1` with its variables renamed by `rho`.  Field names count only on types that are neither
   variables nor have parameters.
   */
  ghost predicate RenamesTo(t1: TypeSignature, vars1: set<string>, rho: Renaming, t2: TypeSignature,
                            vars2: set<string>) {
    if t1.base in vars1 then
      t2.base in vars2 && t1.base in rho && rho[t1.base] == t2.base
    else
      && t2.base !in vars2 && t1.base == t2.base && |t1.params| == |t2.params|
      && (t1.params == [] ==> t1.fieldName == t2.fieldName)
      && forall i :: 0 <= i < |t1.params| ==> RenamesTo(t1.params[i], vars1, rho, t2.params[i], vars2)
  }

  ghost predicate Injective(rho: Renaming) {
    forall u, v :: u in rho && v in rho && rho[u] == rho[v] ==> u == v
  }

  /** The types are equal up to a bijective renaming of their variables. */
  ghost predicate Alike(t1: TypeSignature, vars1: set<string>, t2: TypeSignature, vars2: set<string>) {
    exists rho: Renaming :: Injective(rho) && RenamesTo(t1, vars1, rho, t2, vars2)
  }

  // ----- normal forms agree exactly on such types -----

  /** `renamed` gives the variables in `order` the names T0, T1, ... */
  ghost predicate Numbers(renamed: Renaming, order: seq<string>, vars: set<string>) {
    && |renamed| == |order|
    && (forall v :: v in renamed <==> v in order)
    && (forall v :: v in renamed ==> v in vars)
    && (forall i :: 0 <= i < |order| ==> renamed[order[i]] == Generated(i))
  }

  lemma NumbersDistinct(renamed: Renaming, order: seq<string>, vars: set<string>, i: nat, j: nat)
    requires Numbers(renamed, order, vars) && i < |order| && j < |order| && order[i] == order[j]
    ensures i == j
  {
    GeneratedInjective(i, j);
  }

  /** A variable met for the first time gets the next number. */
  lemma NumbersExtend(renamed: Renaming, order: seq<string>, vars: set<string>, v: string)
    requires Numbers(renamed, order, vars) && v in vars && v !in renamed
    ensures Numbers(renamed[v := Generated(|renamed|)], order + [v], vars)
  {
  }

  /** The two orders list corresponding variables of `t1` and `t2` at the same positions. */
  ghost predicate Corresponds(t1: TypeSignature, vars1: set<string>, order1: seq<string>,
                              t2: TypeSignature, vars2: set<string>, order2: seq<string>)
  {
    if t1.base in vars1 then
      t2.base in vars2 && exists i :: 0 <= i < |order1| && i < |order2| && order1[i] == t1.base && order2[i] == t2.base
    else
      && t2.base !in vars2 && t1.base == t2.base && |t1.params| == |t2.params|
      && (t1.params == [] ==> t1.fieldName == t2.fieldName)
      && forall i :: 0 <= i < |t1.params| ==> Corresponds(t1.params[i], vars1, order1, t2.params[i], vars2, order2)
  }

  lemma {:induction false} CorrespondsLonger(t1: TypeSignature, vars1: set<string>,
                                             order1: seq<string>, order1': seq<string>,
                                             t2: TypeSignature, vars2: set<string>,
                                             order2: seq<string>, order2': seq<string>)
    requires order1 <= order1' && order2 <= order2' && Corresponds(t1, vars1, order1, t2, vars2, order2)
    ensures Corresponds(t1, vars1, order1', t2, vars2, order2')
    decreases t1
  {
    if t1.base !in vars1 {
      forall i | 0 <= i < |t1.params| ensures Corresponds(t1.params[i], vars1, order1', t2.params[i], vars2, order2') {
        CorrespondsLonger(t1.params[i], vars1, order1, order1', t2.params[i], vars2, order2, order2');
      }
    }
  }

  /** One side of `EqualForms`: the renaming and order after normalising a variable. */
  lemma NormalizeVariable(t: TypeSignature, vars: set<string>, renamed: Renaming, order: seq<string>)
    returns (order': seq<string>, i: nat)
    requires Numbers(renamed, order, vars) && t.base in vars
    ensures var (n, renamed') := Normalize(t, vars, renamed);
            && Numbers(renamed', order', vars) && order <= order'
            && n == TypeSignature(Generated(i), [], None) && i < |order'| && order'[i] == t.base
            && (if i < |order| then order' == order else order' == order + [t.base] && i == |order|)
  {
    if t.base in renamed {
      order' := order;
      i :| 0 <= i < |order| && order[i] == t.base;
    } else {
      NumbersExtend(renamed, order, vars, t.base);
      order', i := order + [t.base], |order|;
    }
  }

  /** Types with equal normal forms correspond. */
  lemma {:induction false} EqualForms(t1: TypeSignature, vars1: set<string>, renamed1: Renaming, order1: seq<string>,
                                      t2: TypeSignature, vars2: set<string>, renamed2: Renaming, order2: seq<string>)
    returns (order1': seq<string>, order2': seq<string>)
    requires VariablesAreLeaves(t1, vars1) && VariablesAreLeaves(t2, vars2) && SamePlaces(t1, vars1, t2, vars2)
    requires Numbers(renamed1, order1, vars1) && Numbers(renamed2, order2, vars2) && |order1| == |order2|
    requires Normalize(t1, vars1, renamed1).0 == Normalize(t2, vars2, renamed2).0
    ensures Numbers(Normalize(t1, vars1, renamed1).1, order1', vars1) && order1 <= order1'
    ensures Numbers(Normalize(t2, vars2, renamed2).1, order2', vars2) && order2 <= order2'
    ensures |order1'| == |order2'| && Corresponds(t1, vars1, order1', t2, vars2, order2')
    decreases t1, 1
  {
    if t1.base in vars1 {
      var i1, i2;
      order1', i1 := NormalizeVariable(t1, vars1, renamed1, order1);
      order2', i2 := NormalizeVariable(t2, vars2, renamed2, order2);
      GeneratedInjective(i1, i2);
    } else if t1.params == [] {
      order1', order2' := order1, order2;
      NormalizeAllLength(t2.params, vars2, renamed2);
    } else {
      NormalizeAllLength(t1.params, vars1, renamed1);
      NormalizeAllLength(t2.params, vars2, renamed2);
      order1', order2' := EqualFormsAll(t1, t1.params, vars1, renamed1, order1, t2.params, vars2, renamed2, order2);
    }
  }

  lemma {:induction false} NormalizeAllLength(ts: seq<TypeSignature>, vars: set<string>, renamed: Renaming)
    ensures |NormalizeAll(ts, vars, renamed).0| == |ts|
    decreases |ts|
  {
    if ts != [] {
      NormalizeAllLength(ts[1..], vars, Normalize(ts[0], vars, renamed).1);
    }
  }

  /** Equal normal forms of two lists have equal heads and equal tails. */
  lemma NormalizeAllSplit(ts1: seq<TypeSignature>, vars1: set<string>, renamed1: Renaming,
                          ts2: seq<TypeSignature>, vars2: set<string>, renamed2: Renaming)
    requires ts1 != [] && ts2 != [] && NormalizeAll(ts1, vars1, renamed1).0 == NormalizeAll(ts2, vars2, renamed2).0
    ensures var (n1, r1) := Normalize(ts1[0], vars1, renamed1);
            var (n2, r2) := Normalize(ts2[0], vars2, renamed2);
            n1 == n2 && NormalizeAll(ts1[1..], vars1, r1).0 == NormalizeAll(ts2[1..], vars2, r2).0
  {
    var (n1, r1) := Normalize(ts1[0], vars1, renamed1);
    var (n2, r2) := Normalize(ts2[0], vars2, renamed2);
    var rest1, rest2 := NormalizeAll(ts1[1..], vars1, r1).0, NormalizeAll(ts2[1..], vars2, r2).0;
    assert ([n1] + rest1)[0] == ([n2] + rest2)[0] && ([n1] + rest1)[1..] == rest1 && ([n2] + rest2)[1..] == rest2;
  }

  ghost predicate AllLeaves(ts: seq<TypeSignature>, vars: set<string>) {
    forall t :: t in ts ==> VariablesAreLeaves(t, vars)
  }

  ghost predicate AllSamePlaces(ts1: seq<TypeSignature>, vars1: set<string>, ts2: seq<TypeSignature>,
                                vars2: set<string>) {
    forall i :: 0 <= i < |ts1| && i < |ts2| ==> SamePlaces(ts1[i], vars1, ts2[i], vars2)
  }

  ghost predicate CorrespondAll(ts1: seq<TypeSignature>, vars1: set<string>, order1: seq<string>,
                                ts2: seq<TypeSignature>, vars2: set<string>, order2: seq<string>)
    requires |ts1| == |ts2|
  {
    forall i :: 0 <= i < |ts1| ==> Corresponds(ts1[i], vars1, order1, ts2[i], vars2, order2)
  }

  lemma CorrespondCons(ts1: seq<TypeSignature>, vars1: set<string>, order1: seq<string>,
                       ts2: seq<TypeSignature>, vars2: set<string>, order2: seq<string>)
    requires |ts1| == |ts2| > 0 && Corresponds(ts1[0], vars1, order1, ts2[0], vars2, order2)
    requires CorrespondAll(ts1[1..], vars1, order1, ts2[1..], vars2, order2)
    ensures CorrespondAll(ts1, vars1, order1, ts2, vars2, order2)
  {
    forall i | 0 < i < |ts1| ensures Corresponds(ts1[i], vars1, order1, ts2[i], vars2, order2) {
      assert ts1[i] == ts1[1..][i - 1] && ts2[i] == ts2[1..][i - 1];
    }
  }

  lemma {:induction false} EqualFormsAll(parent: TypeSignature,
                                         ts1: seq<TypeSignature>, vars1: set<string>,
                                         renamed1: Renaming, order1: seq<string>,
                                         ts2: seq<TypeSignature>, vars2: set<string>,
                                         renamed2: Renaming, order2: seq<string>)
    returns (order1': seq<string>, order2': seq<string>)
    requires |ts1| == |ts2| && (forall t :: t in ts1 ==> t < parent)
    requires AllLeaves(ts1, vars1) && AllLeaves(ts2, vars2) && AllSamePlaces(ts1, vars1, ts2, vars2)
    requires Numbers(renamed1, order1, vars1) && Numbers(renamed2, order2, vars2) && |order1| == |order2|
    requires NormalizeAll(ts1, vars1, renamed1).0 == NormalizeAll(ts2, vars2, renamed2).0
    ensures Numbers(NormalizeAll(ts1, vars1, renamed1).1, order1', vars1) && order1 <= order1'
    ensures Numbers(NormalizeAll(ts2, vars2, renamed2).1, order2', vars2) && order2 <= order2'
    ensures |order1'| == |order2'| && CorrespondAll(ts1, vars1, order1', ts2, vars2, order2')
    decreases parent, 0, |ts1|
  {
    if ts1 == [] {
      order1', order2' := order1, order2;
    } else {
      NormalizeAllSplit(ts1, vars1, renamed1, ts2, vars2, renamed2);
      var r1, r2 := Normalize(ts1[0], vars1, renamed1).1, Normalize(ts2[0], vars2, renamed2).1;
      assert ts1[0] in ts1 && ts2[0] in ts2;
      assert (forall t :: t in ts1[1..] ==> t in ts1) && (forall t :: t in ts2[1..] ==> t in ts2);
      var o1, o2 := EqualForms(ts1[0], vars1, renamed1, order1, ts2[0], vars2, renamed2, order2);
      order1', order2' := EqualFormsAll(parent, ts1[1..], vars1, r1, o1, ts2[1..], vars2, r2, o2);
      CorrespondsLonger(ts1[0], vars1, o1, order1', ts2[0], vars2, o2, order2');
      CorrespondCons(ts1, vars1, order1', ts2, vars2, order2');
    }
  }

  /** The renaming that takes the variables of one order to those of the other. */
  ghost predicate Pairs(rho: Renaming, order1: seq<string>, order2: seq<string>)
    requires |order1| == |order2|
  {
    && (forall v :: v in rho ==> v in order1)
    && (forall i :: 0 <= i < |order1| ==> order1[i] in rho && rho[order1[i]] == order2[i])
  }

  ghost function Position(order: seq<string>, v: string): (i: nat)
    requires v in order
    ensures i < |order| && order[i] == v
  {
    var i :| 0 <= i < |order| && order[i] == v;
    i
  }

  lemma MakePairs(renamed1: Renaming, order1: seq<string>, vars1: set<string>,
                                     renamed2: Renaming, order2: seq<string>, vars2: set<string>)
    returns (rho: Renaming)
    requires Numbers(renamed1, order1, vars1) && Numbers(renamed2, order2, vars2) && |order1| == |order2|
    ensures Pairs(rho, order1, order2) && Injective(rho)
  {
    rho := map v | v in renamed1 :: order2[Position(order1, v)];
    forall i | 0 <= i < |order1| ensures order1[i] in rho && rho[order1[i]] == order2[i] {
      NumbersDistinct(renamed1, order1, vars1, i, Position(order1, order1[i]));
    }
    forall u, v | u in rho && v in rho && rho[u] == rho[v] ensures u == v {
      NumbersDistinct(renamed2, order2, vars2, Position(order1, u), Position(order1, v));
    }
  }

  lemma {:induction false} CorrespondingRename(t1: TypeSignature, vars1: set<string>, order1: seq<string>,
                                               t2: TypeSignature, vars2: set<string>,
                                               order2: seq<string>, rho: Renaming)
    requires |order1| == |order2| && Pairs(rho, order1, order2) && Corresponds(t1, vars1, order1, t2, vars2, order2)
    ensures RenamesTo(t1, vars1, rho, t2, vars2)
    decreases t1
  {
    if t1.base !in vars1 {
      forall i | 0 <= i < |t1.params| ensures RenamesTo(t1.params[i], vars1, rho, t2.params[i], vars2) {
        CorrespondingRename(t1.params[i], vars1, order1, t2.params[i], vars2, order2, rho);
      }
    }
  }

  /** The orders collected so far correspond under `rho`. */
  ghost predicate Linked(rho: Renaming, order1: seq<string>, order2: seq<string>) {
    && |order1| == |order2|
    && forall i :: 0 <= i < |order1| ==> order1[i] in rho && rho[order1[i]] == order2[i]
  }

  /** Types alike have equal normal forms. */
  lemma {:induction false} AlikeForms(t1: TypeSignature, vars1: set<string>, renamed1: Renaming, order1: seq<string>,
                                      t2: TypeSignature, vars2: set<string>, renamed2: Renaming, order2: seq<string>,
                                      rho: Renaming)
    returns (order1': seq<string>, order2': seq<string>)
    requires Injective(rho) && RenamesTo(t1, vars1, rho, t2, vars2)
    requires Numbers(renamed1, order1, vars1) && Numbers(renamed2, order2, vars2) && Linked(rho, order1, order2)
    ensures Normalize(t1, vars1, renamed1).0 == Normalize(t2, vars2, renamed2).0
    ensures Numbers(Normalize(t1, vars1, renamed1).1, order1', vars1)
    ensures Numbers(Normalize(t2, vars2, renamed2).1, order2', vars2) && Linked(rho, order1', order2')
    decreases t1, 1
  {
    if t1.base in vars1 {
      var i1, i2;
      order1', i1 := NormalizeVariable(t1, vars1, renamed1, order1);
      order2', i2 := NormalizeVariable(t2, vars2, renamed2, order2);
      AlikeVariables(rho, order1, i1, order1', renamed2, order2, i2, order2', vars2);
    } else if t1.params == [] {
      order1', order2' := order1, order2;
    } else {
      order1', order2' :=
        AlikeFormsAll(t1, t1.params, vars1, renamed1, order1, t2.params, vars2, renamed2, order2, rho);
    }
  }

  /** Corresponding variables are both new or both known, and get the same number. */
  lemma AlikeVariables(rho: Renaming, order1: seq<string>, i1: nat, order1': seq<string>,
                       renamed2: Renaming, order2: seq<string>, i2: nat, order2': seq<string>, vars2: set<string>)
    requires Injective(rho) && Linked(rho, order1, order2) && Numbers(renamed2, order2, vars2)
    requires i1 < |order1'| && i2 < |order2'| && order1'[i1] in rho && rho[order1'[i1]] == order2'[i2]
    requires if i1 < |order1| then order1' == order1 else order1' == order1 + [order1'[i1]] && i1 == |order1|
    requires if i2 < |order2| then order2' == order2 else order2' == order2 + [order2'[i2]] && i2 == |order2|
    requires i1 >= |order1| ==> order1'[i1] !in order1
    requires i2 >= |order2| ==> order2'[i2] !in order2
    ensures i1 == i2 && Linked(rho, order1', order2')
  {
    if i1 < |order1| {
      assert order2[i1] == order2'[i2];
      assert i2 < |order2|;
      NumbersDistinct(renamed2, order2, vars2, i1, i2);
    } else if i2 < |order2| {
      assert false;
    }
  }

  lemma {:induction false} AlikeFormsAll(parent: TypeSignature,
                                         ts1: seq<TypeSignature>, vars1: set<string>,
                                         renamed1: Renaming, order1: seq<string>,
                                         ts2: seq<TypeSignature>, vars2: set<string>,
                                         renamed2: Renaming, order2: seq<string>,
                                         rho: Renaming)
    returns (order1': seq<string>, order2': seq<string>)
    requires |ts1| == |ts2| && forall t :: t in ts1 ==> t < parent
    requires Injective(rho) && forall i :: 0 <= i < |ts1| ==> RenamesTo(ts1[i], vars1, rho, ts2[i], vars2)
    requires Numbers(renamed1, order1, vars1) && Numbers(renamed2, order2, vars2) && Linked(rho, order1, order2)
    ensures NormalizeAll(ts1, vars1, renamed1).0 == NormalizeAll(ts2, vars2, renamed2).0
    ensures Numbers(NormalizeAll(ts1, vars1, renamed1).1, order1', vars1)
    ensures Numbers(NormalizeAll(ts2, vars2, renamed2).1, order2', vars2) && Linked(rho, order1', order2')
    decreases parent, 0, |ts1|
  {
    if ts1 == [] {
      order1', order2' := order1, order2;
    } else {
      var r1, r2 := Normalize(ts1[0], vars1, renamed1).1, Normalize(ts2[0], vars2, renamed2).1;
      assert ts1[0] in ts1 && forall t :: t in ts1[1..] ==> t in ts1;
      var o1, o2 := AlikeForms(ts1[0], vars1, renamed1, order1, ts2[0], vars2, renamed2, order2, rho);
      assert forall i :: 0 <= i < |ts1| - 1 ==> ts1[1..][i] == ts1[i + 1] && ts2[1..][i] == ts2[i + 1];
      order1', order2' := AlikeFormsAll(parent, ts1[1..], vars1, r1, o1, ts2[1..], vars2, r2, o2, rho);
    }
  }

  lemma {:induction false} RenamedSamePlaces(t1: TypeSignature, vars1: set<string>, rho: Renaming,
                                             t2: TypeSignature, vars2: set<string>)
    requires VariablesAreLeaves(t1, vars1) && VariablesAreLeaves(t2, vars2) && RenamesTo(t1, vars1, rho, t2, vars2)
    ensures SamePlaces(t1, vars1, t2, vars2)
    decreases t1
  {
    if t1.base !in vars1 {
      forall i | 0 <= i < |t1.params| ensures SamePlaces(t1.params[i], vars1, t2.params[i], vars2) {
        assert t1.params[i] in t1.params && t2.params[i] in t2.params;
        RenamedSamePlaces(t1.params[i], vars1, rho, t2.params[i], vars2);
      }
    }
  }

  /** A bijective renaming of variables makes two types equal exactly when they have the same normal form and the same
      places for variables. */
  lemma NormalFormsIff(t1: TypeSignature, vars1: set<string>, t2: TypeSignature, vars2: set<string>)
    requires VariablesAreLeaves(t1, vars1) && VariablesAreLeaves(t2, vars2)
    ensures NormalForm(t1, vars1) == NormalForm(t2, vars2) && SamePlaces(t1, vars1, t2, vars2)
        <==> Alike(t1, vars1, t2, vars2)
  {
    assert Numbers(map[], [], vars1) && Numbers(map[], [], vars2);
    if NormalForm(t1, vars1) == NormalForm(t2, vars2) && SamePlaces(t1, vars1, t2, vars2) {
      var order1, order2 := EqualForms(t1, vars1, map[], [], t2, vars2, map[], []);
      var rho := MakePairs(Normalize(t1, vars1, map[]).1, order1, vars1, Normalize(t2, vars2, map[]).1, order2, vars2);
      CorrespondingRename(t1, vars1, order1, t2, vars2, order2, rho);
    }
    if Alike(t1, vars1, t2, vars2) {
      var rho :| Injective(rho) && RenamesTo(t1, vars1, rho, t2, vars2);
      var _, _ := AlikeForms(t1, vars1, map[], [], t2, vars2, map[], [], rho);
      RenamedSamePlaces(t1, vars1, rho, t2, vars2);
    }
  }

  // ----- types without generated names -----

  /** Variables are given generated names. */
  ghost predicate Generates(renamed: Renaming, vars: set<string>) {
    forall v :: v in renamed ==> v in vars && exists n: nat :: renamed[v] == Generated(n)
  }

  lemma GeneratesMore(t: TypeSignature, vars: set<string>, renamed: Renaming)
    requires Generates(renamed, vars) && t.base in vars
    ensures Generates(Normalize(t, vars, renamed).1, vars)
    ensures exists n: nat :: Normalize(t, vars, renamed).0.base == Generated(n)
  {
    if t.base in renamed {
      var n: nat :| renamed[t.base] == Generated(n);
    } else {
      var renamed' := renamed[t.base := Generated(|renamed|)];
      forall v | v in renamed' ensures v in vars && exists n: nat :: renamed'[v] == Generated(n) {
        if v == t.base {
          assert renamed'[v] == Generated(|renamed|);
        }
      }
    }
  }

  ghost predicate AllPlain(ts: seq<TypeSignature>, vars: set<string>) {
    forall t :: t in ts ==> VariablesAreLeaves(t, vars) && NoGeneratedNames(t, vars)
  }

  lemma {:induction false} PlainSamePlaces(t1: TypeSignature, vars1: set<string>, renamed1: Renaming,
                                           t2: TypeSignature, vars2: set<string>, renamed2: Renaming)
    requires VariablesAreLeaves(t1, vars1) && VariablesAreLeaves(t2, vars2)
    requires NoGeneratedNames(t1, vars1) && NoGeneratedNames(t2, vars2)
    requires Generates(renamed1, vars1) && Generates(renamed2, vars2)
    requires Normalize(t1, vars1, renamed1).0 == Normalize(t2, vars2, renamed2).0
    ensures SamePlaces(t1, vars1, t2, vars2)
    ensures Generates(Normalize(t1, vars1, renamed1).1, vars1) && Generates(Normalize(t2, vars2, renamed2).1, vars2)
    decreases t1, 1
  {
    if t1.base in vars1 {
      GeneratesMore(t1, vars1, renamed1);
    }
    if t2.base in vars2 {
      GeneratesMore(t2, vars2, renamed2);
    }
    if t1.base !in vars1 && t2.base !in vars2 && t1.params != [] {
      NormalizeAllLength(t1.params, vars1, renamed1);
      NormalizeAllLength(t2.params, vars2, renamed2);
      PlainAllSamePlaces(t1, t1.params, vars1, renamed1, t2.params, vars2, renamed2);
    }
  }

  lemma {:induction false} PlainAllSamePlaces(parent: TypeSignature, ts1: seq<TypeSignature>, vars1: set<string>,
                                              renamed1: Renaming,
                                              ts2: seq<TypeSignature>, vars2: set<string>, renamed2: Renaming)
    requires |ts1| == |ts2| && (forall t :: t in ts1 ==> t < parent) && AllPlain(ts1, vars1) && AllPlain(ts2, vars2)
    requires Generates(renamed1, vars1) && Generates(renamed2, vars2)
    requires NormalizeAll(ts1, vars1, renamed1).0 == NormalizeAll(ts2, vars2, renamed2).0
    ensures AllSamePlaces(ts1, vars1, ts2, vars2)
    ensures Generates(NormalizeAll(ts1, vars1, renamed1).1, vars1)
        && Generates(NormalizeAll(ts2, vars2, renamed2).1, vars2)
    decreases parent, 0, |ts1|
  {
    if ts1 != [] {
      NormalizeAllSplit(ts1, vars1, renamed1, ts2, vars2, renamed2);
      var r1, r2 := Normalize(ts1[0], vars1, renamed1).1, Normalize(ts2[0], vars2, renamed2).1;
      assert ts1[0] in ts1 && ts2[0] in ts2;
      assert (forall t :: t in ts1[1..] ==> t in ts1) && (forall t :: t in ts2[1..] ==> t in ts2);
      PlainSamePlaces(ts1[0], vars1, renamed1, ts2[0], vars2, renamed2);
      PlainAllSamePlaces(parent, ts1[1..], vars1, r1, ts2[1..], vars2, r2);
      forall i | 0 < i < |ts1| ensures SamePlaces(ts1[i], vars1, ts2[i], vars2) {
        assert ts1[i] == ts1[1..][i - 1] && ts2[i] == ts2[1..][i - 1];
      }
    }
  }

  /** Without generated names among the concrete ones, equal normal forms are enough. */
  lemma PlainNormalFormsIff(t1: TypeSignature, vars1: set<string>, t2: TypeSignature, vars2: set<string>)
    requires VariablesAreLeaves(t1, vars1) && VariablesAreLeaves(t2, vars2)
    requires NoGeneratedNames(t1, vars1) && NoGeneratedNames(t2, vars2)
    ensures NormalForm(t1, vars1) == NormalForm(t2, vars2) <==> Alike(t1, vars1, t2, vars2)
  {
    NormalFormsIff(t1, vars1, t2, vars2);
    if NormalForm(t1, vars1) == NormalForm(t2, vars2) {
      PlainSamePlaces(t1, vars1, map[], t2, vars2, map[]);
    }
  }

  const ARRAY_T0 := TypeSignature("array", [TypeSignature("T0", [], None)], None)
  const ARRAY_K := TypeSignature("array", [TypeSignature("K", [], None)], None)

  /** A concrete type called T0 is taken for the first variable. */
  lemma GeneratedNameCollides()
    ensures NormalForm(ARRAY_T0, {}) == NormalForm(ARRAY_K, {"K"}) && !Alike(ARRAY_T0, {}, ARRAY_K, {"K"})
  {
    assert Decimal(0) == "0" && Generated(0) == "T0";
    assert NormalizeAll(ARRAY_T0.params[1..], {}, map[]) == ([], map[]);
    assert NormalizeAll(ARRAY_K.params[1..], {"K"}, map["K" := "T0"]) == ([], map["K" := "T0"]);
    assert NormalForm(ARRAY_K, {"K"}).params == [TypeSignature("T0", [], None)] + [];
    assert NormalForm(ARRAY_T0, {}).params == [TypeSignature("T0", [], None)] + [];
    forall rho: Renaming ensures !RenamesTo(ARRAY_T0, {}, rho, ARRAY_K, {"K"}) {
      assert !RenamesTo(ARRAY_T0.params[0], {}, rho, ARRAY_K.params[0], {"K"});
    }
  }
}
