/**
 The signatures of the merge and merge-extract companion functions: one for each class of signatures that
 the aggregate's own signatures fall into (velox/exec/AggregateCompanionSignatures.cpp and .h).
 */
module CompanionSelection {
  import opened Options
  import opened CompanionSignatures
  import opened SignatureNormalization

  /** No concrete type has a generated name. */
  ghost predicate Plain(s: Signature) {
    && ValidSignature(s)
    && NoGeneratedNames(s.intermediateType, s.variables) && NoGeneratedNames(s.returnType, s.variables)
  }

  // ----- companion signatures -----

  /** `mergeFunctionSignature`: from the intermediate type to itself, or nothing. */
  method MergeFunctionSignature(s: Signature) returns (r: Option<Signature>)
    requires ValidSignature(s)
    ensures r.Some? <==> Determined(s)
    ensures r.Some? ==> r.value == MergeOf(s)
  {
    ResolvableIffDetermined(s);
    var resolvable := IsResultTypeResolvable(s);
    if !resolvable {
      return None;
    }
    var variables := UsedTypeVariables([s.intermediateType], s.variables);
    UsedInOne(s.intermediateType, s.variables);
    r := Some(Signature(variables, s.intermediateType, s.intermediateType, [s.intermediateType], [false], false));
  }

  function MergeOf(s: Signature): Signature {
    Signature(Used(s.intermediateType, s.variables), s.intermediateType, s.intermediateType,
              [s.intermediateType], [false], false)
  }

  /** `mergeExtractFunctionSignature`: from the intermediate type to the result type, or nothing. */
  method MergeExtractFunctionSignature(s: Signature) returns (r: Option<Signature>)
    requires ValidSignature(s)
    ensures r.Some? <==> Determined(s)
    ensures r.Some? ==> r.value == MergeExtractOf(s)
  {
    ResolvableIffDetermined(s);
    var resolvable := IsResultTypeResolvable(s);
    if !resolvable {
      return None;
    }
    var variables := UsedTypeVariables([s.intermediateType, s.returnType], s.variables);
    UsedInOne(s.intermediateType, s.variables);
    UsedInAppend([s.intermediateType], s.returnType, s.variables);
    r := Some(Signature(variables, s.returnType, s.intermediateType, [s.intermediateType], [false], false));
  }

  /** A resolvable signature uses no variables beyond those of its intermediate type. */
  function MergeExtractOf(s: Signature): Signature {
    Signature(Used(s.intermediateType, s.variables), s.returnType, s.intermediateType,
              [s.intermediateType], [false], false)
  }

  // ----- keeping the first of every key -----

  /** Item `j` is accepted, and no earlier accepted item has its key. */
  ghost predicate FirstOfKey<K>(keys: seq<K>, accepted: seq<bool>, j: int)
    requires |keys| == |accepted| && 0 <= j < |keys|
  {
    accepted[j] && forall i :: 0 <= i < j && accepted[i] ==> keys[i] != keys[j]
  }

  /** `picks` lists, in order, the items among the first `n` that come first for their key. */
  ghost predicate Selects<K>(keys: seq<K>, accepted: seq<bool>, n: int, picks: seq<int>)
    requires |keys| == |accepted| && 0 <= n <= |keys|
  {
    && (forall k :: 0 <= k < |picks| ==> 0 <= picks[k] < n)
    && (forall k, l :: 0 <= k < l < |picks| ==> picks[k] < picks[l])
    && (forall j :: 0 <= j < n ==> (j in picks <==> FirstOfKey(keys, accepted, j)))
  }

  ghost function KeysOf<K(!new)>(keys: seq<K>, picks: seq<int>): set<K>
    requires forall k :: 0 <= k < |picks| ==> 0 <= picks[k] < |keys|
  {
    set k | 0 <= k < |picks| :: keys[picks[k]]
  }

  lemma {:induction false} EarlierFirst<K>(keys: seq<K>, accepted: seq<bool>, i: int) returns (first: int)
    requires |keys| == |accepted| && 0 <= i < |keys| && accepted[i]
    ensures 0 <= first <= i && keys[first] == keys[i] && FirstOfKey(keys, accepted, first)
    decreases i
  {
    if FirstOfKey(keys, accepted, i) {
      first := i;
    } else {
      var h :| 0 <= h < i && accepted[h] && keys[h] == keys[i];
      first := EarlierFirst(keys, accepted, h);
    }
  }

  /** Looking among the kept keys tells whether an accepted item comes first for its key. */
  lemma SeenIff<K(!new)>(keys: seq<K>, accepted: seq<bool>, j: int, picks: seq<int>)
    requires |keys| == |accepted| && 0 <= j < |keys| && Selects(keys, accepted, j, picks)
    ensures keys[j] in KeysOf(keys, picks) <==> exists i :: 0 <= i < j && accepted[i] && keys[i] == keys[j]
  {
    if i :| 0 <= i < j && accepted[i] && keys[i] == keys[j] {
      var first := EarlierFirst(keys, accepted, i);
      assert first in picks;
      var k :| 0 <= k < |picks| && picks[k] == first;
      assert keys[picks[k]] in KeysOf(keys, picks);
    }
    if keys[j] in KeysOf(keys, picks) {
      var k :| 0 <= k < |picks| && keys[picks[k]] == keys[j];
      assert picks[k] in picks;
      assert FirstOfKey(keys, accepted, picks[k]);
    }
  }

  lemma Keep<K(!new)>(keys: seq<K>, accepted: seq<bool>, j: int, picks: seq<int>)
    requires |keys| == |accepted| && 0 <= j < |keys| && Selects(keys, accepted, j, picks)
    requires keys[j] !in KeysOf(keys, picks) && accepted[j]
    ensures Selects(keys, accepted, j + 1, picks + [j])
    ensures KeysOf(keys, picks + [j]) == KeysOf(keys, picks) + {keys[j]}
  {
    SeenIff(keys, accepted, j, picks);
    var picks' := picks + [j];
    assert forall k :: 0 <= k < |picks| ==> picks'[k] == picks[k];
    forall x | x in KeysOf(keys, picks) ensures x in KeysOf(keys, picks') {
      var k :| 0 <= k < |picks| && keys[picks[k]] == x;
      assert keys[picks'[k]] == x;
    }
    assert keys[picks'[|picks|]] == keys[j];
  }

  lemma Skip<K(!new)>(keys: seq<K>, accepted: seq<bool>, j: int, picks: seq<int>)
    requires |keys| == |accepted| && 0 <= j < |keys| && Selects(keys, accepted, j, picks)
    requires keys[j] in KeysOf(keys, picks) || !accepted[j]
    ensures Selects(keys, accepted, j + 1, picks)
  {
    SeenIff(keys, accepted, j, picks);
  }

  // ----- one signature for each class -----

  function IntermediateKey(s: Signature): TypeSignature {
    NormalForm(s.intermediateType, s.variables)
  }

  ghost function Keys(signatures: seq<Signature>): (keys: seq<TypeSignature>) {
    seq(|signatures|, i requires 0 <= i < |signatures| => IntermediateKey(signatures[i]))
  }

  ghost function DeterminedFlags(signatures: seq<Signature>): seq<bool> {
    seq(|signatures|, i requires 0 <= i < |signatures| => Determined(signatures[i]))
  }

  /** `result` are the merge signatures of the picks. */
  ghost predicate AreMerges(result: seq<Signature>, signatures: seq<Signature>, picks: seq<int>) {
    && |result| == |picks|
    && forall k :: 0 <= k < |picks| ==>
         0 <= picks[k] < |signatures| && result[k] == MergeOf(signatures[picks[k]])
  }

  /** `processSignaturesOfDistinctIntermediateTypes` for `mergeFunctionSignature`. */
  method MergeFunctionSignatures(signatures: seq<Signature>) returns (result: seq<Signature>)
    requires forall s :: s in signatures ==> ValidSignature(s)
    ensures exists picks ::
              && Selects(Keys(signatures), DeterminedFlags(signatures), |signatures|, picks)
              && AreMerges(result, signatures, picks)
  {
    ghost var keys, flags := Keys(signatures), DeterminedFlags(signatures);
    ghost var picks: seq<int> := [];
    result := [];
    var seen: set<TypeSignature> := {};
    for j := 0 to |signatures|
      invariant Selects(keys, flags, j, picks) && seen == KeysOf(keys, picks)
      invariant AreMerges(result, signatures, picks)
    {
      assert signatures[j] in signatures;
      var key, _ := NormalizeTypeImpl(signatures[j].intermediateType, signatures[j].variables, map[]);
      assert key == keys[j];
      if key in seen {
        Skip(keys, flags, j, picks);
        continue;
      }
      var processed := MergeFunctionSignature(signatures[j]);
      if processed.Some? {
        Keep(keys, flags, j, picks);
        result, seen, picks := result + [processed.value], seen + {key}, picks + [j];
      } else {
        Skip(keys, flags, j, picks);
      }
    }
  }

  ghost predicate SameIntermediate(a: Signature, b: Signature) {
    Alike(a.intermediateType, a.variables, b.intermediateType, b.variables)
  }

  predicate SameIntermediatePlaces(a: Signature, b: Signature) {
    SamePlaces(a.intermediateType, a.variables, b.intermediateType, b.variables)
  }

  lemma IntermediateKeyIff(a: Signature, b: Signature)
    requires ValidSignature(a) && ValidSignature(b)
    ensures IntermediateKey(a) == IntermediateKey(b) && SameIntermediatePlaces(a, b) <==> SameIntermediate(a, b)
    ensures Plain(a) && Plain(b) && IntermediateKey(a) == IntermediateKey(b) ==> SameIntermediate(a, b)
  {
    NormalFormsIff(a.intermediateType, a.variables, b.intermediateType, b.variables);
    if Plain(a) && Plain(b) {
      PlainNormalFormsIff(a.intermediateType, a.variables, b.intermediateType, b.variables);
    }
  }

  /** Signature `j` counts as a duplicate of pick `k`. */
  ghost predicate Represents(signatures: seq<Signature>, picks: seq<int>, k: int, j: int)
    requires 0 <= k < |picks| && 0 <= picks[k] < |signatures| && 0 <= j < |signatures|
  {
    IntermediateKey(signatures[picks[k]]) == IntermediateKey(signatures[j])
  }

  /**
   What merging keeps.  For every signature with a determined result type exactly one kept signature has its normal
   form.  One with the same intermediate type up to variables is kept, and then it is that one, exactly when its
   variables are in the same places; without generated names they always are.
   */
  lemma OneMergePerClass(signatures: seq<Signature>, picks: seq<int>, j: int) returns (k: int)
    requires forall s :: s in signatures ==> ValidSignature(s)
    requires Selects(Keys(signatures), DeterminedFlags(signatures), |signatures|, picks)
    requires 0 <= j < |signatures| && Determined(signatures[j])
    ensures 0 <= k < |picks| && Determined(signatures[picks[k]]) && Represents(signatures, picks, k, j)
    ensures forall l :: 0 <= l < |picks| && Represents(signatures, picks, l, j) ==> l == k
    ensures forall l :: 0 <= l < |picks| && SameIntermediate(signatures[picks[l]], signatures[j]) ==> l == k
    ensures SameIntermediate(signatures[picks[k]], signatures[j])
        <==> SameIntermediatePlaces(signatures[picks[k]], signatures[j])
    ensures (forall s :: s in signatures ==> Plain(s)) ==> SameIntermediate(signatures[picks[k]], signatures[j])
  {
    var keys, flags := Keys(signatures), DeterminedFlags(signatures);
    k := OnePick(keys, flags, picks, j);
    forall l | 0 <= l < |picks|
      ensures keys[picks[l]] == keys[j] && SameIntermediatePlaces(signatures[picks[l]], signatures[j])
              <==> SameIntermediate(signatures[picks[l]], signatures[j])
      ensures (forall s :: s in signatures ==> Plain(s)) && keys[picks[l]] == keys[j] ==>
                SameIntermediate(signatures[picks[l]], signatures[j])
    {
      assert signatures[picks[l]] in signatures && signatures[j] in signatures;
      IntermediateKeyIff(signatures[picks[l]], signatures[j]);
    }
  }

  /** With a concrete type called T0, a class of its own keeps no signature. */
  lemma GeneratedNameLosesAMerge()
    ensures var a := Signature({}, ARRAY_T0, ARRAY_T0, [], [], false);
            var b := Signature({"K"}, ARRAY_K, ARRAY_K, [], [], false);
            && ValidSignature(a) && ValidSignature(b) && Determined(a) && Determined(b) && !SameIntermediate(a, b)
            && Selects(Keys([a, b]), DeterminedFlags([a, b]), 2, [0])
  {
    GeneratedNameCollides();
    var a := Signature({}, ARRAY_T0, ARRAY_T0, [], [], false);
    var b := Signature({"K"}, ARRAY_K, ARRAY_K, [], [], false);
    var keys, flags := Keys([a, b]), DeterminedFlags([a, b]);
    assert flags[0] && flags[1] && keys[0] == keys[1];
    assert FirstOfKey(keys, flags, 0) && !FirstOfKey(keys, flags, 1);
  }

  /** Every accepted item has exactly one pick with its key. */
  lemma OnePick<K>(keys: seq<K>, accepted: seq<bool>, picks: seq<int>, j: int) returns (m: int)
    requires |keys| == |accepted| && Selects(keys, accepted, |keys|, picks) && 0 <= j < |keys| && accepted[j]
    ensures 0 <= m < |picks| && accepted[picks[m]] && keys[picks[m]] == keys[j]
    ensures forall k :: 0 <= k < |picks| && keys[picks[k]] == keys[j] ==> k == m
  {
    var first := EarlierFirst(keys, accepted, j);
    assert first in picks;
    m :| 0 <= m < |picks| && picks[m] == first;
    forall k | 0 <= k < |picks| && keys[picks[k]] == keys[j] ensures k == m {
      assert picks[k] in picks && picks[m] in picks;
      assert FirstOfKey(keys, accepted, picks[k]) && FirstOfKey(keys, accepted, picks[m]);
    }
  }

  // ----- pairs of intermediate and result types -----

  function TypesKey(s: Signature): (TypeSignature, TypeSignature) {
    (NormalForm(s.intermediateType, s.variables), NormalForm(s.returnType, s.variables))
  }

  ghost function PairKeys(signatures: seq<Signature>): seq<(TypeSignature, TypeSignature)> {
    seq(|signatures|, i requires 0 <= i < |signatures| => TypesKey(signatures[i]))
  }

  ghost predicate AreMergeExtracts(result: seq<Signature>, signatures: seq<Signature>, picks: seq<int>) {
    && |result| == |picks|
    && forall k :: 0 <= k < |picks| ==>
         0 <= picks[k] < |signatures| && result[k] == MergeExtractOf(signatures[picks[k]])
  }

  /** `processSignaturesOfDistinctTypes` for `mergeExtractFunctionSignature`. */
  method MergeExtractFunctionSignatures(signatures: seq<Signature>) returns (result: seq<Signature>)
    requires forall s :: s in signatures ==> ValidSignature(s)
    ensures exists picks ::
              && Selects(PairKeys(signatures), DeterminedFlags(signatures), |signatures|, picks)
              && AreMergeExtracts(result, signatures, picks)
  {
    ghost var keys, flags := PairKeys(signatures), DeterminedFlags(signatures);
    ghost var picks: seq<int> := [];
    result := [];
    var seen: set<(TypeSignature, TypeSignature)> := {};
    for j := 0 to |signatures|
      invariant Selects(keys, flags, j, picks) && seen == KeysOf(keys, picks)
      invariant AreMergeExtracts(result, signatures, picks)
    {
      assert signatures[j] in signatures;
      var intermediate, _ := NormalizeTypeImpl(signatures[j].intermediateType, signatures[j].variables, map[]);
      var returned, _ := NormalizeTypeImpl(signatures[j].returnType, signatures[j].variables, map[]);
      var key := (intermediate, returned);
      assert key == keys[j];
      if key in seen {
        Skip(keys, flags, j, picks);
        continue;
      }
      var processed := MergeExtractFunctionSignature(signatures[j]);
      if processed.Some? {
        Keep(keys, flags, j, picks);
        result, seen, picks := result + [processed.value], seen + {key}, picks + [j];
      } else {
        Skip(keys, flags, j, picks);
      }
    }
  }

  predicate SameTypePlaces(a: Signature, b: Signature) {
    SameIntermediatePlaces(a, b) && SamePlaces(a.returnType, a.variables, b.returnType, b.variables)
  }

  /** Two signatures count as duplicates when their types are alike one by one ... */
  lemma TypesKeyIff(a: Signature, b: Signature)
    requires ValidSignature(a) && ValidSignature(b)
    ensures TypesKey(a) == TypesKey(b) && SameTypePlaces(a, b) <==>
              SameIntermediate(a, b) && Alike(a.returnType, a.variables, b.returnType, b.variables)
  {
    NormalFormsIff(a.intermediateType, a.variables, b.intermediateType, b.variables);
    NormalFormsIff(a.returnType, a.variables, b.returnType, b.variables);
  }

  /** ... although only signatures whose types are alike under one renaming are the same function. */
  ghost predicate SameFunction(a: Signature, b: Signature) {
    exists rho: Renaming ::
      && Injective(rho)
      && RenamesTo(a.intermediateType, a.variables, rho, b.intermediateType, b.variables)
      && RenamesTo(a.returnType, a.variables, rho, b.returnType, b.variables)
  }

  /** The key that would tell them apart normalises both types with one renaming. */
  function JointKey(s: Signature): seq<TypeSignature> {
    NormalizeAll([s.intermediateType, s.returnType], s.variables, map[]).0
  }

  lemma EqualJointKeys(a: Signature, b: Signature)
    requires ValidSignature(a) && ValidSignature(b) && JointKey(a) == JointKey(b) && SameTypePlaces(a, b)
    ensures SameFunction(a, b)
  {
    var ts1, ts2 := [a.intermediateType, a.returnType], [b.intermediateType, b.returnType];
    var parent := TypeSignature("", ts1, None);
    assert Numbers(map[], [], a.variables) && Numbers(map[], [], b.variables);
    var order1, order2 := EqualFormsAll(parent, ts1, a.variables, map[], [], ts2, b.variables, map[], []);
    var rho := MakePairs(NormalizeAll(ts1, a.variables, map[]).1, order1, a.variables,
                         NormalizeAll(ts2, b.variables, map[]).1, order2, b.variables);
    CorrespondingRename(ts1[0], a.variables, order1, ts2[0], b.variables, order2, rho);
    CorrespondingRename(ts1[1], a.variables, order1, ts2[1], b.variables, order2, rho);
  }

  lemma SameFunctionsJointKey(a: Signature, b: Signature, rho: Renaming)
    requires ValidSignature(a) && ValidSignature(b) && Injective(rho)
    requires RenamesTo(a.intermediateType, a.variables, rho, b.intermediateType, b.variables)
    requires RenamesTo(a.returnType, a.variables, rho, b.returnType, b.variables)
    ensures JointKey(a) == JointKey(b) && SameTypePlaces(a, b)
  {
    var ts1, ts2 := [a.intermediateType, a.returnType], [b.intermediateType, b.returnType];
    var parent := TypeSignature("", ts1, None);
    assert Numbers(map[], [], a.variables) && Numbers(map[], [], b.variables);
    var _, _ := AlikeFormsAll(parent, ts1, a.variables, map[], [], ts2, b.variables, map[], [], rho);
    RenamedSamePlaces(a.intermediateType, a.variables, rho, b.intermediateType, b.variables);
    RenamedSamePlaces(a.returnType, a.variables, rho, b.returnType, b.variables);
  }

  lemma JointKeyIff(a: Signature, b: Signature)
    requires ValidSignature(a) && ValidSignature(b)
    ensures JointKey(a) == JointKey(b) && SameTypePlaces(a, b) <==> SameFunction(a, b)
  {
    if JointKey(a) == JointKey(b) && SameTypePlaces(a, b) {
      EqualJointKeys(a, b);
    }
    if SameFunction(a, b) {
      var rho :| && Injective(rho)
                 && RenamesTo(a.intermediateType, a.variables, rho, b.intermediateType, b.variables)
                 && RenamesTo(a.returnType, a.variables, rho, b.returnType, b.variables);
      SameFunctionsJointKey(a, b, rho);
    }
  }

  const K := TypeSignature("K", [], None)
  const V := TypeSignature("V", [], None)
  const MAP_KV := TypeSignature("map", [K, V], None)

  /** From map(K, V) to K and from map(K, V) to V count as duplicates, so only the first one is kept. */
  lemma DifferentFunctionsShareAKey()
    ensures var a := Signature({"K", "V"}, K, MAP_KV, [], [], false);
            var b := Signature({"K", "V"}, V, MAP_KV, [], [], false);
            Determined(a) && Determined(b) && TypesKey(a) == TypesKey(b) && !SameFunction(a, b)
  {
    var a := Signature({"K", "V"}, K, MAP_KV, [], [], false);
    var b := Signature({"K", "V"}, V, MAP_KV, [], [], false);
    assert MAP_KV.params[0] == K && MAP_KV.params[1] == V;
    assert K in MAP_KV.params && V in MAP_KV.params;
    assert "K" in Used(K, a.variables) && "V" in Used(V, a.variables);
    assert Used(MAP_KV, a.variables) == {"K", "V"};
    ResolvableIffDetermined(a);
    ResolvableIffDetermined(b);
    assert "K" != "V" by { assert "K"[0] != "V"[0]; }
    forall rho: Renaming | RenamesTo(MAP_KV, a.variables, rho, MAP_KV, b.variables)
      ensures !RenamesTo(K, a.variables, rho, V, b.variables)
    {
      assert RenamesTo(MAP_KV.params[0], a.variables, rho, MAP_KV.params[0], b.variables);
    }
  }
}
