/**
 `toSuffixString` writes a type into the name of a companion function
 (velox/exec/AggregateCompanionSignatures.cpp).  Names tell two result types apart exactly when the types
 differ in more than what the suffix leaves out.
 */
module SuffixStrings {
  import opened Options
  import opened CompanionSignatures

  // ----- the printer -----

  function ToUpper(s: string): string {
    seq(|s|, i requires 0 <= i < |s| => if 'a' <= s[i] <= 'z' then s[i] - 'a' + 'A' else s[i])
  }

  /** Only DECIMAL in upper case counts as the decimal type. */
  predicate IsDecimalName(name: string) {
    name == "DECIMAL"
  }

  predicate IsLeaf(t: TypeSignature) {
    t.params == [] || IsDecimalName(t.base)
  }

  /** A map has a key and a value. */
  predicate Printable(t: TypeSignature) {
    && (!IsLeaf(t) && ToUpper(t.base) == "MAP" ==> |t.params| >= 2)
    && forall p <- t.params :: Printable(p)
  }

  function Suffix(t: TypeSignature): string
    requires Printable(t)
  {
    if IsLeaf(t) then t.base
    else if ToUpper(t.base) == "ARRAY" then "array_" + Suffix(t.params[0])
    else if ToUpper(t.base) == "MAP" then "map_" + Suffix(t.params[0]) + "_" + Suffix(t.params[1])
    else
      var name := NodeName(t);
      name + Suffixes(t.params) + "_end" + name
  }

  function Suffixes(ts: seq<TypeSignature>): string
    requires forall t <- ts :: Printable(t)
  {
    if ts == [] then "" else "_" + Suffix(ts[0]) + Suffixes(ts[1..])
  }

  function NodeName(t: TypeSignature): string {
    if ToUpper(t.base) == "ROW" then "row" else t.base
  }

  method ToSuffixString(t: TypeSignature) returns (result: string)
    requires Printable(t)
    ensures result == Suffix(t)
    decreases t
  {
    if IsLeaf(t) {
      return t.base;
    }
    var upperName := ToUpper(t.base);
    if upperName == "ARRAY" {
      var element := ToSuffixString(t.params[0]);
      return "array_" + element;
    }
    if upperName == "MAP" {
      var key := ToSuffixString(t.params[0]);
      var value := ToSuffixString(t.params[1]);
      return "map_" + key + "_" + value;
    }
    var name := t.base;
    if upperName == "ROW" {
      name := "row";
    }
    result := name;
    assert t.params[0..] == t.params;
    for i := 0 to |t.params|
      invariant result + Suffixes(t.params[i..]) == name + Suffixes(t.params)
    {
      assert t.params[i..][1..] == t.params[i + 1..];
      var child := ToSuffixString(t.params[i]);
      ghost var rest := Suffixes(t.params[i + 1..]);
      assert result + ("_" + child + rest) == result + "_" + child + rest;
      result := result + "_" + child;
    }
    assert t.params[|t.params|..] == [] && result + "" == result;
    result := result + "_end" + name;
  }

  // ----- what the suffix keeps -----

  datatype Shape =
    | Leaf(name: string)
    | Array(element: Shape)
    | Map(key: Shape, value: Shape)
    | Node(name: string, children: seq<Shape>)

  /**
   A type without what the suffix leaves out: the parameters of decimals, the names of row fields, the
   case of array, map and row, and parameters an array or map does not have.
   */
  function ShapeOf(t: TypeSignature): Shape
    requires Printable(t)
  {
    if IsLeaf(t) then Leaf(t.base)
    else if ToUpper(t.base) == "ARRAY" then Array(ShapeOf(t.params[0]))
    else if ToUpper(t.base) == "MAP" then Map(ShapeOf(t.params[0]), ShapeOf(t.params[1]))
    else Node(NodeName(t), ShapesOf(t.params))
  }

  function ShapesOf(ts: seq<TypeSignature>): seq<Shape>
    requires forall t <- ts :: Printable(t)
  {
    if ts == [] then [] else [ShapeOf(ts[0])] + ShapesOf(ts[1..])
  }

  /** The words of the suffix. */
  function Tokens(s: Shape): (ts: seq<string>)
    ensures ts != []
  {
    match s
    case Leaf(name) => [name]
    case Array(element) => ["array"] + Tokens(element)
    case Map(key, value) => ["map"] + Tokens(key) + Tokens(value)
    case Node(name, children) => [name] + AllTokens(children) + ["end" + name]
  }

  function AllTokens(ss: seq<Shape>): seq<string> {
    if ss == [] then [] else Tokens(ss[0]) + AllTokens(ss[1..])
  }

  function Join(tokens: seq<string>): string {
    if tokens == [] then "" else if |tokens| == 1 then tokens[0] else tokens[0] + "_" + Join(tokens[1..])
  }

  lemma {:induction false} JoinConcat(a: seq<string>, b: seq<string>)
    requires a != [] && b != []
    ensures Join(a + b) == Join(a) + "_" + Join(b)
  {
    if |a| == 1 {
      assert (a + b)[1..] == b;
    } else {
      JoinConcat(a[1..], b);
      assert (a + b)[1..] == a[1..] + b;
      assert a[0] + "_" + (Join(a[1..]) + "_" + Join(b)) == a[0] + "_" + Join(a[1..]) + "_" + Join(b);
    }
  }

  /** The suffix is the words of the shape, joined by underscores. */
  lemma {:induction false} SuffixIsJoin(t: TypeSignature)
    requires Printable(t)
    ensures Suffix(t) == Join(Tokens(ShapeOf(t)))
    decreases t, 1
  {
    if IsLeaf(t) {
    } else if ToUpper(t.base) == "ARRAY" {
      SuffixIsJoin(t.params[0]);
      JoinConcat(["array"], Tokens(ShapeOf(t.params[0])));
      assert Join(["array"]) + "_" == "array_";
    } else if ToUpper(t.base) == "MAP" {
      SuffixIsJoin(t.params[0]);
      SuffixIsJoin(t.params[1]);
      JoinMap(Tokens(ShapeOf(t.params[0])), Tokens(ShapeOf(t.params[1])));
    } else {
      assert forall p :: p in t.params ==> p < t;
      SuffixesAreJoin(t, t.params, [NodeName(t)]);
      JoinNode(NodeName(t), AllTokens(ShapesOf(t.params)), Suffixes(t.params));
    }
  }

  lemma JoinMap(k: seq<string>, v: seq<string>)
    requires k != [] && v != []
    ensures Join(["map"] + k + v) == "map_" + Join(k) + "_" + Join(v)
  {
    JoinConcat(["map"], k);
    JoinConcat(["map"] + k, v);
    assert Join(["map"]) + "_" == "map_";
  }

  lemma JoinNode(name: string, words: seq<string>, text: string)
    requires Join([name]) + text == Join([name] + words)
    ensures Join([name] + words + ["end" + name]) == name + text + "_end" + name
  {
    JoinConcat([name] + words, ["end" + name]);
    assert name + text + "_" + ("end" + name) == name + text + "_end" + name;
  }

  lemma {:induction false} SuffixesAreJoin(parent: TypeSignature, ts: seq<TypeSignature>, before: seq<string>)
    requires (forall t :: t in ts ==> t < parent && Printable(t)) && before != []
    ensures Join(before) + Suffixes(ts) == Join(before + AllTokens(ShapesOf(ts)))
    decreases parent, 0, |ts|
  {
    if ts == [] {
      assert before + [] == before && Join(before) + "" == Join(before);
    } else {
      assert ts[0] in ts && forall t :: t in ts[1..] ==> t in ts;
      SuffixIsJoin(ts[0]);
      SuffixesAreJoin(parent, ts[1..], before + Tokens(ShapeOf(ts[0])));
      JoinMore(before, Tokens(ShapeOf(ts[0])), AllTokens(ShapesOf(ts[1..])), Suffixes(ts[1..]));
      assert ShapesOf(ts)[1..] == ShapesOf(ts[1..]);
    }
  }

  lemma JoinMore(before: seq<string>, first: seq<string>, rest: seq<string>, text: string)
    requires before != [] && first != [] && Join(before + first) + text == Join(before + first + rest)
    ensures Join(before) + ("_" + Join(first) + text) == Join(before + (first + rest))
  {
    JoinConcat(before, first);
    assert before + first + rest == before + (first + rest);
    Regroup(Join(before), "_", Join(first), text);
  }

  lemma Regroup(a: string, b: string, c: string, d: string)
    ensures a + (b + c + d) == a + b + c + d
  {
  }

  // ----- reading a suffix back -----

  predicate NoUnderscore(s: string) {
    '_' !in s
  }

  /** The words of a string. */
  function Split(s: string): (words: seq<string>)
    ensures words != []
  {
    if s == "" then [""]
    else
      var words := Split(s[1..]);
      if s[0] == '_' then [""] + words else [[s[0]] + words[0]] + words[1..]
  }

  lemma {:induction false} SplitWord(x: string)
    requires NoUnderscore(x)
    ensures Split(x) == [x]
  {
    if x != "" {
      assert x[0] in x && NoUnderscore(x[1..]);
      SplitWord(x[1..]);
      assert x == [x[0]] + x[1..];
    }
  }

  lemma {:induction false} SplitFirst(x: string, rest: string)
    requires NoUnderscore(x)
    ensures Split(x + "_" + rest) == [x] + Split(rest)
  {
    var s := x + "_" + rest;
    if x == "" {
      assert s[1..] == rest;
    } else {
      assert x[0] in x && NoUnderscore(x[1..]);
      SplitFirst(x[1..], rest);
      assert s[1..] == x[1..] + "_" + rest && x == [x[0]] + x[1..];
    }
  }

  lemma {:induction false} SplitJoin(words: seq<string>)
    requires words != [] && forall w :: w in words ==> NoUnderscore(w)
    ensures Split(Join(words)) == words
  {
    assert words[0] in words;
    if |words| == 1 {
      SplitWord(words[0]);
    } else {
      assert forall w :: w in words[1..] ==> w in words;
      SplitJoin(words[1..]);
      SplitFirst(words[0], Join(words[1..]));
    }
  }

  /** Reads one shape off the front of the words; `nodes` are the names of types with parameters. */
  function Parse(words: seq<string>, nodes: set<string>): (r: Option<(Shape, seq<string>)>)
    ensures r.Some? ==> |r.value.1| < |words|
    decreases |words|, 0
  {
    if words == [] then None
    else if words[0] == "array" then
      var element := Parse(words[1..], nodes);
      if element.None? then None else Some((Array(element.value.0), element.value.1))
    else if words[0] == "map" then
      var key := Parse(words[1..], nodes);
      if key.None? then None
      else
        var value := Parse(key.value.1, nodes);
        if value.None? then None else Some((Map(key.value.0, value.value.0), value.value.1))
    else if words[0] in nodes then
      var children := ParseChildren(words[1..], nodes, "end" + words[0]);
      if children.None? then None else Some((Node(words[0], children.value.0), children.value.1))
    else Some((Leaf(words[0]), words[1..]))
  }

  function ParseChildren(words: seq<string>, nodes: set<string>, end: string): (r: Option<(seq<Shape>, seq<string>)>)
    ensures r.Some? ==> |r.value.1| < |words|
    decreases |words|, 1
  {
    if words == [] then None
    else if words[0] == end then Some(([], words[1..]))
    else
      var first := Parse(words, nodes);
      if first.None? then None
      else
        var rest := ParseChildren(first.value.1, nodes, end);
        if rest.None? then None else Some(([first.value.0] + rest.value.0, rest.value.1))
  }

  function Decode(suffix: string, nodes: set<string>): Option<Shape> {
    var r := Parse(Split(suffix), nodes);
    if r.Some? && r.value.1 == [] then Some(r.value.0) else None
  }

  /**
   Names that can be told apart, when `nodes` are the names of types with parameters: they have no
   underscores, are either always or never given parameters, and do not look like the end of a type.
   */
  predicate Clear(s: Shape, nodes: set<string>) {
    match s
    case Leaf(name) => NoUnderscore(name) && name !in nodes + {"array", "map"} && !IsEnd(name, nodes)
    case Array(element) => Clear(element, nodes)
    case Map(key, value) => Clear(key, nodes) && Clear(value, nodes)
    case Node(name, children) =>
      && NoUnderscore(name) && name in nodes - {"array", "map"} && !IsEnd(name, nodes)
      && forall c <- children :: Clear(c, nodes)
  }

  predicate IsEnd(name: string, nodes: set<string>) {
    exists n <- nodes :: name == "end" + n
  }

  lemma FirstTokenNotEnd(s: Shape, nodes: set<string>)
    requires Clear(s, nodes)
    ensures !IsEnd(Tokens(s)[0], nodes)
  {
    if s.Array? || s.Map? {
      forall n | n in nodes ensures Tokens(s)[0] != "end" + n {
        assert ("end" + n)[0] == 'e' != Tokens(s)[0][0];
      }
    }
  }

  lemma {:induction false} TokensClear(s: Shape, nodes: set<string>)
    requires Clear(s, nodes)
    ensures forall w :: w in Tokens(s) ==> NoUnderscore(w)
    decreases s, 1
  {
    match s
    case Leaf(_) =>
    case Array(element) => TokensClear(element, nodes);
    case Map(key, value) =>
      TokensClear(key, nodes);
      TokensClear(value, nodes);
    case Node(name, children) =>
      AllTokensClear(s, children, nodes);
      assert NoUnderscore("end" + name);
  }

  lemma {:induction false} AllTokensClear(parent: Shape, ss: seq<Shape>, nodes: set<string>)
    requires forall s :: s in ss ==> s < parent && Clear(s, nodes)
    ensures forall w :: w in AllTokens(ss) ==> NoUnderscore(w)
    decreases parent, 0, |ss|
  {
    if ss != [] {
      assert ss[0] in ss && forall s :: s in ss[1..] ==> s in ss;
      TokensClear(ss[0], nodes);
      AllTokensClear(parent, ss[1..], nodes);
    }
  }

  lemma {:induction false} ParseTokens(s: Shape, nodes: set<string>, rest: seq<string>)
    requires Clear(s, nodes)
    ensures Parse(Tokens(s) + rest, nodes) == Some((s, rest))
    decreases s, 1
  {
    var words := Tokens(s) + rest;
    match s
    case Leaf(name) => assert words[1..] == rest;
    case Array(element) =>
      ParseTokens(element, nodes, rest);
      assert words[1..] == Tokens(element) + rest;
    case Map(key, value) =>
      ParseTokens(key, nodes, Tokens(value) + rest);
      ParseTokens(value, nodes, rest);
      ParseMap(key, value, nodes, rest);
    case Node(name, children) =>
      ParseAllTokens(s, children, nodes, name, rest);
      assert words[1..] == AllTokens(children) + (["end" + name] + rest);
  }

  lemma ParseMap(key: Shape, value: Shape, nodes: set<string>, rest: seq<string>)
    requires Parse(Tokens(key) + (Tokens(value) + rest), nodes) == Some((key, Tokens(value) + rest))
    requires Parse(Tokens(value) + rest, nodes) == Some((value, rest))
    ensures Parse(Tokens(Map(key, value)) + rest, nodes) == Some((Map(key, value), rest))
  {
    var k, v := Tokens(key), Tokens(value);
    MapWords(k, v, rest);
    MapStep(["map"] + k + v + rest, nodes, key, value, v + rest, rest);
  }

  lemma MapWords(k: seq<string>, v: seq<string>, rest: seq<string>)
    ensures (["map"] + k + v + rest)[0] == "map" && (["map"] + k + v + rest)[1..] == k + (v + rest)
  {
  }

  lemma MapStep(words: seq<string>, nodes: set<string>, key: Shape, value: Shape,
                middle: seq<string>, rest: seq<string>)
    requires words != [] && words[0] == "map"
    requires Parse(words[1..], nodes) == Some((key, middle)) && Parse(middle, nodes) == Some((value, rest))
    ensures Parse(words, nodes) == Some((Map(key, value), rest))
  {
    assert words[0] != "array";
  }

  lemma ChildrenEnd(nodes: set<string>, end: string, rest: seq<string>)
    ensures ParseChildren([end] + rest, nodes, end) == Some(([], rest))
  {
    assert ([end] + rest)[1..] == rest;
  }

  lemma ChildStep(words: seq<string>, nodes: set<string>, end: string, first: Shape, middle: seq<string>,
                  others: seq<Shape>, rest: seq<string>)
    requires words != [] && words[0] != end
    requires Parse(words, nodes) == Some((first, middle)) && ParseChildren(middle, nodes, end) == Some((others, rest))
    ensures ParseChildren(words, nodes, end) == Some(([first] + others, rest))
  {
  }

  lemma FirstTokens(ss: seq<Shape>, tail: seq<string>, nodes: set<string>)
    requires ss != [] && Clear(ss[0], nodes)
    ensures AllTokens(ss) + tail == Tokens(ss[0]) + (AllTokens(ss[1..]) + tail)
    ensures !IsEnd((AllTokens(ss) + tail)[0], nodes)
  {
    var first, others := Tokens(ss[0]), AllTokens(ss[1..]);
    assert (first + others) + tail == first + (others + tail);
    FirstTokenNotEnd(ss[0], nodes);
    assert (first + (others + tail))[0] == first[0];
  }

  lemma {:induction false} ParseAllTokens(parent: Shape, ss: seq<Shape>, nodes: set<string>, name: string,
                                          rest: seq<string>)
    requires name in nodes && forall s :: s in ss ==> s < parent && Clear(s, nodes)
    ensures ParseChildren(AllTokens(ss) + (["end" + name] + rest), nodes, "end" + name) == Some((ss, rest))
    decreases parent, 0, |ss|
  {
    var tail := ["end" + name] + rest;
    if ss == [] {
      assert AllTokens(ss) + tail == tail;
      ChildrenEnd(nodes, "end" + name, rest);
    } else {
      var first, others := ss[0], ss[1..];
      assert first in ss && forall s :: s in others ==> s in ss;
      var words, middle := AllTokens(ss) + tail, AllTokens(others) + tail;
      FirstTokens(ss, tail, nodes);
      ParseTokens(first, nodes, middle);
      ParseAllTokens(parent, others, nodes, name, rest);
      ChildStep(words, nodes, "end" + name, first, middle, others, rest);
      assert ss == [first] + others;
    }
  }

  /** A suffix can be decoded: it determines the shape of its type. */
  lemma SuffixDecodes(t: TypeSignature, nodes: set<string>)
    requires Printable(t) && Clear(ShapeOf(t), nodes)
    ensures Decode(Suffix(t), nodes) == Some(ShapeOf(t))
  {
    var shape := ShapeOf(t);
    SuffixIsJoin(t);
    TokensClear(shape, nodes);
    SplitJoin(Tokens(shape));
    ParseTokens(shape, nodes, []);
    assert Tokens(shape) + [] == Tokens(shape);
  }

  function ExtractFunctionNameWithSuffix(name: string, resultType: TypeSignature): string
    requires Printable(resultType)
  {
    name + "_extract_" + Suffix(resultType)
  }

  /** The extract functions of an aggregate share a name exactly when their result types have the same shape. */
  lemma ExtractNamesCollideIff(name: string, t1: TypeSignature, t2: TypeSignature, nodes: set<string>)
    requires Printable(t1) && Printable(t2) && Clear(ShapeOf(t1), nodes) && Clear(ShapeOf(t2), nodes)
    ensures ExtractFunctionNameWithSuffix(name, t1) == ExtractFunctionNameWithSuffix(name, t2)
        <==> ShapeOf(t1) == ShapeOf(t2)
  {
    SuffixIsJoin(t1);
    SuffixIsJoin(t2);
    var prefix := name + "_extract_";
    assert (prefix + Suffix(t1))[|prefix|..] == Suffix(t1) && (prefix + Suffix(t2))[|prefix|..] == Suffix(t2);
    SuffixDecodes(t1, nodes);
    SuffixDecodes(t2, nodes);
  }

  function Type(name: string, params: seq<TypeSignature>): TypeSignature {
    TypeSignature(name, params, None)
  }

  /** A type that the suffix leaves nothing out of. */
  predicate Canonical(t: TypeSignature) {
    && t.fieldName == None
    && (t.params == [] || !IsDecimalName(t.base))
    && (t.params != [] && ToUpper(t.base) == "ARRAY" ==> t.base == "array" && |t.params| == 1)
    && (t.params != [] && ToUpper(t.base) == "MAP" ==> t.base == "map" && |t.params| == 2)
    && (t.params != [] && ToUpper(t.base) == "ROW" ==> t.base == "row")
    && forall p <- t.params :: Canonical(p)
  }

  function FromShape(s: Shape): TypeSignature {
    match s
    case Leaf(name) => Type(name, [])
    case Array(element) => Type("array", [FromShape(element)])
    case Map(key, value) => Type("map", [FromShape(key), FromShape(value)])
    case Node(name, children) => Type(name, FromShapes(children))
  }

  function FromShapes(ss: seq<Shape>): seq<TypeSignature> {
    if ss == [] then [] else [FromShape(ss[0])] + FromShapes(ss[1..])
  }

  lemma {:induction false} ShapeBack(t: TypeSignature)
    requires Printable(t) && Canonical(t)
    ensures FromShape(ShapeOf(t)) == t
    decreases t, 1
  {
    if t.params == [] {
    } else if ToUpper(t.base) == "ARRAY" {
      ShapeBack(t.params[0]);
      assert t.params == [t.params[0]];
    } else if ToUpper(t.base) == "MAP" {
      ShapeBack(t.params[0]);
      ShapeBack(t.params[1]);
      assert t.params == [t.params[0], t.params[1]];
    } else {
      assert forall p :: p in t.params ==> p < t;
      ShapesBack(t, t.params);
    }
  }

  lemma {:induction false} ShapesBack(parent: TypeSignature, ts: seq<TypeSignature>)
    requires forall t :: t in ts ==> t < parent && Printable(t) && Canonical(t)
    ensures FromShapes(ShapesOf(ts)) == ts
    decreases parent, 0, |ts|
  {
    if ts != [] {
      assert ts[0] in ts && forall t :: t in ts[1..] ==> t in ts;
      ShapeBack(ts[0]);
      ShapesBack(parent, ts[1..]);
      FirstBack(ts);
      assert ts == [ts[0]] + ts[1..];
    }
  }

  lemma FirstBack(ts: seq<TypeSignature>)
    requires ts != [] && forall t <- ts :: Printable(t)
    ensures ts[0] in ts && forall t <- ts[1..] :: Printable(t)
    ensures FromShapes(ShapesOf(ts)) == [FromShape(ShapeOf(ts[0]))] + FromShapes(ShapesOf(ts[1..]))
  {
    var shapes := ShapesOf(ts);
    assert shapes[0] == ShapeOf(ts[0]) && shapes[1..] == ShapesOf(ts[1..]);
  }

  /** Where nothing is left out, the types whose extract functions share a name are the same. */
  lemma SuffixDeterminesType(name: string, t1: TypeSignature, t2: TypeSignature, nodes: set<string>)
    requires Printable(t1) && Printable(t2) && Canonical(t1) && Canonical(t2)
    requires Clear(ShapeOf(t1), nodes) && Clear(ShapeOf(t2), nodes)
    requires ExtractFunctionNameWithSuffix(name, t1) == ExtractFunctionNameWithSuffix(name, t2)
    ensures t1 == t2
  {
    ExtractNamesCollideIff(name, t1, t2, nodes);
    ShapeBack(t1);
    ShapeBack(t2);
  }

  // ----- every clause of Clear, and every difference a shape leaves out, is needed -----

  function Plain(name: string): TypeSignature {
    Type(name, [])
  }

  /** The name of a type with parameters that is written as it is. */
  predicate WrittenAsIs(name: string) {
    && !IsDecimalName(name) && ToUpper(name) != "ARRAY" && ToUpper(name) != "MAP"
    && (ToUpper(name) == "ROW" ==> name == "row")
  }

  lemma RowIsWritten()
    ensures WrittenAsIs("row")
  {
    assert |"DECIMAL"| == 7 && |"ARRAY"| == 5 && ToUpper("row")[0] == 'R';
    assert "MAP"[0] == 'M';
  }

  lemma EndIsWritten(name: string)
    ensures WrittenAsIs("end" + name)
  {
    var end := "end" + name;
    assert end[0] == 'e' && "DECIMAL"[0] == 'D';
    assert ToUpper(end)[0] == 'E' && "ARRAY"[0] == 'A' && "MAP"[0] == 'M' && "ROW"[0] == 'R';
  }

  lemma UnderscoreIsWritten(a: string, b: string)
    ensures WrittenAsIs(a + "_" + b)
  {
    var name := a + "_" + b;
    assert name[|a|] == '_' && ToUpper(name)[|a|] == '_';
    assert '_' !in "DECIMAL" && '_' !in "ARRAY" && '_' !in "MAP" && '_' !in "ROW";
  }

  function Words(t: TypeSignature): seq<string>
    requires Printable(t)
  {
    Tokens(ShapeOf(t))
  }

  function AllWords(ts: seq<TypeSignature>): seq<string>
    requires forall t <- ts :: Printable(t)
  {
    AllTokens(ShapesOf(ts))
  }

  lemma SameWords(t1: TypeSignature, t2: TypeSignature)
    requires Printable(t1) && Printable(t2) && Words(t1) == Words(t2)
    ensures Suffix(t1) == Suffix(t2)
  {
    SuffixIsJoin(t1);
    SuffixIsJoin(t2);
  }

  lemma WordsOfFirst(a: TypeSignature, rest: seq<TypeSignature>)
    requires Printable(a) && forall t <- rest :: Printable(t)
    ensures AllWords([a] + rest) == Words(a) + AllWords(rest)
  {
    var ts := [a] + rest;
    assert ts[0] == a && ts[1..] == rest;
    var shapes := ShapesOf(ts);
    assert shapes == [ShapeOf(a)] + ShapesOf(rest);
    assert shapes[0] == ShapeOf(a) && shapes[1..] == ShapesOf(rest);
  }

  lemma WordsOfOne(a: TypeSignature)
    requires Printable(a)
    ensures AllWords([a]) == Words(a)
  {
    WordsOfFirst(a, []);
    assert [a] + [] == [a] && Words(a) + [] == Words(a);
  }

  lemma WordsOfTwo(a: TypeSignature, b: TypeSignature)
    requires Printable(a) && Printable(b)
    ensures AllWords([a, b]) == Words(a) + Words(b)
  {
    WordsOfOne(b);
    WordsOfFirst(a, [b]);
    assert [a] + [b] == [a, b];
  }

  lemma WordsOfThree(a: TypeSignature, b: TypeSignature, c: TypeSignature)
    requires Printable(a) && Printable(b) && Printable(c)
    ensures AllWords([a, b, c]) == Words(a) + (Words(b) + Words(c))
  {
    WordsOfTwo(b, c);
    WordsOfFirst(a, [b, c]);
    assert [a] + [b, c] == [a, b, c];
  }

  lemma WordsOfNode(name: string, ts: seq<TypeSignature>)
    requires WrittenAsIs(name) && ts != [] && forall t <- ts :: Printable(t)
    ensures Printable(Type(name, ts)) && Words(Type(name, ts)) == [name] + AllWords(ts) + ["end" + name]
  {
    assert NodeName(Type(name, ts)) == name;
    assert ShapeOf(Type(name, ts)) == Node(name, ShapesOf(ts));
  }

  lemma WordsOfArray(a: TypeSignature)
    requires Printable(a)
    ensures Printable(Type("array", [a])) && Words(Type("array", [a])) == ["array"] + Words(a)
  {
    assert ToUpper("array") == "ARRAY" && |"DECIMAL"| == 7 && |"MAP"| == 3;
  }

  lemma WordsOfMap(a: TypeSignature, b: TypeSignature)
    requires Printable(a) && Printable(b)
    ensures Printable(Type("map", [a, b])) && Words(Type("map", [a, b])) == ["map"] + Words(a) + Words(b)
  {
    assert ToUpper("map") == "MAP" && |"DECIMAL"| == 7 && |"ARRAY"| == 5;
  }

  lemma WordsOfUnary(name: string, a: TypeSignature)
    requires WrittenAsIs(name) && Printable(a)
    ensures Printable(Type(name, [a])) && Words(Type(name, [a])) == [name] + Words(a) + ["end" + name]
  {
    WordsOfOne(a);
    WordsOfNode(name, [a]);
  }

  lemma WordsOfBinary(name: string, a: TypeSignature, b: TypeSignature)
    requires WrittenAsIs(name) && Printable(a) && Printable(b)
    ensures Printable(Type(name, [a, b]))
    ensures Words(Type(name, [a, b])) == [name] + (Words(a) + Words(b)) + ["end" + name]
  {
    WordsOfTwo(a, b);
    WordsOfNode(name, [a, b]);
  }

  /** Two types that a suffix does not tell apart. */
  ghost predicate Collide(t1: TypeSignature, t2: TypeSignature) {
    t1 != t2 && Printable(t1) && Printable(t2) && Suffix(t1) == Suffix(t2)
  }

  /** A name used both with and without parameters: x(x, x(x)) and x(x(x, x)). */
  lemma MixedUseCollides(x: string)
    requires WrittenAsIs(x)
    ensures Collide(Type(x, [Plain(x), Type(x, [Plain(x)])]), Type(x, [Type(x, [Plain(x), Plain(x)])]))
  {
    var one, two := Type(x, [Plain(x)]), Type(x, [Plain(x), Plain(x)]);
    WordsOfUnary(x, Plain(x));
    WordsOfBinary(x, Plain(x), Plain(x));
    WordsOfBinary(x, Plain(x), one);
    WordsOfUnary(x, two);
    SameWords(Type(x, [Plain(x), one]), Type(x, [two]));
    assert |[Plain(x), one]| != |[two]|;
  }

  /** A leaf called array or map: row(array, x) and row(array(x)), row(map, x, y) and row(map(x, y)). */
  lemma KeywordsCollide(x: string, y: string)
    ensures Collide(Type("row", [Plain("array"), Plain(x)]), Type("row", [Type("array", [Plain(x)])]))
    ensures Collide(Type("row", [Plain("map"), Plain(x), Plain(y)]), Type("row", [Type("map", [Plain(x), Plain(y)])]))
  {
    ArrayCollides(x);
    MapCollides(x, y);
  }

  lemma ArrayCollides(x: string)
    ensures Collide(Type("row", [Plain("array"), Plain(x)]), Type("row", [Type("array", [Plain(x)])]))
  {
    RowIsWritten();
    var list := Type("array", [Plain(x)]);
    WordsOfArray(Plain(x));
    WordsOfBinary("row", Plain("array"), Plain(x));
    WordsOfUnary("row", list);
    SameWords(Type("row", [Plain("array"), Plain(x)]), Type("row", [list]));
    assert |[Plain("array"), Plain(x)]| != |[list]|;
  }

  lemma MapCollides(x: string, y: string)
    ensures Collide(Type("row", [Plain("map"), Plain(x), Plain(y)]), Type("row", [Type("map", [Plain(x), Plain(y)])]))
  {
    RowIsWritten();
    var leaves, entry := [Plain("map"), Plain(x), Plain(y)], Type("map", [Plain(x), Plain(y)]);
    WordsOfThree(Plain("map"), Plain(x), Plain(y));
    WordsOfNode("row", leaves);
    WordsOfMap(Plain(x), Plain(y));
    WordsOfUnary("row", entry);
    SameWords(Type("row", leaves), Type("row", [entry]));
    assert |leaves| != |[entry]|;
  }

  /** A leaf that reads like the end of n: n(map(x, n(x)), endn) and n(map(x, n(x, endn))). */
  lemma EndNamesCollide(n: string, x: string)
    requires WrittenAsIs(n)
    ensures Collide(Type(n, [Type("map", [Plain(x), Type(n, [Plain(x)])]), Plain("end" + n)]),
                    Type(n, [Type("map", [Plain(x), Type(n, [Plain(x), Plain("end" + n)])])]))
  {
    var end := Plain("end" + n);
    var one, two := Type(n, [Plain(x)]), Type(n, [Plain(x), end]);
    var m1, m2 := Type("map", [Plain(x), one]), Type("map", [Plain(x), two]);
    WordsOfUnary(n, Plain(x));
    WordsOfBinary(n, Plain(x), end);
    WordsOfMap(Plain(x), one);
    WordsOfMap(Plain(x), two);
    WordsOfBinary(n, m1, end);
    WordsOfUnary(n, m2);
    SameWords(Type(n, [m1, end]), Type(n, [m2]));
    assert |[m1, end]| != |[m2]|;
  }

  /** A type with parameters that reads like the end of n: n(endn(n(x, endn(x)), x)) and n(endn(n(x), x), endn(x)). */
  lemma EndNodesCollide(n: string, x: string)
    requires WrittenAsIs(n)
    ensures var end := "end" + n;
            Collide(Type(n, [Type(end, [Type(n, [Plain(x), Type(end, [Plain(x)])]), Plain(x)])]),
                    Type(n, [Type(end, [Type(n, [Plain(x)]), Plain(x)]), Type(end, [Plain(x)])]))
  {
    NestedEnd(n, x);
    SplitEnd(n, x);
    var end := "end" + n;
    var e1 := Type(end, [Type(n, [Plain(x), Type(end, [Plain(x)])]), Plain(x)]);
    var e2, short := Type(end, [Type(n, [Plain(x)]), Plain(x)]), Type(end, [Plain(x)]);
    SameWords(Type(n, [e1]), Type(n, [e2, short]));
    assert |[e1]| != |[e2, short]|;
  }

  lemma NestedEnd(n: string, x: string)
    requires WrittenAsIs(n)
    ensures var end := "end" + n;
            var t := Type(n, [Type(end, [Type(n, [Plain(x), Type(end, [Plain(x)])]), Plain(x)])]);
            && Printable(t)
            && Words(t) == [n, end, n, x, end, x, "end" + end, end, x, "end" + end, end]
  {
    EndIsWritten(n);
    var end := "end" + n;
    var short := Type(end, [Plain(x)]);
    WordsOfUnary(end, Plain(x));
    assert Words(short) == [end, x, "end" + end];
    var open := Type(n, [Plain(x), short]);
    WordsOfBinary(n, Plain(x), short);
    assert Words(open) == [n, x, end, x, "end" + end, end];
    WordsOfBinary(end, open, Plain(x));
    WordsOfUnary(n, Type(end, [open, Plain(x)]));
  }

  lemma SplitEnd(n: string, x: string)
    requires WrittenAsIs(n)
    ensures var end := "end" + n;
            var t := Type(n, [Type(end, [Type(n, [Plain(x)]), Plain(x)]), Type(end, [Plain(x)])]);
            && Printable(t)
            && Words(t) == [n, end, n, x, end, x, "end" + end, end, x, "end" + end, end]
  {
    EndIsWritten(n);
    var end := "end" + n;
    var short, closed := Type(end, [Plain(x)]), Type(n, [Plain(x)]);
    WordsOfUnary(end, Plain(x));
    WordsOfUnary(n, Plain(x));
    assert Words(short) == [end, x, "end" + end] && Words(closed) == [n, x, end];
    var e2 := Type(end, [closed, Plain(x)]);
    WordsOfBinary(end, closed, Plain(x));
    assert Words(e2) == [end, n, x, end, x, "end" + end];
    WordsOfBinary(n, e2, short);
  }

  /** A name with an underscore: row(a_b) and row(a, b), and with parameters row(a_b(x)) and row(a(b, x), b). */
  lemma UnderscoresCollide(a: string, b: string, x: string)
    ensures Collide(Type("row", [Plain(a + "_" + b)]), Type("row", [Plain(a), Plain(b)]))
    ensures WrittenAsIs(a) ==>
      Collide(Type("row", [Type(a + "_" + b, [Plain(x)])]), Type("row", [Type(a, [Plain(b), Plain(x)]), Plain(b)]))
  {
    UnderscoreLeaves(a, b);
    if WrittenAsIs(a) {
      UnderscoreNodes(a, b, x);
    }
  }

  lemma UnderscoreLeaves(a: string, b: string)
    ensures Collide(Type("row", [Plain(a + "_" + b)]), Type("row", [Plain(a), Plain(b)]))
  {
    RowIsWritten();
    var t1, t2 := Type("row", [Plain(a + "_" + b)]), Type("row", [Plain(a), Plain(b)]);
    WordsOfUnary("row", Plain(a + "_" + b));
    WordsOfBinary("row", Plain(a), Plain(b));
    JoinPair(a, b);
    JoinBetween(["row"], [a + "_" + b], [a, b], ["endrow"]);
    SuffixIsJoin(t1);
    SuffixIsJoin(t2);
    assert "end" + "row" == "endrow";
    assert Words(t1) == ["row"] + [a + "_" + b] + ["endrow"] && Words(t2) == ["row"] + [a, b] + ["endrow"];
    assert |[Plain(a + "_" + b)]| != |[Plain(a), Plain(b)]|;
  }

  lemma UnderscoreNodes(a: string, b: string, x: string)
    requires WrittenAsIs(a)
    ensures
      Collide(Type("row", [Type(a + "_" + b, [Plain(x)])]), Type("row", [Type(a, [Plain(b), Plain(x)]), Plain(b)]))
  {
    RowIsWritten();
    UnderscoreIsWritten(a, b);
    var joined, apart := Type(a + "_" + b, [Plain(x)]), Type(a, [Plain(b), Plain(x)]);
    WordsOfUnary(a + "_" + b, Plain(x));
    WordsOfBinary(a, Plain(b), Plain(x));
    WordsOfUnary("row", joined);
    WordsOfBinary("row", apart, Plain(b));
    JoinNodes(a, b, x);
    var t1, t2 := Type("row", [joined]), Type("row", [apart, Plain(b)]);
    SuffixIsJoin(t1);
    SuffixIsJoin(t2);
    assert Words(t1) == ["row"] + ([a + "_" + b] + [x] + ["end" + (a + "_" + b)]) + ["end" + "row"];
    assert Words(t2) == ["row"] + (([a] + ([b] + [x]) + ["end" + a]) + [b]) + ["end" + "row"];
    assert |[joined]| != |[apart, Plain(b)]|;
  }

  lemma JoinPair(a: string, b: string)
    ensures Join([a + "_" + b]) == Join([a, b])
  {
    JoinConcat([a], [b]);
    assert [a] + [b] == [a, b];
  }

  /** What joins alike can be replaced between other words. */
  lemma JoinBetween(before: seq<string>, some: seq<string>, others: seq<string>, after: seq<string>)
    requires before != [] && some != [] && others != [] && after != [] && Join(some) == Join(others)
    ensures Join(before + some + after) == Join(before + others + after)
  {
    JoinConcat(before, some);
    JoinConcat(before, others);
    JoinConcat(before + some, after);
    JoinConcat(before + others, after);
  }

  lemma JoinNodes(a: string, b: string, x: string)
    ensures var joined := [a + "_" + b] + [x] + ["end" + (a + "_" + b)];
            var apart := ([a] + ([b] + [x]) + ["end" + a]) + [b];
            Join(["row"] + joined + ["end" + "row"]) == Join(["row"] + apart + ["end" + "row"])
  {
    var joined := [a + "_" + b] + [x] + ["end" + (a + "_" + b)];
    var apart := ([a] + ([b] + [x]) + ["end" + a]) + [b];
    JoinPair(a, b);
    JoinPair("end" + a, b);
    assert ("end" + a) + "_" + b == "end" + (a + "_" + b);
    var first, last := [a, b] + [x], ["end" + a, b];
    JoinConcat([a + "_" + b], [x]);
    JoinConcat([a, b], [x]);
    JoinConcat([a + "_" + b] + [x], ["end" + (a + "_" + b)]);
    JoinConcat(first, last);
    assert first + last == apart;
    JoinBetween(["row"], joined, apart, ["end" + "row"]);
  }

  /** Decimals of different precision share a name. */
  lemma DecimalsCollide(p1: seq<TypeSignature>, p2: seq<TypeSignature>)
    requires (forall p <- p1 :: Printable(p)) && forall p <- p2 :: Printable(p)
    ensures Printable(Type("DECIMAL", p1)) && Printable(Type("DECIMAL", p2))
    ensures Suffix(Type("DECIMAL", p1)) == Suffix(Type("DECIMAL", p2))
    ensures p1 != p2 ==> Type("DECIMAL", p1) != Type("DECIMAL", p2)
  {
  }
}
