/**
 * Variable interpolation. Each concept of the source is written back out as
 * ConceptML: a variable bound in the dictionary becomes a nested block of
 * the keys of its values, an unbound one and any atom stay as they are, and
 * each part of a compound is interpolated on its own and written as a
 * nested block of the keys it gave. The text is then parsed again.
 */
module Interpolation {
  import opened Wrappers
  import opened Strings
  import opened Concepts
  import opened Plugins
  import opened Expansion
  import opened Alternatives
  import opened Folds
  import ReadBack

  /** `ConceptSetSource`. */
  datatype Source =
    | SourceText(text: string)
    | SourceTexts(texts: seq<string>)
    | SourceConcept(concept: Concept)
    | SourceConcepts(concepts: seq<Concept>)

  /** `VariableInterpolationDict`. */
  type Dict = map<string, Source>

  /** A dictionary entry passes `!value` only when it is the empty string. */
  predicate Truthy(v: Source)
  {
    v != SourceText("")
  }

  /** `flatMap(toConcepts)` over strings: the first parse that throws ends it. */
  function ParseEach(ss: seq<string>): Result<seq<Concept>>
  {
    FlatMap(ss, Parse)
  }

  /** `toConcepts`. */
  function ToConcepts(source: Source): Result<seq<Concept>>
  {
    match source
    case SourceText(s) => Parse(s)
    case SourceTexts(ss) =>
      (match ParseEach(ss)
       case Err(m) => Err(m)
       case Ok(cs) => Ok(UniqueByKey(cs)))
    case SourceConcept(c) => Ok([c])
    case SourceConcepts(cs) => Ok(UniqueByKey(cs))
  }

  /** `[k1,k2,…]`: a nested block of alternatives with the keys of `cs`. */
  function KeyBlock(cs: seq<Concept>): string
  {
    Bracketed(Keys(cs))
  }

  /** The text one concept of the source is written as. */
  function Render(c: Concept, vars: Dict): Result<string>
    decreases c, 1
  {
    if IsVariable(c) then
      if Key(c) !in vars || !Truthy(vars[Key(c)]) then Ok(Key(c))
      else
        match ToConcepts(vars[Key(c)])
        case Err(m) => Err(m)
        case Ok(vs) => Ok(KeyBlock(vs))
    else if IsAtom(c) then Ok(Key(c))
    else
      match RenderParts(c.parts, vars)
      case Err(m) => Err(m)
      case Ok(ss) => Ok(Join(ss, " "))
  }

  /** Each part interpolated on its own and written as the alternatives it gave. */
  function RenderParts(ps: seq<Concept>, vars: Dict): (r: Result<seq<string>>)
    ensures r.Ok? ==> |r.value| == |ps|
    decreases ps, 3
  {
    if |ps| == 0 then Ok([])
    else
      match InterpolateOne(ps[0], vars)
      case Err(m) => Err(m)
      case Ok(cs) =>
        match RenderParts(ps[1..], vars)
        case Err(m) => Err(m)
        case Ok(more) => Ok([KeyBlock(cs)] + more)
  }

  /** `interpolateToConcepts(part, variables)` for one concept. */
  function InterpolateOne(c: Concept, vars: Dict): Result<seq<Concept>>
    decreases c, 2
  {
    match Render(c, vars)
    case Err(m) => Err(m)
    case Ok(s) => Parse(s)
  }

  function RenderAll(cs: seq<Concept>, vars: Dict): (r: Result<seq<string>>)
    ensures r.Ok? ==> |r.value| == |cs|
  {
    if |cs| == 0 then Ok([])
    else
      match Render(cs[0], vars)
      case Err(m) => Err(m)
      case Ok(s) =>
        match RenderAll(cs[1..], vars)
        case Err(m) => Err(m)
        case Ok(more) => Ok([s] + more)
  }

  /** `interpolateToConcepts`: the renderings joined by commas, parsed. */
  function Interpolate(source: Source, vars: Dict): Result<seq<Concept>>
  {
    match ToConcepts(source)
    case Err(m) => Err(m)
    case Ok(cs) =>
      match RenderAll(cs, vars)
      case Err(m) => Err(m)
      case Ok(ss) => Parse(Join(ss, ","))
  }

  /** `interpolateToConcept`: the first result, or `null`. */
  function InterpolateToConcept(source: Source, vars: Dict): (r: Result<Option<Concept>>)
    ensures Interpolate(source, vars).Err? ==> r == Err(Interpolate(source, vars).msg)
    ensures Interpolate(source, vars).Ok? && |Interpolate(source, vars).value| > 0
      ==> r == Ok(Some(Interpolate(source, vars).value[0]))
    ensures Interpolate(source, vars).Ok? && |Interpolate(source, vars).value| == 0 ==> r == Ok(None)
  {
    match Interpolate(source, vars)
    case Err(m) => Err(m)
    case Ok(cs) => if |cs| == 0 then Ok(None) else Ok(Some(cs[0]))
  }

  // Properties.

  /** The recursion on a part is the whole interpolation applied to that part. */
  lemma InterpolateOneIsInterpolate(c: Concept, vars: Dict)
    ensures InterpolateOne(c, vars) == Interpolate(SourceConcept(c), vars)
  {
    if Render(c, vars).Ok? {
      assert [c][1..] == [];
      assert RenderAll([c][1..], vars) == Ok([]);
      assert [Render(c, vars).value] + [] == [Render(c, vars).value];
      assert RenderAll([c], vars) == Ok([Render(c, vars).value]);
      assert Join([Render(c, vars).value], ",") == Render(c, vars).value;
    }
  }

  /**
   * Parsing a list of strings succeeds exactly when every string parses,
   * and then gives the concepts of each, in order.
   */
  lemma ParseEachFacts(ss: seq<string>)
    ensures ParseEach(ss).Ok? <==> forall i :: 0 <= i < |ss| ==> Parse(ss[i]).Ok?
    ensures ParseEach(ss).Ok? ==> forall c :: c in ParseEach(ss).value <==>
      exists i :: 0 <= i < |ss| && Parse(ss[i]).Ok? && c in Parse(ss[i]).value
  {
    FlatMapFacts(ss, Parse);
  }

  /**
   * What `toConcepts` gives: a concept alone, the distinct concepts of an
   * array by key, and never two concepts with the same key.
   */
  lemma ToConceptsFacts(source: Source)
    ensures source.SourceConcept? ==> ToConcepts(source) == Ok([source.concept])
    ensures source.SourceConcepts? ==> (ToConcepts(source).Ok?
      && KeySet(ToConcepts(source).value) == KeySet(source.concepts)
      && forall c :: c in ToConcepts(source).value ==> c in source.concepts)
    ensures source.SourceText? ==> ToConcepts(source) == Parse(source.text)
    ensures source.SourceTexts? ==> (ToConcepts(source).Ok? <==> forall i :: 0 <= i < |source.texts| ==> Parse(source.texts[i]).Ok?)
    ensures ToConcepts(source).Ok? ==> DistinctKeys(ToConcepts(source).value)
  {
    match source
    case SourceText(s) =>
      if Parse(s).Ok? {
        ParseConceptsDistinct([s], AllPlugins);
      }
    case SourceTexts(ss) =>
      ParseEachFacts(ss);
      if ParseEach(ss).Ok? {
        UniqueByKeyFacts(ParseEach(ss).value);
      }
    case SourceConcept(c) =>
    case SourceConcepts(cs) =>
      UniqueByKeyFacts(cs);
  }

  /** The result never holds two concepts with the same key. */
  lemma InterpolateDistinct(source: Source, vars: Dict)
    requires Interpolate(source, vars).Ok?
    ensures DistinctKeys(Interpolate(source, vars).value)
  {
    var ss := RenderAll(ToConcepts(source).value, vars).value;
    assert Interpolate(source, vars) == Parse(Join(ss, ","));
    ParseConceptsDistinct([Join(ss, ",")], AllPlugins);
  }

  /** Every error of interpolation is a parse that threw. */
  predicate ParseError(r: Result<seq<Concept>>)
  {
    r.Err? ==> HasPrefix(r.msg, "Cannot read properties of null")
  }

  lemma ParseErrorOf(s: string)
    ensures ParseError(Parse(s))
  {
    ParseConceptsErrors([s], AllPlugins);
  }

  lemma {:induction false} ParseEachError(ss: seq<string>)
    ensures ParseError(ParseEach(ss))
  {
    if |ss| > 0 {
      ParseErrorOf(ss[0]);
      ParseEachError(ss[1..]);
    }
  }

  lemma ToConceptsError(source: Source)
    ensures ParseError(ToConcepts(source))
  {
    match source
    case SourceText(s) => ParseErrorOf(s);
    case SourceTexts(ss) => ParseEachError(ss);
    case SourceConcept(c) =>
    case SourceConcepts(cs) =>
  }

  lemma {:induction false} RenderError(c: Concept, vars: Dict)
    ensures Render(c, vars).Err? ==> HasPrefix(Render(c, vars).msg, "Cannot read properties of null")
    decreases c, 1
  {
    if IsVariable(c) {
      if Key(c) in vars && Truthy(vars[Key(c)]) {
        ToConceptsError(vars[Key(c)]);
      }
    } else if !IsAtom(c) {
      RenderPartsError(c.parts, vars);
    }
  }

  lemma {:induction false} RenderPartsError(ps: seq<Concept>, vars: Dict)
    ensures RenderParts(ps, vars).Err? ==> HasPrefix(RenderParts(ps, vars).msg, "Cannot read properties of null")
    decreases ps, 3
  {
    if |ps| > 0 {
      InterpolateOneError(ps[0], vars);
      RenderPartsError(ps[1..], vars);
    }
  }

  lemma {:induction false} InterpolateOneError(c: Concept, vars: Dict)
    ensures ParseError(InterpolateOne(c, vars))
    decreases c, 2
  {
    RenderError(c, vars);
    if Render(c, vars).Ok? {
      ParseErrorOf(Render(c, vars).value);
    }
  }

  lemma {:induction false} RenderAllError(cs: seq<Concept>, vars: Dict)
    ensures RenderAll(cs, vars).Err? ==> HasPrefix(RenderAll(cs, vars).msg, "Cannot read properties of null")
  {
    if |cs| > 0 {
      RenderError(cs[0], vars);
      RenderAllError(cs[1..], vars);
    }
  }

  /**
   * Interpolation throws only where the parser does: on a source, a value
   * or a rewritten text that closes a brace the top level never opened.
   */
  lemma InterpolateErrors(source: Source, vars: Dict)
    ensures ParseError(Interpolate(source, vars))
  {
    ToConceptsError(source);
    if ToConcepts(source).Ok? {
      RenderAllError(ToConcepts(source).value, vars);
      if RenderAll(ToConcepts(source).value, vars).Ok? {
        ParseErrorOf(Join(RenderAll(ToConcepts(source).value, vars).value, ","));
      }
    }
  }

  /** An unbound variable, or one bound to the empty string, is left in place. */
  lemma UnboundVariableKept(v: Concept, vars: Dict)
    requires IsVariable(v) && SimpleKey(Key(v))
    requires Key(v) !in vars || vars[Key(v)] == SourceText("")
    ensures Interpolate(SourceConcept(v), vars) == Ok([v])
  {
    InterpolateOneIsInterpolate(v, vars);
    assert Render(v, vars) == Ok(Key(v));
    ParseKey(Key(v));
  }

  /** A plain atom that is not a variable is left in place, whatever the dictionary. */
  lemma AtomKept(a: Concept, vars: Dict)
    requires SimpleAtom(a) && !IsVariable(a)
    ensures Interpolate(SourceConcept(a), vars) == Ok([a])
  {
    InterpolateOneIsInterpolate(a, vars);
    assert Render(a, vars) == Ok(Key(a));
    ParseKey(Key(a));
  }

  lemma AtomsOfKeys(cs: seq<Concept>)
    requires AllSimple(cs)
    ensures Atoms(Keys(cs)) == cs
    ensures forall i :: 0 <= i < |Keys(cs)| ==> SimpleKey(Keys(cs)[i])
  {
    forall i | 0 <= i < |cs|
      ensures Keys(cs)[i] == cs[i].name
    {
      KeysAt(cs, i);
    }
  }

  lemma RenderBound(v: Concept, vars: Dict)
    requires IsVariable(v) && Key(v) in vars && Truthy(vars[Key(v)]) && ToConcepts(vars[Key(v)]).Ok?
    ensures Render(v, vars) == Ok(KeyBlock(ToConcepts(vars[Key(v)]).value))
  {
  }

  /** Plain atoms with distinct keys come back from their key block as they are. */
  lemma KeyBlockParses(u: seq<Concept>)
    requires |u| > 0 && AllSimple(u) && DistinctKeys(u)
    ensures Parse(KeyBlock(u)) == Ok(u)
  {
    AtomsOfKeys(u);
    ParseBracketed(Keys(u));
    UniqueByKeyOfDistinct(u);
  }

  /**
   * A variable bound to plain atoms is replaced by each of them: one result
   * per distinct value, in the order they were given.
   */
  lemma BoundVariableReplaced(v: Concept, vars: Dict, values: seq<Concept>)
    requires IsVariable(v) && Key(v) in vars && vars[Key(v)] == SourceConcepts(values)
    requires |values| > 0 && AllSimple(values)
    ensures Interpolate(SourceConcept(v), vars) == Ok(UniqueByKey(values))
  {
    InterpolateOneIsInterpolate(v, vars);
    var u := UniqueByKey(values);
    UniqueSimple(values);
    assert ToConcepts(vars[Key(v)]) == Ok(u);
    RenderBound(v, vars);
    KeyBlockParses(u);
    assert InterpolateOne(v, vars) == Parse(KeyBlock(u));
  }

  lemma UniqueSimple(values: seq<Concept>)
    requires |values| > 0 && AllSimple(values)
    ensures var u := UniqueByKey(values); |u| > 0 && AllSimple(u) && DistinctKeys(u)
  {
    var u := UniqueByKey(values);
    UniqueByKeyFacts(values);
    forall i | 0 <= i < |u|
      ensures SimpleAtom(u[i])
    {
      assert u[i] in values;
    }
    assert Key(values[0]) in KeySet(values);
  }

  /** The same for a variable bound to a string of one plain key. */
  lemma BoundToKey(v: Concept, vars: Dict, k: string)
    requires IsVariable(v) && Key(v) in vars && vars[Key(v)] == SourceText(k) && SimpleKey(k)
    ensures Interpolate(SourceConcept(v), vars) == Ok([Atom(k)])
  {
    InterpolateOneIsInterpolate(v, vars);
    ParseKey(k);
    assert ToConcepts(vars[Key(v)]) == Ok([Atom(k)]);
    RenderBound(v, vars);
    KeyBlockOfKey(k);
    assert InterpolateOne(v, vars) == Parse(KeyBlock([Atom(k)]));
  }

  lemma KeyBlockOfKey(k: string)
    requires SimpleKey(k)
    ensures Parse(KeyBlock([Atom(k)])) == Ok([Atom(k)])
  {
    KeyBlockParses([Atom(k)]);
  }

  // Compounds: each part is interpolated and written as a block of what it gave.

  /** Each part `ps[i]` interpolates to the concepts `rows[i]`. */
  predicate PartsGive(ps: seq<Concept>, vars: Dict, rows: seq<seq<Concept>>)
  {
    |ps| == |rows| && (|ps| > 0 ==> InterpolateOne(ps[0], vars) == Ok(rows[0]) && PartsGive(ps[1..], vars, rows[1..]))
  }

  lemma {:induction false} RenderPartsRows(ps: seq<Concept>, vars: Dict, rows: seq<seq<Concept>>)
    requires PartsGive(ps, vars, rows)
    ensures RenderParts(ps, vars) == Ok(ReadBack.BlockTexts(rows, ","))
  {
    if |ps| > 0 {
      RenderPartsRows(ps[1..], vars, rows[1..]);
      assert ReadBack.BlockTexts(rows, ",") == [KeyBlock(rows[0])] + ReadBack.BlockTexts(rows[1..], ",");
    }
  }

  /**
   * A compound is interpolated part by part: when every part gives plain
   * concepts, the result holds one compound per choice of one of them for
   * each part, in order, duplicates by key dropped.
   */
  lemma CompoundInterpolated(c: Concept, vars: Dict, rows: seq<seq<Concept>>)
    requires c.Compound? && |c.parts| > 0 && PartsGive(c.parts, vars, rows)
    requires ReadBack.PlainRows(rows)
    ensures AllNonEmpty(ReadBack.Choices([], rows))
    ensures InterpolateOne(c, vars) == Ok(UniqueByKey(BuildAll(ReadBack.Choices([], rows))))
    ensures Interpolate(SourceConcept(c), vars) == InterpolateOne(c, vars)
  {
    RenderPartsRows(c.parts, vars, rows);
    assert Render(c, vars) == Ok(ReadBack.RowText(rows, ","));
    ReadBack.RowParses(rows, ",");
    InterpolateOneIsInterpolate(c, vars);
  }

  /** A pair whose parts each give one plain concept gives their pair. */
  lemma PairToOne(c: Concept, vars: Dict, x: Concept, y: Concept)
    requires c.Compound? && |c.parts| == 2
    requires InterpolateOne(c.parts[0], vars) == Ok([x]) && InterpolateOne(c.parts[1], vars) == Ok([y])
    requires ReadBack.Plain(x) && ReadBack.Plain(y) && Key(x) != ":"
    ensures InterpolateOne(c, vars) == Ok([Compound([x, y])])
  {
    ReadBack.OnePlain(y);
    PairRows(c, vars, x, [y]);
    ReadBack.PairChoicesOne(x, y);
  }

  /** A pair whose second part gives two plain concepts gives two pairs, in order. */
  lemma PairToTwo(c: Concept, vars: Dict, x: Concept, y1: Concept, y2: Concept)
    requires c.Compound? && |c.parts| == 2
    requires InterpolateOne(c.parts[0], vars) == Ok([x]) && InterpolateOne(c.parts[1], vars) == Ok([y1, y2])
    requires ReadBack.Plain(x) && ReadBack.Plain(y1) && ReadBack.Plain(y2) && Key(x) != ":"
    requires PartKey(y1) != PartKey(y2)
    ensures InterpolateOne(c, vars) == Ok([Compound([x, y1]), Compound([x, y2])])
  {
    ReadBack.TwoPlain(y1, y2);
    PairRows(c, vars, x, [y1, y2]);
    ReadBack.PairChoicesTwo(x, y1, y2);
  }

  lemma PairRows(c: Concept, vars: Dict, x: Concept, ys: seq<Concept>)
    requires c.Compound? && |c.parts| == 2
    requires InterpolateOne(c.parts[0], vars) == Ok([x]) && InterpolateOne(c.parts[1], vars) == Ok(ys)
    requires ReadBack.Plain(x) && |ys| > 0 && ReadBack.AllPlain(ys)
    ensures AllNonEmpty(ReadBack.Choices([], [[x], ys]))
    ensures InterpolateOne(c, vars) == Ok(UniqueByKey(BuildAll(ReadBack.Choices([], [[x], ys]))))
  {
    PartsGivePair(c.parts, vars, [x], ys);
    ReadBack.PairRowsPlain(x, ys);
    CompoundInterpolated(c, vars, [[x], ys]);
  }

  lemma PartsGivePair(ps: seq<Concept>, vars: Dict, r0: seq<Concept>, r1: seq<Concept>)
    requires |ps| == 2 && InterpolateOne(ps[0], vars) == Ok(r0) && InterpolateOne(ps[1], vars) == Ok(r1)
    ensures PartsGive(ps, vars, [r0, r1])
  {
    var rows := [r0, r1];
    assert ps[1..][0] == ps[1] && rows[1..] == [r1];
    assert ps[1..][1..] == [] && rows[1..][1..] == [];
  }

  /** A source text that parses to one concept interpolates as that concept does. */
  lemma SourceOfOne(c: Concept, vars: Dict)
    requires ToConcepts(SourceText(Key(c))) == Ok([c])
    ensures Interpolate(SourceText(Key(c)), vars) == InterpolateOne(c, vars)
  {
    InterpolateOneIsInterpolate(c, vars);
    assert ToConcepts(SourceConcept(c)) == Ok([c]);
  }

  /** A plain atom that is not a variable interpolates to itself. */
  lemma PartKept(a: Concept, vars: Dict)
    requires SimpleAtom(a) && !IsVariable(a)
    ensures InterpolateOne(a, vars) == Ok([a])
  {
    AtomKept(a, vars);
    InterpolateOneIsInterpolate(a, vars);
  }

  /** Keys that may stand as the fixed atoms of `j [k v]`. */
  predicate FixedKey(k: string)
  {
    SimpleKey(k) && k != "&" && k != ":" && k[0] != '$'
  }

  /** `j [k v]`, and `j [k v]` read from its text. */
  lemma NestedText(j: string, k: string, v: string)
    requires FixedKey(j) && FixedKey(k) && SimpleKey(v) && v != "&"
    ensures Parse(j + " [" + k + " " + v + "]") == Ok([Compound([Atom(j), Compound([Atom(k), Atom(v)])])])
  {
    var c := Compound([Atom(j), Compound([Atom(k), Atom(v)])]);
    ReadBack.PlainPair(Atom(k), Atom(v));
    ReadBack.PlainPair(Atom(j), Compound([Atom(k), Atom(v)]));
    ReadBack.NestedPairKey(j, k, v);
    ReadBack.PlainParses(c);
  }

  /**
   * `j [k $v]` with `$v` bound to the text `w` interpolates as the text
   * `j [k w]` parses: the variable inside the nested compound is replaced.
   */
  lemma NestedVariable(j: string, k: string, v: string, w: string)
    requires FixedKey(j) && FixedKey(k) && SimpleKey(v) && v[0] == '$' && SimpleKey(w) && w != "&"
    ensures var vars := map[v := SourceText(w)];
      Interpolate(SourceText(j + " [" + k + " " + v + "]"), vars) == Parse(j + " [" + k + " " + w + "]")
  {
    var vars := map[v := SourceText(w)];
    var jj, kk, vv, ww := Atom(j), Atom(k), Atom(v), Atom(w);
    var inner, outer := Compound([kk, vv]), Compound([jj, Compound([kk, vv])]);
    var bound := Compound([kk, ww]);
    NestedText(j, k, v);
    NestedText(j, k, w);
    ReadBack.NestedPairKey(j, k, v);
    PartKept(jj, vars);
    PartKept(kk, vars);
    BoundToKey(vv, vars, w);
    InterpolateOneIsInterpolate(vv, vars);
    PairToOne(inner, vars, kk, ww);
    ReadBack.PlainPair(kk, ww);
    PairToOne(outer, vars, jj, bound);
    SourceOfOne(outer, vars);
  }

  /** `[k $v]` with `$v` bound to two values gives `[k w1]` and `[k w2]`. */
  lemma InnerTwice(k: string, v: string, w1: string, w2: string, vars: Dict)
    requires FixedKey(k) && SimpleKey(v) && v[0] == '$'
    requires SimpleKey(w1) && w1 != "&" && SimpleKey(w2) && w2 != "&" && w1 != w2
    requires vars == map[v := SourceConcepts([Atom(w1), Atom(w2)])]
    ensures InterpolateOne(Compound([Atom(k), Atom(v)]), vars)
      == Ok([Compound([Atom(k), Atom(w1)]), Compound([Atom(k), Atom(w2)])])
  {
    PartKept(Atom(k), vars);
    VariableTwice(v, w1, w2, vars);
    PairToTwo(Compound([Atom(k), Atom(v)]), vars, Atom(k), Atom(w1), Atom(w2));
  }

  lemma VariableTwice(v: string, w1: string, w2: string, vars: Dict)
    requires SimpleKey(v) && v[0] == '$' && SimpleKey(w1) && SimpleKey(w2) && w1 != w2
    requires vars == map[v := SourceConcepts([Atom(w1), Atom(w2)])]
    ensures InterpolateOne(Atom(v), vars) == Ok([Atom(w1), Atom(w2)])
  {
    BoundVariableReplaced(Atom(v), vars, [Atom(w1), Atom(w2)]);
    ReadBack.UniqueOfTwo(Atom(w1), Atom(w2));
    InterpolateOneIsInterpolate(Atom(v), vars);
  }

  /** `j [k $v]` with `$v` bound to two values: one result per value, in order. */
  lemma NestedVariableTwice(j: string, k: string, v: string, w1: string, w2: string)
    requires FixedKey(j) && FixedKey(k) && SimpleKey(v) && v[0] == '$'
    requires SimpleKey(w1) && w1 != "&" && SimpleKey(w2) && w2 != "&" && w1 != w2
    ensures var vars := map[v := SourceConcepts([Atom(w1), Atom(w2)])];
      Interpolate(SourceText(j + " [" + k + " " + v + "]"), vars)
        == Ok([Compound([Atom(j), Compound([Atom(k), Atom(w1)])]), Compound([Atom(j), Compound([Atom(k), Atom(w2)])])])
  {
    var vars := map[v := SourceConcepts([Atom(w1), Atom(w2)])];
    var outer := Compound([Atom(j), Compound([Atom(k), Atom(v)])]);
    var k1, k2 := Compound([Atom(k), Atom(w1)]), Compound([Atom(k), Atom(w2)]);
    NestedText(j, k, v);
    ReadBack.NestedPairKey(j, k, v);
    PartKept(Atom(j), vars);
    InnerTwice(k, v, w1, w2, vars);
    TwoPlainPairs(k, w1, w2);
    PairToTwo(outer, vars, Atom(j), k1, k2);
    SourceOfOne(outer, vars);
  }

  lemma TwoPlainPairs(k: string, w1: string, w2: string)
    requires FixedKey(k) && SimpleKey(w1) && w1 != "&" && SimpleKey(w2) && w2 != "&" && w1 != w2
    ensures ReadBack.Plain(Compound([Atom(k), Atom(w1)])) && ReadBack.Plain(Compound([Atom(k), Atom(w2)]))
    ensures PartKey(Compound([Atom(k), Atom(w1)])) != PartKey(Compound([Atom(k), Atom(w2)]))
  {
    ReadBack.PlainPair(Atom(k), Atom(w1));
    ReadBack.PlainPair(Atom(k), Atom(w2));
    ReadBack.PairKeysDiffer(Atom(k), Atom(w1), Atom(w2));
    ReadBack.BracketDiffers(Key(Compound([Atom(k), Atom(w1)])), Key(Compound([Atom(k), Atom(w2)])));
  }

  // The example of the nested interpolation, with the words as constants.

  const John := "john"
  const Knows := "knows"
  const Lang := "$lang"
  const Javascript := "javascript"
  const Python := "python"

  lemma WordsPlain()
    ensures FixedKey(John) && FixedKey(Knows) && SimpleKey(Lang) && Lang[0] == '$'
    ensures SimpleKey(Javascript) && SimpleKey(Python) && Javascript != Python
  {
  }

  /**
   * `john [knows $lang]` with `$lang` bound to `javascript` reads as
   * `john [knows javascript]`, the compound `john` before the compound
   * `knows javascript`.
   */
  lemma NestedVariableExample()
    ensures Interpolate(SourceText(John + " [" + Knows + " " + Lang + "]"), map[Lang := SourceText(Javascript)])
      == Parse(John + " [" + Knows + " " + Javascript + "]")
      == Ok([Compound([Atom(John), Compound([Atom(Knows), Atom(Javascript)])])])
  {
    WordsPlain();
    NestedVariable(John, Knows, Lang, Javascript);
    NestedText(John, Knows, Javascript);
  }

  /** Bound to `javascript` and `python`, `$lang` gives both, in that order. */
  lemma SeveralValuesExample()
    ensures Interpolate(SourceText(John + " [" + Knows + " " + Lang + "]"), map[Lang := SourceConcepts([Atom(Javascript), Atom(Python)])])
      == Ok([Compound([Atom(John), Compound([Atom(Knows), Atom(Javascript)])]),
             Compound([Atom(John), Compound([Atom(Knows), Atom(Python)])])])
  {
    WordsPlain();
    NestedVariableTwice(John, Knows, Lang, Javascript, Python);
  }
}
