/**
 * The storage keys of the API (apps/api/src/lib/keys.ts). A concept key is
 * post-encoded (its brackets moved to the end as position lists) and then
 * percent-encoded, so the encoded key holds none of the separators `:`,
 * `/`, `;` and `|` the composite keys are built and split with.
 */
module Keys {
  import opened Wrappers
  import opened Strings
  import opened Concepts
  import opened Plugins
  import opened Expansion
  import opened Matching
  import Percent
  import opened PostEncoding

  // Concept keys.

  /** `encodeConceptKey`. */
  function EncodeConceptKey(key: string): string
  {
    Percent.Encode(PostEncode(key))
  }

  /** `decodeConceptKey`; an `Err` is the `URIError` of a malformed escape. */
  function DecodeConceptKey(encoded: string): Result<string>
  {
    match Percent.Decode(encoded)
    case Err(m) => Err(m)
    case Ok(s) => Ok(PostDecode(s))
  }

  /** `decodeConceptKey(encodeConceptKey(key)) == key`. */
  lemma DecodeEncodeConceptKey(key: string)
    ensures DecodeConceptKey(EncodeConceptKey(key)) == Ok(key)
  {
    Percent.DecodeEncode(PostEncode(key));
    PostDecodeEncode(key);
  }

  /** Distinct keys have distinct encodings. */
  lemma EncodeConceptKeyInjective(a: string, b: string)
    ensures EncodeConceptKey(a) == EncodeConceptKey(b) <==> a == b
  {
    DecodeEncodeConceptKey(a);
    DecodeEncodeConceptKey(b);
  }

  /** A separator-free character. */
  predicate Plain(ch: char)
  {
    ch != ':' && ch != '/' && ch != ';' && ch != '|'
  }

  predicate AllPlain(s: string)
  {
    forall i :: 0 <= i < |s| ==> Plain(s[i])
  }

  /** An encoded key is not empty and holds no separator. */
  lemma EncodedKeyPlain(key: string)
    ensures AllPlain(EncodeConceptKey(key))
    ensures |EncodeConceptKey(key)| > 0
  {
    Percent.EncodeLacksSeparators(PostEncode(key));
    Percent.EncodeLength(PostEncode(key));
    var s, a, b := Stripped(key), PositionList(key, '['), PositionList(key, ']');
    JoinThree(s, a, b, "|");
  }

  lemma PlainLacks(s: string)
    requires AllPlain(s)
    ensures ':' !in s && '/' !in s && ';' !in s && '|' !in s
  {
    forall k | 0 <= k < |s|
      ensures Plain(s[k])
    {
    }
  }

  // Variable names.

  /** `m` is the least element of `names` in the order standing in for `localeCompare`. */
  predicate IsLeast(m: string, names: set<string>)
  {
    m in names && forall y :: y in names ==> Le(m, y)
  }

  lemma LeastUnique(names: set<string>)
    ensures forall a, b :: IsLeast(a, names) && IsLeast(b, names) ==> a == b
  {
    forall a, b | IsLeast(a, names) && IsLeast(b, names)
      ensures a == b
    {
      LeAntisymmetric(a, b);
    }
  }

  lemma {:induction false} LeastExists(names: set<string>)
    requires names != {}
    ensures exists m :: IsLeast(m, names)
    decreases |names|
  {
    var x :| x in names;
    if names != {x} {
      var rest := names - {x};
      LeastExists(rest);
      var m :| IsLeast(m, rest);
      LeTotal(x, m);
      if Le(x, m) {
        forall y | y in names
          ensures Le(x, y)
        {
          if y == x {
            LeReflexive(x);
          } else {
            LeTransitive(x, m, y);
          }
        }
        assert IsLeast(x, names);
      } else {
        assert IsLeast(m, names);
      }
    } else {
      LeReflexive(x);
      assert IsLeast(x, names);
    }
  }

  function Least(names: set<string>): (m: string)
    requires names != {}
    ensures IsLeast(m, names)
  {
    LeastExists(names);
    LeastUnique(names);
    var m :| IsLeast(m, names); m
  }

  /** The names in the order standing in for `localeCompare`, as `sort` leaves `Object.entries`. */
  function SortedNames(names: set<string>): (r: seq<string>)
    ensures |r| == |names|
    ensures forall x :: x in r <==> x in names
    ensures forall i, j :: 0 <= i < j < |r| ==> Lt(r[i], r[j])
    decreases |names|
  {
    if names == {} then []
    else
      var m := Least(names);
      var rest := SortedNames(names - {m});
      LeastFirst(m, names, rest);
      [m] + rest
  }

  /** The least name before the others, sorted, gives them all sorted. */
  lemma LeastFirst(m: string, names: set<string>, rest: seq<string>)
    requires IsLeast(m, names)
    requires forall x :: x in rest <==> x in names - {m}
    requires forall i, j :: 0 <= i < j < |rest| ==> Lt(rest[i], rest[j])
    ensures forall i, j :: 0 <= i < j < |[m] + rest| ==> Lt(([m] + rest)[i], ([m] + rest)[j])
  {
    assert forall j :: 0 <= j < |rest| ==> Lt(m, rest[j]) by {
      forall j | 0 <= j < |rest|
        ensures Lt(m, rest[j])
      {
        assert rest[j] in rest;
      }
    }
    var r := [m] + rest;
    forall i, j | 0 <= i < j < |r|
      ensures Lt(r[i], r[j])
    {
      assert r[j] == rest[j - 1];
      if i > 0 {
        assert r[i] == rest[i - 1];
      }
    }
  }

  /** The name `'$' + i` that `createMask` gives its `i`th variable and `parseMatchKey` its `i`th value. */
  function Var(i: nat): string
  {
    "$" + NatToString(i)
  }

  function PositionalNames(n: nat): (r: seq<string>)
    ensures |r| == n
    ensures forall i :: 0 <= i < n ==> r[i] == Var(i)
  {
    if n == 0 then [] else PositionalNames(n - 1) + [Var(n - 1)]
  }

  function VarNames(n: nat): set<string>
  {
    set i | 0 <= i < n :: Var(i)
  }

  lemma VarInjective(i: nat, j: nat)
    requires Var(i) == Var(j)
    ensures i == j
  {
    assert Var(i)[1..] == NatToString(i) && Var(j)[1..] == NatToString(j);
    ParseNatToString(i);
    ParseNatToString(j);
  }

  lemma {:induction false} VarNamesCount(n: nat)
    ensures |VarNames(n)| == n
  {
    if n > 0 {
      VarNamesCount(n - 1);
      assert VarNames(n) == VarNames(n - 1) + {Var(n - 1)};
      if Var(n - 1) in VarNames(n - 1) {
        var i :| 0 <= i < n - 1 && Var(i) == Var(n - 1);
        VarInjective(i, n - 1);
      }
    }
  }

  // Key builders.

  /** The encoded keys of the values of `names`, in that order. */
  function EncodedValues(vars: Bindings, names: seq<string>): (r: seq<string>)
    requires forall i :: 0 <= i < |names| ==> names[i] in vars
    ensures |r| == |names|
    ensures forall i :: 0 <= i < |names| ==> r[i] == EncodeConceptKey(Key(vars[names[i]]))
  {
    seq(|names|, i requires 0 <= i < |names| => EncodeConceptKey(Key(vars[names[i]])))
  }

  /** `createVariableValueString`: the values' encoded keys, ordered by name, joined by `;`. */
  function VariableValueString(vars: Bindings): string
  {
    Join(EncodedValues(vars, SortedNames(vars.Keys)), ";")
  }

  const MaskMismatch := "Mask does not match concept."

  const MatchTag := "mask/match"

  /** `createMaskMatchKey`; `Err` where the mask does not match the concept. */
  function MaskMatchKey(concept: Concept, mask: Concept): (r: Result<string>)
    ensures Match(concept, mask).None? <==> r == Err(MaskMismatch)
    ensures r.Ok? ==> r.value == MatchTag + ":" + EncodeConceptKey(Key(mask)) + "/"
                                 + VariableValueString(Match(concept, mask).value)
  {
    match Match(concept, mask)
    case None => Err(MaskMismatch)
    case Some(vars) => Ok(MatchTag + ":" + EncodeConceptKey(Key(mask)) + "/" + VariableValueString(vars))
  }

  /** `createMaskMatchCountKey`. */
  function MaskMatchCountKey(mask: Concept): string
  {
    "mask/matchCount:" + EncodeConceptKey(Key(mask))
  }

  const StorageTag := "concept"

  /** `createConceptStorageKey`. */
  function ConceptStorageKey(concept: Concept): string
  {
    StorageTag + ":" + EncodeConceptKey(Key(concept))
  }

  /** `createConceptDataKey`. */
  function ConceptDataKey(spaceId: string, concept: Concept): string
  {
    "space/concept/data:" + spaceId + "/" + EncodeConceptKey(Key(concept))
  }

  const ContainerTag := "concept/index/container"

  /** `createContainmentPrefixKey`. */
  function ContainmentPrefixKey(concept: Concept): string
  {
    ContainerTag + ":" + EncodeConceptKey(Key(concept)) + "/"
  }

  function ContainmentKey(part: Concept, index: nat, container: Concept): string
  {
    ContainerTag + ":" + EncodeConceptKey(Key(part)) + "/" + NatToString(index) + "/" + EncodeConceptKey(Key(container))
  }

  /** `createContainmentKeys`: one key per part, under that part's prefix. */
  function ContainmentKeys(concept: Concept): (r: seq<string>)
    ensures |r| == |Parts(concept)|
    ensures forall i :: 0 <= i < |r| ==> r[i] == ContainmentKey(Parts(concept)[i], i, concept)
  {
    seq(|Parts(concept)|, i requires 0 <= i < |Parts(concept)| => ContainmentKey(Parts(concept)[i], i, concept))
  }

  // Key parsers.

  /** `fields[i]`, with `undefined` read as the empty string (both are falsy). */
  function Field(fields: seq<string>, i: nat): string
  {
    if i < |fields| then fields[i] else ""
  }

  /** The part of a key after its first `:` and before any second one: `key.split(':')[1]`. */
  function AfterColon(key: string): Option<string>
  {
    var fields := Split(key, ':');
    if |fields| < 2 then None else Some(fields[1])
  }

  /** The encoded variable values of a match key; none when the key has no value string. */
  function MatchValueFields(key: string): seq<string>
  {
    match AfterColon(key)
    case None => []
    case Some(rest) =>
      var valueStr := Field(Split(rest, '/'), 1);
      if |valueStr| == 0 then [] else Split(valueStr, ';')
  }

  /** `parseConcept(decodeConceptKey(encoded))`. */
  function DecodeAndParse(encoded: string): Result<Concept>
  {
    match DecodeConceptKey(encoded)
    case Err(m) => Err(m)
    case Ok(k) => ParseConcept(k, AllPlugins)
  }

  /** Read each value in turn and bind it to the name in the same place; the first failure wins. */
  function BindEach<V>(names: seq<string>, values: seq<string>, read: string -> Result<V>): (r: Result<map<string, V>>)
    requires |names| == |values|
    ensures r.Ok? ==> forall i :: 0 <= i < |names| ==> names[i] in r.value
  {
    if |values| == 0 then Ok(map[])
    else
      match read(values[0])
      case Err(m) => Err(m)
      case Ok(c) =>
        match BindEach(names[1..], values[1..], read)
        case Err(m) => Err(m)
        case Ok(dict) =>
          assert forall i :: 1 <= i < |names| ==> names[i] == names[1..][i - 1];
          Ok(map[names[0] := c] + dict)
  }

  /** Decode and parse each value in turn and bind it to the name in the same place. */
  function BindValues(names: seq<string>, values: seq<string>): (r: Result<Bindings>)
    requires |names| == |values|
  {
    BindEach(names, values, DecodeAndParse)
  }

  /** `parseMatchKey`: the `i`th value is bound to `'$' + i`. */
  function ParseMatchKey(key: string): Result<Bindings>
  {
    var values := MatchValueFields(key);
    BindValues(PositionalNames(|values|), values)
  }

  /** The parts of a containment key: the part's and the container's encoded keys and the index. */
  function ContainmentFields(key: string): Option<(string, string, string)>
  {
    match AfterColon(key)
    case None => None
    case Some(rest) =>
      var fields := Split(rest, '/');
      var conceptKey, index, containerKey := Field(fields, 0), Field(fields, 1), Field(fields, 2);
      if |conceptKey| == 0 || |containerKey| == 0 || |index| == 0 then None
      else Some((conceptKey, index, containerKey))
  }

  /** A parsed containment key; `index` is `None` where `parseInt` gives `NaN`. */
  datatype Containment = Containment(concept: Concept, container: Concept, index: Option<nat>)

  /** `parseContainmentKey`: `Ok(None)` is its `null`; an `Err` is what it throws. */
  function ParseContainmentKey(key: string): Result<Option<Containment>>
  {
    match ContainmentFields(key)
    case None => Ok(None)
    case Some((conceptKey, index, containerKey)) =>
      match DecodeAndParse(conceptKey)
      case Err(m) => Err(m)
      case Ok(concept) =>
        match DecodeAndParse(containerKey)
        case Err(m) => Err(m)
        case Ok(container) => Ok(Some(Containment(concept, container, ParseNat(index))))
  }

  /** The concept key a storage key holds, as `getAllConcepts` reads it. */
  function StorageKeyConcept(key: string): Result<string>
  {
    match AfterColon(key)
    case None => DecodeConceptKey("undefined")
    case Some(rest) => DecodeConceptKey(rest)
  }

  // Reading keys back.

  lemma AfterColonOf(prefix: string, rest: string)
    requires ':' !in prefix && ':' !in rest
    ensures AfterColon(prefix + ":" + rest) == Some(rest)
  {
    IndexOfAfter(prefix, ':', rest);
    var s := prefix + ":" + rest;
    assert s[..|prefix|] == prefix;
    assert s[|prefix| + 1..] == rest;
    IndexOfAbsent(rest, ':');
    assert Split(rest, ':') == [rest];
    assert Split(s, ':') == [prefix] + Split(rest, ':');
  }

  /** A key `tag:a/b` with `a` and `b` free of `:` and `/` reads back as its two fields. */
  lemma TwoFields(tag: string, a: string, b: string)
    requires ':' !in tag && ':' !in a && ':' !in b && '/' !in a && '/' !in b
    ensures AfterColon(tag + ":" + a + "/" + b) == Some(a + "/" + b)
    ensures Split(a + "/" + b, '/') == [a, b]
  {
    assert tag + ":" + a + "/" + b == tag + ":" + (a + "/" + b);
    AfterColonOf(tag, a + "/" + b);
    assert Join([a, b], "/") == a + "/" + b by {
      assert [a, b][1..] == [b];
    }
    SplitJoin([a, b], '/');
  }

  /** A key `tag:a/n/b` with plain `a`, `n` and `b` reads back as its three fields. */
  lemma ThreeFields(tag: string, a: string, n: string, b: string)
    requires ':' !in tag && AllPlain(a) && AllPlain(n) && AllPlain(b)
    ensures AfterColon(tag + ":" + a + "/" + n + "/" + b) == Some(a + "/" + n + "/" + b)
    ensures Split(a + "/" + n + "/" + b, '/') == [a, n, b]
  {
    var rest := a + "/" + n + "/" + b;
    assert ':' !in rest by {
      PlainLacks(a);
      PlainLacks(n);
      PlainLacks(b);
    }
    assert tag + ":" + a + "/" + n + "/" + b == tag + ":" + rest;
    AfterColonOf(tag, rest);
    SplitThree(a, n, b);
  }

  lemma SplitThree(a: string, n: string, b: string)
    requires AllPlain(a) && AllPlain(n) && AllPlain(b)
    ensures Split(a + "/" + n + "/" + b, '/') == [a, n, b]
  {
    PlainLacks(a);
    PlainLacks(n);
    PlainLacks(b);
    JoinThree(a, n, b, "/");
    assert a + "/" + n + "/" + b == a + "/" + (n + "/" + b);
    SplitJoin([a, n, b], '/');
  }

  lemma NumeralPlain(i: nat)
    ensures AllPlain(NatToString(i))
  {
    var n := NatToString(i);
    forall k | 0 <= k < |n|
      ensures Plain(n[k])
    {
      assert IsDigit(n[k]);
    }
  }

  /** Splitting a `;`-joined list of plain, non-empty fields gives the fields back. */
  lemma ValueListRead(vs: seq<string>)
    requires forall k :: 0 <= k < |vs| ==> AllPlain(vs[k]) && |vs[k]| > 0
    ensures ':' !in Join(vs, ";") && '/' !in Join(vs, ";")
    ensures |vs| > 0 ==> |Join(vs, ";")| > 0 && Split(Join(vs, ";"), ';') == vs
    ensures |vs| == 0 ==> Join(vs, ";") == ""
  {
    forall k | 0 <= k < |vs|
      ensures ':' !in vs[k] && '/' !in vs[k] && ';' !in vs[k]
    {
      PlainLacks(vs[k]);
    }
    JoinLacks(vs, ";", ':');
    JoinLacks(vs, ";", '/');
    if |vs| > 0 {
      assert |vs| == 1 ==> Join(vs, ";") == vs[0];
      assert |vs| > 1 ==> Join(vs, ";") == vs[0] + ";" + Join(vs[1..], ";");
      SplitJoin(vs, ';');
    }
  }

  /** The storage key of a concept gives back that concept's key. */
  lemma StorageKeyRead(c: Concept)
    ensures StorageKeyConcept(ConceptStorageKey(c)) == Ok(Key(c))
  {
    StorageKeyOf(Key(c));
  }

  lemma TagLacksColon()
    ensures ':' !in StorageTag && ':' !in MatchTag && ':' !in ContainerTag
  {
    assert forall k :: 0 <= k < |StorageTag| ==> StorageTag[k] != ':';
    assert forall k :: 0 <= k < |MatchTag| ==> MatchTag[k] != ':';
    assert forall k :: 0 <= k < |ContainerTag| ==> ContainerTag[k] != ':';
  }

  lemma StorageKeyOf(key: string)
    ensures StorageKeyConcept(StorageTag + ":" + EncodeConceptKey(key)) == Ok(key)
  {
    var e := EncodeConceptKey(key);
    EncodedKeyPlain(key);
    PlainLacks(e);
    TagLacksColon();
    AfterColonOf(StorageTag, e);
    DecodeEncodeConceptKey(key);
  }

  /**
   * The value fields of a match key are the encoded keys of the variables'
   * values, in the order of the names that stands in for `localeCompare`.
   */
  lemma MatchKeyFields(concept: Concept, mask: Concept)
    requires Match(concept, mask).Some?
    ensures MatchValueFields(MaskMatchKey(concept, mask).value)
      == EncodedValues(Match(concept, mask).value, SortedNames(Match(concept, mask).value.Keys))
  {
    ValueFieldsRead(Key(mask), Match(concept, mask).value);
  }

  lemma ValueFieldsRead(maskKey: string, vars: Bindings)
    ensures MatchValueFields(MatchTag + ":" + EncodeConceptKey(maskKey) + "/" + VariableValueString(vars))
      == EncodedValues(vars, SortedNames(vars.Keys))
  {
    var names := SortedNames(vars.Keys);
    var e := EncodeConceptKey(maskKey);
    var vs := EncodedValues(vars, names);
    forall k | 0 <= k < |vs|
      ensures AllPlain(vs[k]) && |vs[k]| > 0
    {
      assert names[k] in names;
      EncodedKeyPlain(Key(vars[names[k]]));
    }
    ValueListRead(vs);
    EncodedKeyPlain(maskKey);
    PlainLacks(e);
    ValueFieldsOf(e, Join(vs, ";"), vs);
  }

  lemma ValueFieldsOf(e: string, v: string, vs: seq<string>)
    requires ':' !in e && '/' !in e && ':' !in v && '/' !in v
    requires |vs| > 0 ==> |v| > 0 && Split(v, ';') == vs
    requires |vs| == 0 ==> v == ""
    ensures MatchValueFields(MatchTag + ":" + e + "/" + v) == vs
  {
    TwoFields(MatchTag, e, v);
  }

  /** The entries of `vars` under the given names. */
  function Restrict<V>(vars: map<string, V>, names: seq<string>): (r: map<string, V>)
    ensures forall x :: x in r <==> x in vars && x in names
  {
    map x | x in vars && x in names :: vars[x]
  }

  /** `c` is what parsing its own key gives. */
  predicate ParsesBack(c: Concept)
  {
    ParseConcept(Key(c), AllPlugins) == Ok(c)
  }

  lemma BindEncoded(vars: Bindings, names: seq<string>)
    requires forall i :: 0 <= i < |names| ==> names[i] in vars
    requires forall i :: 0 <= i < |names| ==> ParsesBack(vars[names[i]])
    ensures BindValues(names, EncodedValues(vars, names)) == Ok(Restrict(vars, names))
  {
    var vs := EncodedValues(vars, names);
    forall i | 0 <= i < |names|
      ensures DecodeAndParse(vs[i]) == Ok(vars[names[i]])
    {
      DecodeEncodeConceptKey(Key(vars[names[i]]));
    }
    BindEachRead(names, vs, DecodeAndParse, vars);
  }

  /** Binding values that each read as the entry under their name gives those entries. */
  lemma {:induction false} BindEachRead<V>(names: seq<string>, values: seq<string>, read: string -> Result<V>, vars: map<string, V>)
    requires |names| == |values|
    requires forall i :: 0 <= i < |names| ==> names[i] in vars && read(values[i]) == Ok(vars[names[i]])
    ensures BindEach(names, values, read) == Ok(Restrict(vars, names))
  {
    if |names| > 0 {
      assert forall i :: 1 <= i < |names| ==> names[i] == names[1..][i - 1] && values[i] == values[1..][i - 1];
      BindEachRead(names[1..], values[1..], read, vars);
      RestrictFirst(vars, names);
    }
  }

  /** Restricting to a list of names binds its first name, then restricts to the others. */
  lemma RestrictFirst<V>(vars: map<string, V>, names: seq<string>)
    requires |names| > 0 && names[0] in vars
    ensures map[names[0] := vars[names[0]]] + Restrict(vars, names[1..]) == Restrict(vars, names)
  {
    forall x | x in names
      ensures x == names[0] || x in names[1..]
    {
      var i :| 0 <= i < |names| && names[i] == x;
      if i > 0 {
        assert names[1..][i - 1] == x;
      }
    }
  }

  /**
   * With the names sorted: the dictionary the corrected reading gives is the
   * one the key was made from, for a mask whose variables are `$0 … $(n-1)`
   * and values that parse back as themselves.
   */
  function ParseMatchKeySorted(key: string): Result<Bindings>
  {
    var values := MatchValueFields(key);
    VarNamesCount(|values|);
    BindValues(SortedNames(VarNames(|values|)), values)
  }

  lemma MatchKeyRoundTrip(concept: Concept, mask: Concept)
    requires Match(concept, mask).Some?
    requires Match(concept, mask).value.Keys == VarNames(|Match(concept, mask).value|)
    requires forall x :: x in Match(concept, mask).value ==> ParsesBack(Match(concept, mask).value[x])
    ensures ParseMatchKeySorted(MaskMatchKey(concept, mask).value) == Ok(Match(concept, mask).value)
  {
    MatchKeyFields(concept, mask);
    SortedRoundTrip(Match(concept, mask).value, MaskMatchKey(concept, mask).value);
  }

  lemma SortedRoundTrip(vars: Bindings, key: string)
    requires vars.Keys == VarNames(|vars|)
    requires forall x :: x in vars ==> ParsesBack(vars[x])
    requires MatchValueFields(key) == EncodedValues(vars, SortedNames(vars.Keys))
    ensures ParseMatchKeySorted(key) == Ok(vars)
  {
    var names := SortedNames(vars.Keys);
    SortedNamesCover(vars);
    BindEncoded(vars, names);
    SortedReading(vars, key);
  }

  lemma SortedNamesCover(vars: Bindings)
    requires forall x :: x in vars ==> ParsesBack(vars[x])
    ensures forall i :: 0 <= i < |SortedNames(vars.Keys)| ==>
      SortedNames(vars.Keys)[i] in vars && ParsesBack(vars[SortedNames(vars.Keys)[i]])
    ensures Restrict(vars, SortedNames(vars.Keys)) == vars
  {
    var names := SortedNames(vars.Keys);
    SortedNamesRestrict(vars);
    forall i | 0 <= i < |names|
      ensures names[i] in vars && ParsesBack(vars[names[i]])
    {
      var x := names[i];
      assert x in vars;
    }
  }

  lemma SortedNamesRestrict(vars: Bindings)
    ensures forall i :: 0 <= i < |SortedNames(vars.Keys)| ==> SortedNames(vars.Keys)[i] in vars
    ensures Restrict(vars, SortedNames(vars.Keys)) == vars
  {
    var names := SortedNames(vars.Keys);
    forall i | 0 <= i < |names|
      ensures names[i] in vars
    {
      assert names[i] in names;
    }
  }

  lemma SortedReading(vars: Bindings, key: string)
    requires vars.Keys == VarNames(|vars|)
    requires MatchValueFields(key) == EncodedValues(vars, SortedNames(vars.Keys))
    ensures ParseMatchKeySorted(key) == BindValues(SortedNames(vars.Keys), MatchValueFields(key))
  {
    var names := SortedNames(vars.Keys);
    var values := MatchValueFields(key);
    assert |values| == |vars| by {
      assert |values| == |names| == |vars.Keys|;
    }
  }

  /**
   * As written, the reading names the values by position: it agrees with the
   * sorted names only while they sort in numeric order, and with eleven
   * variables `$10` sorts before `$2`.
   */
  lemma PositionalNamesMisorder()
    ensures SortedNames(VarNames(11)) != PositionalNames(11)
  {
    var sorted := SortedNames(VarNames(11));
    assert Var(2) == "$2" && Var(10) == "$10";
    assert Lt("$10", "$2");
    assert !Le("$2", "$10");
    assert PositionalNames(11)[2] == "$2" && PositionalNames(11)[10] == "$10";
  }

  /** Two strictly sorted sequences of the same names are the same sequence. */
  lemma {:induction false} SortedUnique(a: seq<string>, b: seq<string>)
    requires forall i, j :: 0 <= i < j < |a| ==> Lt(a[i], a[j])
    requires forall i, j :: 0 <= i < j < |b| ==> Lt(b[i], b[j])
    requires forall x :: x in a <==> x in b
    ensures a == b
    decreases |a|
  {
    assert |a| > 0 ==> a[0] in a;
    assert |b| > 0 ==> b[0] in b;
    if |a| > 0 {
      var m :| 0 <= m < |b| && b[m] == a[0];
      assert b[0] in b;
      var k :| 0 <= k < |a| && a[k] == b[0];
      if m > 0 && k > 0 {
        LeAntisymmetric(a[0], b[0]);
        assert false;
      }
      assert a[0] == b[0];
      forall x
        ensures x in a[1..] <==> x in b[1..]
      {
        if x in a[1..] {
          var i :| 1 <= i < |a| && a[i] == x;
          assert Lt(a[0], a[i]);
          assert x in b;
        }
        if x in b[1..] {
          var i :| 1 <= i < |b| && b[i] == x;
          assert Lt(b[0], b[i]);
          assert x in a;
        }
      }
      SortedUnique(a[1..], b[1..]);
      assert a == [a[0]] + a[1..] && b == [b[0]] + b[1..];
    }
  }

  /** Below ten, the names `$0 … $9` sort in numeric order. */
  lemma VarOrder(i: nat, j: nat)
    requires i < j < 10
    ensures Lt(Var(i), Var(j))
  {
    DigitRoundTrip(i);
    DigitRoundTrip(j);
    var a, b := Var(i), Var(j);
    assert a == ['$', DigitChar(i)] && b == ['$', DigitChar(j)];
    assert a[1..] == [DigitChar(i)] && b[1..] == [DigitChar(j)];
    assert Le(a[1..], b[1..]);
    assert a[1] != b[1];
  }

  /**
   * With at most ten variables the sorted names are the positional ones, so
   * the reading as written names every value rightly.
   */
  lemma SortedVarNames(n: nat)
    requires n <= 10
    ensures SortedNames(VarNames(n)) == PositionalNames(n)
  {
    var p := PositionalNames(n);
    forall i, j | 0 <= i < j < |p|
      ensures Lt(p[i], p[j])
    {
      VarOrder(i, j);
    }
    forall x
      ensures x in p <==> x in VarNames(n)
    {
      if x in VarNames(n) {
        var i :| 0 <= i < n && Var(i) == x;
        assert p[i] == x;
      }
    }
    SortedUnique(SortedNames(VarNames(n)), p);
  }

  /** A key of at most ten values reads alike, positionally or by the sorted names. */
  lemma ReadersAgree(key: string)
    requires |MatchValueFields(key)| <= 10
    ensures ParseMatchKey(key) == ParseMatchKeySorted(key)
  {
    SortedVarNames(|MatchValueFields(key)|);
  }

  /**
   * `createMaskMatchKey` followed by `parseMatchKey`, as written: a mask with
   * the variables `$0 … $(n-1)` for `n` at most ten, and values that parse
   * back, gives the concept's bindings back.
   */
  lemma ParseMatchKeyRoundTrip(concept: Concept, mask: Concept)
    requires Match(concept, mask).Some?
    requires Match(concept, mask).value.Keys == VarNames(|Match(concept, mask).value|)
    requires |Match(concept, mask).value| <= 10
    requires forall x :: x in Match(concept, mask).value ==> ParsesBack(Match(concept, mask).value[x])
    ensures ParseMatchKey(MaskMatchKey(concept, mask).value) == Ok(Match(concept, mask).value)
  {
    var vars := Match(concept, mask).value;
    MatchKeyFields(concept, mask);
    assert |MatchValueFields(MaskMatchKey(concept, mask).value)| == |vars.Keys| == |vars|;
    ReadersAgree(MaskMatchKey(concept, mask).value);
    MatchKeyRoundTrip(concept, mask);
  }

  /** The containment keys read back as the part, its position and the container. */
  lemma ContainmentKeyFields(concept: Concept, i: nat)
    requires i < |Parts(concept)|
    ensures ContainmentFields(ContainmentKeys(concept)[i])
      == Some((EncodeConceptKey(Key(Parts(concept)[i])), NatToString(i), EncodeConceptKey(Key(concept))))
  {
    assert ContainmentKeys(concept)[i] == ContainmentKey(Parts(concept)[i], i, concept);
    FieldsOfKeys(Key(Parts(concept)[i]), i, Key(concept));
  }

  lemma FieldsOfKeys(partKey: string, i: nat, containerKey: string)
    ensures ContainmentFields(ContainerTag + ":" + EncodeConceptKey(partKey) + "/" + NatToString(i) + "/" + EncodeConceptKey(containerKey))
      == Some((EncodeConceptKey(partKey), NatToString(i), EncodeConceptKey(containerKey)))
  {
    var a, n, b := EncodeConceptKey(partKey), NatToString(i), EncodeConceptKey(containerKey);
    EncodedKeyPlain(partKey);
    EncodedKeyPlain(containerKey);
    NumeralPlain(i);
    TagLacksColon();
    ThreeFields(ContainerTag, a, n, b);
  }

  /** Reading a containment key gives the part, the container and the position back. */
  lemma ContainmentKeyRoundTrip(concept: Concept, i: nat)
    requires i < |Parts(concept)|
    requires ParsesBack(Parts(concept)[i]) && ParsesBack(concept)
    ensures ParseContainmentKey(ContainmentKeys(concept)[i])
      == Ok(Some(Containment(Parts(concept)[i], concept, Some(i))))
  {
    ContainmentKeyFields(concept, i);
    DecodeEncodeConceptKey(Key(Parts(concept)[i]));
    DecodeEncodeConceptKey(Key(concept));
    ParseNatToString(i);
  }

  lemma PlainPrefix(a: string, b: string, t: string)
    requires '/' !in a && '/' !in b
    requires HasPrefix(b + "/" + t, a + "/")
    ensures a == b
  {
    var s := b + "/" + t;
    assert s[..|a| + 1] == a + "/";
    assert s[|a|] == '/';
    assert |b| <= |a| by {
      assert forall k :: 0 <= k < |b| ==> s[k] == b[k];
    }
    assert s[|b|] == '/';
    assert |a| <= |b| by {
      assert forall k :: 0 <= k < |a| ==> s[k] == a[k];
    }
    assert a == s[..|a|] == b;
  }

  /**
   * A containment key of `concept` lies under the prefix key of `x` exactly
   * when its part has the key of `x`: listing the prefix finds the concepts
   * that contain `x`.
   */
  lemma ContainmentPrefixExact(concept: Concept, i: nat, x: Concept)
    requires i < |Parts(concept)|
    ensures HasPrefix(ContainmentKeys(concept)[i], ContainmentPrefixKey(x)) <==> Key(x) == Key(Parts(concept)[i])
  {
    var k := ContainmentKeys(concept)[i];
    assert k == ContainmentKey(Parts(concept)[i], i, concept);
    PrefixOfKeys(Key(x), Key(Parts(concept)[i]), NatToString(i), EncodeConceptKey(Key(concept)));
  }

  lemma PrefixOfKeys(xk: string, pk: string, n: string, ec: string)
    ensures HasPrefix(ContainerTag + ":" + EncodeConceptKey(pk) + "/" + n + "/" + ec, ContainerTag + ":" + EncodeConceptKey(xk) + "/")
      <==> xk == pk
  {
    var ex, ep := EncodeConceptKey(xk), EncodeConceptKey(pk);
    EncodedKeyPlain(xk);
    EncodedKeyPlain(pk);
    PlainLacks(ex);
    PlainLacks(ep);
    EncodeConceptKeyInjective(xk, pk);
    PrefixUnderTag(ContainerTag + ":", ex, ep, n, ec);
  }

  lemma PrefixUnderTag(tag: string, ex: string, ep: string, n: string, ec: string)
    requires '/' !in ex && '/' !in ep
    ensures HasPrefix(tag + ep + "/" + n + "/" + ec, tag + ex + "/") <==> ex == ep
  {
    var t := n + "/" + ec;
    var k := tag + ep + "/" + n + "/" + ec;
    assert k == tag + (ep + "/" + t);
    var p := tag + ex + "/";
    if HasPrefix(k, p) {
      assert (ep + "/" + t)[..|ex| + 1] == k[|tag|..|p|];
      assert k[|tag|..|p|] == p[|tag|..] == ex + "/";
      PlainPrefix(ex, ep, t);
    }
    if ex == ep {
      assert k == p + t;
    }
  }
}
