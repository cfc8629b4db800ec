/**
 * `matchConcepts` over the store (apps/api/src/apis/space/queries/matchRules.ts):
 * the operations of the search in `Conjunction` made concrete — the parser,
 * `findAll`, `createMask`, the match counters, the `mask/match:` listing,
 * `parseMatchKey`, `interpolateToConcepts` and `matchVariables` — and the
 * method that runs the search against a `Storage`.
 */
module Rules {
  import opened Wrappers
  import opened Strings
  import opened Concepts
  import opened Folds
  import opened Plugins
  import opened Expansion
  import opened Interpolation
  import opened Matching
  import opened Keys
  import opened Store
  import opened Lookups
  import ConceptMasks
  import Unification
  import opened Conjunction

  // The operations.

  /** `parseConcept`. */
  function Reparse(s: string): Result<Concept>
  {
    ParseConcept(s, AllPlugins)
  }

  /** `findAll(storage, concepts)`. */
  function Finder(data: Data): seq<Concept> -> Result<seq<Concept>>
  {
    (cs: seq<Concept>) => FindAllOf(data, SourceConcepts(cs))
  }

  /** `getMaskMatchCount.bind(null, storage)`. */
  function MaskCount(data: Data): Concept -> int
  {
    (m: Concept) => GetMaskMatchCount(data, m)
  }

  /** The listing prefix of a mask's match keys: `mask/match:<encoded mask key>/`. */
  function MatchPrefix(mask: Concept): string
  {
    MatchTag + ":" + EncodeConceptKey(Key(mask)) + "/"
  }

  /** `storage.list({ prefix })` under a mask's match prefix. */
  function MatchKeysOf(data: Data): Concept -> seq<string>
  {
    (m: Concept) => Listing(data, MatchPrefix(m))
  }

  /** `Object.entries(bindings)` over the names in order. */
  function Entries(vars: Bindings, names: seq<string>): (r: seq<(string, Concept)>)
    requires forall i :: 0 <= i < |names| ==> names[i] in vars
    ensures |r| == |names| && forall i :: 0 <= i < |names| ==> r[i] == (names[i], vars[names[i]])
  {
    seq(|names|, i requires 0 <= i < |names| => (names[i], vars[names[i]]))
  }

  /**
   * `Object.entries(parseMatchKey(key))`: the `i`th value named `$i`, the
   * entries in that order, as the names were inserted.
   */
  function MatchEntries(key: string): Result<seq<(string, Concept)>>
  {
    var values := MatchValueFields(key);
    var names := PositionalNames(|values|);
    match BindValues(names, values)
    case Err(m) => Err(m)
    case Ok(vars) => Ok(Entries(vars, names))
  }

  /**
   * The corrected reading: the values named in the order the key was
   * written in, the sorted names (see `Keys.PositionalNamesMisorder`).
   */
  function SortedMatchEntries(key: string): Result<seq<(string, Concept)>>
  {
    var values := MatchValueFields(key);
    VarNamesCount(|values|);
    var names := SortedNames(VarNames(|values|));
    match BindValues(names, values)
    case Err(m) => Err(m)
    case Ok(vars) => Ok(Entries(vars, names))
  }

  /** A binding dictionary as an interpolation dictionary: each value is its own concept. */
  function Sources(b: Bindings): Dict
  {
    map k | k in b :: SourceConcept(b[k])
  }

  /** `interpolateToConcepts(rules, bindings)`. */
  function Fill(cs: seq<Concept>, b: Bindings): Result<seq<Concept>>
  {
    Interpolate(SourceConcepts(cs), Sources(b))
  }

  /** `matchVariables`, whose `key in matches` also sees the names every object inherits. */
  function Unifier(c: Concept, p: Concept): Option<Bindings>
  {
    Unification.Unify(c, p, Unification.Inherited)
  }

  /** The corrected `matchVariables`, with `in` read as an own-property test. */
  function OwnUnifier(c: Concept, p: Concept): Option<Bindings>
  {
    Unification.Unify(c, p, {})
  }

  /** The operations of `matchConcepts` as written. */
  function RuleOps(data: Data): Ops
  {
    Ops(Reparse, Finder(data), ConceptMasks.Mask, MaskCount(data), MatchKeysOf(data), MatchEntries, Fill, Unifier)
  }

  /** The same operations with the two readings corrected. */
  function CorrectedOps(data: Data): Ops
  {
    Ops(Reparse, Finder(data), ConceptMasks.Mask, MaskCount(data), MatchKeysOf(data), SortedMatchEntries, Fill, OwnUnifier)
  }

  /** `matchConcepts(storage, rules, { includeVariables })`, with at most `fuel` nested calls. */
  function MatchConceptsOf(data: Data, rules: seq<Concept>, includeVariables: bool, fuel: nat): Result<seq<Bindings>>
  {
    Solve(RuleOps(data), rules, includeVariables, fuel)
  }

  // The method.

  /** `matchConcepts`. The store is only read. */
  method MatchConcepts(store: Storage, rules: seq<Concept>, includeVariables: bool, fuel: nat)
    returns (r: Result<seq<Bindings>>)
    ensures r == MatchConceptsOf(store.data, rules, includeVariables, fuel)
    decreases fuel, 0
  {
    if fuel == 0 {
      return Err(DepthExceeded);
    }
    var depth := fuel - 1;
    var remaining := Prepare(store, rules);
    SolveSteps(RuleOps(store.data), rules, includeVariables, fuel);
    if remaining.Err? {
      return Err(remaining.msg);
    }
    if remaining.value.None? {
      return Ok([]);
    }
    var rest := remaining.value.value;
    if |rest| == 0 {
      return Ok([map[]]);
    }
    SolveReachesHead(RuleOps(store.data), rules, includeVariables, fuel, rest);
    r := MatchFrom(store, rest, includeVariables, depth);
  }

  /** Lines 27-45: uniquify and reparse the rules, check the ground ones, drop the stored ones. */
  method Prepare(store: Storage, rules: seq<Concept>) returns (r: Result<Option<seq<Concept>>>)
    ensures r == Prepared(RuleOps(store.data), rules)
  {
    ghost var ops := RuleOps(store.data);
    var parsed := ReadEach(UniqueKeys(Concepts.Keys(rules)), Reparse);
    if parsed.Err? {
      return Err(parsed.msg);
    }
    var rs := parsed.value;
    var ground := Grounds(rs);
    if |ground| == 0 {
      return Ok(Some(rs));
    }
    var existing := FindAll(store, SourceConcepts(ground));
    assert ops.find(ground) == existing;
    if existing.Err? {
      return Err(existing.msg);
    }
    if |existing.value| < |ground| {
      return Ok(None);
    }
    return Ok(Some(Unfound(rs, existing.value)));
  }

  /** Lines 53-124: group by mask, sort, bind the head rule, and read the match keys. */
  method MatchFrom(store: Storage, rest: seq<Concept>, includeVariables: bool, depth: nat)
    returns (r: Result<seq<Bindings>>)
    ensures r == Matched(RuleOps(store.data), rest, includeVariables, depth)
    decreases depth, 3
  {
    ghost var ops := RuleOps(store.data);
    var groups := GroupByMask(rest);
    var masks := ReadEach(GroupKeys(groups), Reparse);
    if masks.Err? {
      assert PlanOf(ops, rest) == Err(masks.msg);
      MatchedFails(ops, rest, includeVariables, depth);
      return Err(masks.msg);
    }
    var sorted := SortByCount(masks.value, MaskCount(store.data));
    var ordered := Gather(groups, sorted);
    if |sorted| == 0 || |ordered| == 0 {
      assert PlanOf(ops, rest) == Err(UndefinedParts);
      MatchedFails(ops, rest, includeVariables, depth);
      return Err(UndefinedParts);
    }
    var plan := Plan(sorted[0], ordered[0], ordered[1..]);
    assert PlanOf(ops, rest) == Ok(plan);
    HeadSteps(ops, rest, plan);
    var dict := Unification.MatchVariables(plan.rule, plan.head, Unification.Inherited);
    if dict.None? {
      MatchedFails(ops, rest, includeVariables, depth);
      return Err(NoHeadVariables);
    }
    MatchedSteps(ops, rest, includeVariables, depth, plan, dict.value);
    var matchKeys := store.List(MatchPrefix(plan.head));
    var results := AnswerKeys(store, matchKeys, dict.value, plan.rest, depth);
    if results.Err? {
      return Err(results.msg);
    }
    return Ok(Visible(results.value, includeVariables));
  }

  /** Lines 53-60: the rules filed under their masks' keys, in first-seen order. */
  method GroupByMask(rules: seq<Concept>) returns (groups: Groups)
    ensures groups == GroupBy(ConceptMasks.Mask, rules)
  {
    groups := [];
    var i := 0;
    while i < |rules|
      invariant 0 <= i <= |rules|
      invariant groups == GroupBy(ConceptMasks.Mask, rules[..i])
    {
      var mask := ConceptMasks.CreateMask(rules[i]);
      assert rules[..i + 1][..i] == rules[..i];
      groups := AddTo(groups, Key(mask), rules[i]);
      i := i + 1;
    }
    assert rules[..|rules|] == rules;
  }

  /** Lines 94-116: the answers of each match key in turn. */
  method AnswerKeys(store: Storage, keys: seq<string>, dict: Bindings, rest: seq<Concept>, depth: nat)
    returns (r: Result<seq<Bindings>>)
    ensures r == Answers(RuleOps(store.data), keys, dict, rest, depth)
    decreases depth, 2
  {
    ghost var ops := RuleOps(store.data);
    var results: seq<Bindings> := [];
    var j := 0;
    while j < |keys|
      invariant 0 <= j <= |keys|
      invariant Answers(ops, keys[..j], dict, rest, depth) == Ok(results)
    {
      var more := KeyAnswers(store, keys[j], dict, rest, depth);
      AnswersStep(ops, keys, dict, rest, depth, j);
      if more.Err? {
        AnswersPrefixError(ops, keys, dict, rest, depth, j + 1);
        return Err(more.msg);
      }
      results := results + more.value;
      j := j + 1;
    }
    assert keys[..|keys|] == keys;
    return Ok(results);
  }

  /** Lines 95-115: one match key's values, named for the head rule and extended by the rest's answers. */
  method KeyAnswers(store: Storage, key: string, dict: Bindings, rest: seq<Concept>, depth: nat)
    returns (r: Result<seq<Bindings>>)
    ensures r == FromKey(RuleOps(store.data), key, dict, rest, depth)
    decreases depth, 1
  {
    var entries := MatchEntries(key);
    if entries.Err? {
      return Err(entries.msg);
    }
    var partial := Rename(entries.value, dict);
    if partial.Err? {
      return Err(partial.msg);
    }
    if |rest| == 0 {
      return Ok([partial.value]);
    }
    var filled := Fill(rest, partial.value);
    if filled.Err? {
      return Err(filled.msg);
    }
    var subs := MatchConcepts(store, filled.value, false, depth);
    if subs.Err? {
      return Err(subs.msg);
    }
    var merged := MergeEach(partial.value, subs.value);
    return Ok(merged);
  }

  /** Lines 108-110: each sub-answer pushed after the key's own values. */
  method MergeEach(partial: Bindings, subs: seq<Bindings>) returns (merged: seq<Bindings>)
    ensures merged == Merged(partial, subs)
  {
    merged := [];
    var k := 0;
    while k < |subs|
      invariant 0 <= k <= |subs|
      invariant merged == Merged(partial, subs[..k])
    {
      merged := merged + [partial + subs[k]];
      k := k + 1;
    }
    assert subs[..|subs|] == subs;
  }

  // What the concrete operations give.

  /** A uniquified rule key is the key of some rule. */
  lemma KeyOfRule(rules: seq<Concept>, k: string) returns (j: nat)
    requires k in UniqueKeys(Concepts.Keys(rules))
    ensures j < |rules| && Key(rules[j]) == k
  {
    UniqueKeysFacts(Concepts.Keys(rules));
    var i :| 0 <= i < |Concepts.Keys(rules)| && Concepts.Keys(rules)[i] == k;
    KeysAt(rules, i);
    j := i;
  }

  /**
   * Rules that parse back from their keys read back, uniquified, as the
   * same rules, each key once (lines 27-31).
   */
  lemma ReadRules(rules: seq<Concept>)
    requires forall c :: c in rules ==> ParsesBack(c)
    ensures ReadEach(UniqueKeys(Concepts.Keys(rules)), Reparse).Ok?
    ensures var rs := ReadEach(UniqueKeys(Concepts.Keys(rules)), Reparse).value;
      DistinctKeys(rs) && forall c :: c in rs <==> c in rules
  {
    forall c | c in rules
      ensures Reparse(Key(c)) == Ok(c)
    {
      assert ParsesBack(c);
    }
    ReadKeys(rules, Reparse);
  }

  lemma ReadKeys(rules: seq<Concept>, read: string -> Result<Concept>)
    requires forall c :: c in rules ==> read(Key(c)) == Ok(c)
    ensures ReadEach(UniqueKeys(Concepts.Keys(rules)), read).Ok?
    ensures var rs := ReadEach(UniqueKeys(Concepts.Keys(rules)), read).value;
      DistinctKeys(rs) && forall c :: c in rs <==> c in rules
  {
    var ks := UniqueKeys(Concepts.Keys(rules));
    UniqueKeysFacts(Concepts.Keys(rules));
    forall i | 0 <= i < |ks|
      ensures read(ks[i]).Ok? && Key(read(ks[i]).value) == ks[i] && read(ks[i]).value in rules
    {
      var j := KeyOfRule(rules, ks[i]);
      assert rules[j] in rules;
    }
    ReadEachAllOk(ks, read);
    var rs := ReadEach(ks, read).value;
    forall c | c in rules
      ensures c in rs
    {
      var j :| 0 <= j < |rules| && rules[j] == c;
      KeysAt(rules, j);
      assert Concepts.Keys(rules)[j] in Concepts.Keys(rules);
      assert Key(c) in ks;
      var m :| 0 <= m < |ks| && ks[m] == Key(c);
      assert read(ks[m]) == Ok(rs[m]);
    }
  }

  /** `findAll` of distinct concepts that parse back: the stored ones, in order. */
  lemma FinderStored(data: Data, cs: seq<Concept>)
    requires DistinctKeys(cs) && forall c :: c in cs ==> ParsesBack(c)
    ensures Finder(data)(cs) == Ok(Stored(data, cs, true))
  {
    UniqueByKeyOfDistinct(cs);
    FindAllStored(data, SourceConcepts(cs));
  }

  /**
   * Lines 33-40: a ground rule that is not stored leaves no answer, whatever
   * the other rules, for rules that parse back from their keys.
   */
  lemma UnstoredRuleNoAnswer(data: Data, rules: seq<Concept>, includeVariables: bool, fuel: nat, x: Concept)
    requires fuel > 0
    requires forall c :: c in rules ==> ParsesBack(c)
    requires x in rules && IsGround(x) && ConceptStorageKey(x) !in data
    ensures MatchConceptsOf(data, rules, includeVariables, fuel) == Ok([])
  {
    ReadRules(rules);
    var rs := ReadEach(UniqueKeys(Concepts.Keys(rules)), Reparse).value;
    var ground := Grounds(rs);
    KeepDistinct(rs, IsGround);
    FinderStored(data, ground);
    KeepDrops(ground, StoredTest(data, true), x);
    MissingGroundRule(RuleOps(data), rules, includeVariables, fuel);
  }

  /**
   * Lines 46-50: rules that are all ground and all stored answer with one
   * empty binding, for rules that parse back from their keys.
   */
  lemma StoredRulesAnswerEmpty(data: Data, rules: seq<Concept>, includeVariables: bool, fuel: nat)
    requires fuel > 0
    requires forall c :: c in rules ==> ParsesBack(c) && IsGround(c) && ConceptStorageKey(c) in data
    ensures MatchConceptsOf(data, rules, includeVariables, fuel) == Ok([map[]])
  {
    ReadRules(rules);
    var rs := ReadEach(UniqueKeys(Concepts.Keys(rules)), Reparse).value;
    if |rs| > 0 {
      FinderStored(data, rs);
      KeepAll(rs, StoredTest(data, true));
      forall c | c in rs
        ensures Key(c) in KeySet(rs)
      {
        var i :| 0 <= i < |rs| && rs[i] == c;
      }
    }
    GroundRulesFound(RuleOps(data), rules, includeVariables, fuel);
  }

  /**
   * Lines 62-80: with no match counter stored, every mask counts 0, so the
   * stable sort keeps the masks in first-seen order and the first rule heads
   * the search, under its own mask (for masks that parse back from their keys).
   */
  lemma FirstRuleHeads(data: Data, rest: seq<Concept>)
    requires |rest| > 0
    requires forall k :: k in data ==> !HasPrefix(k, CountTag)
    requires forall c :: c in rest ==> ParsesBack(ConceptMasks.Mask(c))
    ensures PlanOf(RuleOps(data), rest).Ok?
    ensures PlanOf(RuleOps(data), rest).value.rule == rest[0]
    ensures PlanOf(RuleOps(data), rest).value.head == ConceptMasks.Mask(rest[0])
  {
    forall c | c in rest
      ensures Reparse(Key(ConceptMasks.Mask(c))) == Ok(ConceptMasks.Mask(c))
    {
      assert ParsesBack(ConceptMasks.Mask(c));
    }
    forall m, n
      ensures MaskCount(data)(m) == MaskCount(data)(n)
    {
      NoCountersReadZero(data, m);
      NoCountersReadZero(data, n);
    }
    FirstRuleFirst(RuleOps(data), rest);
  }

  // The match keys under a mask.

  lemma MatchPrefixExact(xk: string, pk: string, vs: string)
    ensures HasPrefix(MatchTag + ":" + EncodeConceptKey(pk) + "/" + vs, MatchTag + ":" + EncodeConceptKey(xk) + "/")
      <==> xk == pk
  {
    var ex, ep := EncodeConceptKey(xk), EncodeConceptKey(pk);
    EncodedKeyPlain(xk);
    EncodedKeyPlain(pk);
    PlainLacks(ex);
    PlainLacks(ep);
    EncodeConceptKeyInjective(xk, pk);
    TagPrefix(MatchTag + ":", ex, ep, vs);
  }

  /** Under a tag, a separator-free name followed by `/` is a prefix only of a key with that name. */
  lemma TagPrefix(tag: string, ex: string, ep: string, vs: string)
    requires '/' !in ex && '/' !in ep
    ensures HasPrefix(tag + ep + "/" + vs, tag + ex + "/") <==> ex == ep
  {
    var k := tag + ep + "/" + vs;
    var p := tag + ex + "/";
    assert k == tag + (ep + "/" + vs);
    if HasPrefix(k, p) {
      assert (ep + "/" + vs)[..|ex| + 1] == k[|tag|..|p|];
      assert k[|tag|..|p|] == p[|tag|..] == ex + "/";
      PlainPrefix(ex, ep, vs);
    }
    if ex == ep {
      assert k == p + vs;
    }
  }

  /**
   * Lines 88-90: a stored match key of `concept` under `mask` is listed under
   * the prefix of a mask `m` exactly when `m` has the key of `mask`.
   */
  lemma MatchKeyListed(data: Data, concept: Concept, mask: Concept, m: Concept)
    requires MaskMatchKey(concept, mask).Ok? && MaskMatchKey(concept, mask).value in data
    ensures MaskMatchKey(concept, mask).value in MatchKeysOf(data)(m) <==> Key(m) == Key(mask)
  {
    MatchPrefixExact(Key(m), Key(mask), VariableValueString(Match(concept, mask).value));
  }

  // Reading a match key.

  /** The names a reading binds are the names it was given. */
  lemma {:induction false} BindEachNames<V>(names: seq<string>, values: seq<string>, read: string -> Result<V>)
    requires |names| == |values|
    ensures BindEach(names, values, read).Ok? ==> forall x :: x in BindEach(names, values, read).value ==> x in names
    decreases |values|
  {
    if |values| > 0 && read(values[0]).Ok? {
      BindEachNames(names[1..], values[1..], read);
    }
  }

  /**
   * Lines 95-96: the entries of a match key pair each name of the reading
   * with the value it binds, and name all of them.
   */
  lemma MatchEntriesRead(key: string)
    ensures MatchEntries(key).Ok? <==> ParseMatchKey(key).Ok?
    ensures MatchEntries(key).Ok? ==>
      var vars, es := ParseMatchKey(key).value, MatchEntries(key).value;
      (forall i :: 0 <= i < |es| ==> es[i].0 in vars && es[i].1 == vars[es[i].0])
      && (forall x :: x in vars ==> exists i :: 0 <= i < |es| && es[i].0 == x)
  {
    var values := MatchValueFields(key);
    var names := PositionalNames(|values|);
    BindEachNames(names, values, DecodeAndParse);
    if BindValues(names, values).Ok? {
      EntriesCover(BindValues(names, values).value, names);
    }
  }

  /** The same for the corrected reading. */
  lemma SortedEntriesRead(key: string)
    ensures SortedMatchEntries(key).Ok? <==> ParseMatchKeySorted(key).Ok?
    ensures SortedMatchEntries(key).Ok? ==>
      var vars, es := ParseMatchKeySorted(key).value, SortedMatchEntries(key).value;
      (forall i :: 0 <= i < |es| ==> es[i].0 in vars && es[i].1 == vars[es[i].0])
      && (forall x :: x in vars ==> exists i :: 0 <= i < |es| && es[i].0 == x)
  {
    var values := MatchValueFields(key);
    VarNamesCount(|values|);
    var names := SortedNames(VarNames(|values|));
    BindEachNames(names, values, DecodeAndParse);
    if BindValues(names, values).Ok? {
      EntriesCover(BindValues(names, values).value, names);
    }
  }

  lemma EntriesCover(vars: Bindings, names: seq<string>)
    requires forall i :: 0 <= i < |names| ==> names[i] in vars
    requires forall x :: x in vars ==> x in names
    ensures forall x :: x in vars ==> exists i :: 0 <= i < |names| && Entries(vars, names)[i].0 == x
  {
    forall x | x in vars
      ensures exists i :: 0 <= i < |names| && Entries(vars, names)[i].0 == x
    {
      var i :| 0 <= i < |names| && names[i] == x;
      assert Entries(vars, names)[i].0 == x;
    }
  }

  /**
   * A match key stored for a concept under a mask whose variables are
   * `$0 … $(n-1)`, with values that parse back, reads back as the concept's
   * bindings, every entry one of them and every one an entry, as long as
   * there are at most ten.
   */
  lemma MatchEntriesRoundTrip(concept: Concept, mask: Concept)
    requires Match(concept, mask).Some?
    requires Match(concept, mask).value.Keys == VarNames(|Match(concept, mask).value|)
    requires |Match(concept, mask).value| <= 10
    requires forall x :: x in Match(concept, mask).value ==> ParsesBack(Match(concept, mask).value[x])
    ensures MatchEntries(MaskMatchKey(concept, mask).value).Ok?
    ensures var vars, es := Match(concept, mask).value, MatchEntries(MaskMatchKey(concept, mask).value).value;
      (forall i :: 0 <= i < |es| ==> es[i].0 in vars && es[i].1 == vars[es[i].0])
      && (forall x :: x in vars ==> exists i :: 0 <= i < |es| && es[i].0 == x)
  {
    ParseMatchKeyRoundTrip(concept, mask);
    MatchEntriesRead(MaskMatchKey(concept, mask).value);
  }

  /** The corrected reading gives the bindings back for any number of variables. */
  lemma SortedEntriesRoundTrip(concept: Concept, mask: Concept)
    requires Match(concept, mask).Some?
    requires Match(concept, mask).value.Keys == VarNames(|Match(concept, mask).value|)
    requires forall x :: x in Match(concept, mask).value ==> ParsesBack(Match(concept, mask).value[x])
    ensures SortedMatchEntries(MaskMatchKey(concept, mask).value).Ok?
    ensures var vars, es := Match(concept, mask).value, SortedMatchEntries(MaskMatchKey(concept, mask).value).value;
      (forall i :: 0 <= i < |es| ==> es[i].0 in vars && es[i].1 == vars[es[i].0])
      && (forall x :: x in vars ==> exists i :: 0 <= i < |es| && es[i].0 == x)
  {
    MatchKeyRoundTrip(concept, mask);
    SortedEntriesRead(MaskMatchKey(concept, mask).value);
  }

  /** With at most ten values the two readings of a match key give the same entries. */
  lemma EntriesAgree(key: string)
    requires |MatchValueFields(key)| <= 10
    ensures MatchEntries(key) == SortedMatchEntries(key)
  {
    SortedVarNames(|MatchValueFields(key)|);
  }

  /**
   * The search as written and the corrected one share every operation but
   * the two readings, and those agree on keys of at most ten values and on
   * patterns none of whose part keys an object inherits.
   */
  lemma OpsAgree(data: Data, key: string, c: Concept, p: Concept)
    ensures var w, f := RuleOps(data), CorrectedOps(data);
      w.reparse == f.reparse && w.find == f.find && w.mask == f.mask && w.count == f.count
      && w.matchKeys == f.matchKeys && w.interpolate == f.interpolate
    ensures |MatchValueFields(key)| <= 10 ==> RuleOps(data).decode(key) == CorrectedOps(data).decode(key)
    ensures Unification.Unshadowed(p, Unification.Inherited) ==> RuleOps(data).unify(c, p) == CorrectedOps(data).unify(c, p)
  {
    if |MatchValueFields(key)| <= 10 {
      EntriesAgree(key);
    }
    if Unification.Unshadowed(p, Unification.Inherited) {
      Unification.UnifyInherited(c, p);
    }
  }
}
