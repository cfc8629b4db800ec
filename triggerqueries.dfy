/**
 * The store queries over triggers
 * (apps/api/src/apis/space/queries/getAllTriggers.ts and
 * apps/api/src/apis/space/queries/findTriggerMatches.ts): reading every
 * trigger back from its stored fragments, and completing the partial
 * matches of a batch of concepts from the store.
 */
module TriggerQueries {
  import opened Wrappers
  import opened Concepts
  import opened Matching
  import opened Store
  import opened Folds
  import opened Triggers
  import Rules
  import Conjunction

  // getAllTriggers.

  /** The variable `triggerFragRules` binds to the fragment of each component list. */
  function FragVariable(kind: Kind): string
  {
    match kind
    case Matches => "$rule"
    case Adds => "$template"
    case Removes => "$template"
    case Notifies => "$url"
  }

  /** The rule of `triggerFragRules` for a component list: `$trigger [@type $variable]`. */
  function FragRule(kind: Kind): Concept
  {
    Compound([Atom("$trigger"), Compound([Atom(TypeKey(kind)), Atom(FragVariable(kind))])])
  }

  /** The order in which `getAllTriggers` queries and indexes the component lists. */
  const FragKinds := [Matches, Adds, Removes, Notifies]

  /** `matchRules(storage, rule)` for the fragment rule of each component list. */
  function FragQuery(data: Data, bound: nat): Kind -> Result<seq<Bindings>>
  {
    (kind: Kind) => Rules.MatchConceptsOf(data, [FragRule(kind)], false, bound)
  }

  /**
   * One answer as `indexTriggerFrag(index, $trigger, kind, $variable)` files
   * it; reading the key of a missing `$trigger` throws. A missing `$rule`,
   * `$template` or `$url` would be filed as `undefined` by the source, not
   * thrown; the model returns `Err` there too, a branch real answers never
   * reach, since a match binds every variable of its pattern.
   */
  function ReadFrag(kind: Kind, b: Bindings): Result<Filing>
  {
    if "$trigger" in b && FragVariable(kind) in b then Ok(Filing(Key(b["$trigger"]), kind, b[FragVariable(kind)]))
    else Err(Conjunction.UndefinedKey)
  }

  /** The filings of one component list's answers, in answer order; the first answer that cannot be filed throws. */
  function FragsOf(kind: Kind, answers: seq<Bindings>): Result<seq<Filing>>
    decreases |answers|
  {
    if |answers| == 0 then Ok([])
    else
      match FragsOf(kind, answers[..|answers| - 1])
      case Err(m) => Err(m)
      case Ok(init) =>
        match ReadFrag(kind, answers[|answers| - 1])
        case Err(m) => Err(m)
        case Ok(f) => Ok(init + [f])
  }

  /** Every filing read from the answers of a component list's query is of that list, and is read from the answer at its position. */
  lemma {:induction false} FragsOfMeaning(kind: Kind, answers: seq<Bindings>)
    requires FragsOf(kind, answers).Ok?
    ensures |FragsOf(kind, answers).value| == |answers|
    ensures forall i :: 0 <= i < |answers| ==> ReadFrag(kind, answers[i]) == Ok(FragsOf(kind, answers).value[i])
    decreases |answers|
  {
    if |answers| > 0 {
      var init := answers[..|answers| - 1];
      FragsOfMeaning(kind, init);
      forall i | 0 <= i < |answers|
        ensures ReadFrag(kind, answers[i]) == Ok(FragsOf(kind, answers).value[i])
      {
        if i < |init| {
          assert answers[i] == init[i];
        }
      }
    }
  }

  lemma {:induction false} FragsOfPrefixError(kind: Kind, answers: seq<Bindings>, n: nat)
    requires n <= |answers| && FragsOf(kind, answers[..n]).Err?
    ensures FragsOf(kind, answers) == FragsOf(kind, answers[..n])
    decreases |answers| - n
  {
    if n < |answers| {
      assert answers[..n + 1][..n] == answers[..n];
      FragsOfPrefixError(kind, answers, n + 1);
    } else {
      assert answers[..n] == answers;
    }
  }

  /** The filings of matches, adds, removes and notifies answers, in that order; the first that cannot be filed throws. */
  function FilingsOfAnswers(a1: seq<Bindings>, a2: seq<Bindings>, a3: seq<Bindings>, a4: seq<Bindings>): Result<seq<Filing>>
  {
    match FragsOf(Matches, a1)
    case Err(m) => Err(m)
    case Ok(f1) =>
      match FragsOf(Adds, a2)
      case Err(m) => Err(m)
      case Ok(f2) =>
        match FragsOf(Removes, a3)
        case Err(m) => Err(m)
        case Ok(f3) =>
          match FragsOf(Notifies, a4)
          case Err(m) => Err(m)
          case Ok(f4) => Ok(f1 + f2 + f3 + f4)
  }

  /** `Object.values` of the index that the four answer lists build. */
  function TriggersOfAnswers(a1: seq<Bindings>, a2: seq<Bindings>, a3: seq<Bindings>, a4: seq<Bindings>): Result<seq<Trigger>>
  {
    match FilingsOfAnswers(a1, a2, a3, a4)
    case Err(m) => Err(m)
    case Ok(fs) =>
      FileAllNames(EmptyIndex, fs);
      Ok(Values(FileAll(EmptyIndex, fs)))
  }

  /** `getAllTriggers(storage)`: all four queries first, then the index of their filings. */
  function AllTriggersOf(data: Data, bound: nat): Result<seq<Trigger>>
  {
    match ReadEach(FragKinds, FragQuery(data, bound))
    case Err(m) => Err(m)
    case Ok(answers) => TriggersOfAnswers(answers[0], answers[1], answers[2], answers[3])
  }

  /**
   * Each trigger name appears once; every trigger that has a fragment
   * appears; and each trigger carries, in every component list, exactly
   * the fragments filed under its name for that list, in order — none
   * when there were none, so a trigger without `@matches` fragments has
   * empty `matches`.
   */
  lemma TriggersOfAnswersMeaning(a1: seq<Bindings>, a2: seq<Bindings>, a3: seq<Bindings>, a4: seq<Bindings>)
    requires TriggersOfAnswers(a1, a2, a3, a4).Ok?
    ensures var fs := FilingsOfAnswers(a1, a2, a3, a4).value;
      var ts := TriggersOfAnswers(a1, a2, a3, a4).value;
      && (forall i, j :: 0 <= i < j < |ts| ==> ts[i].name != ts[j].name)
      && (forall f :: f in fs ==> exists i :: 0 <= i < |ts| && ts[i].name == f.name)
      && (forall i, k :: 0 <= i < |ts| ==> Component(ts[i].components, k) == Under(fs, ts[i].name, k))
  {
    var fs := FilingsOfAnswers(a1, a2, a3, a4).value;
    IndexedTriggers(fs);
  }

  lemma IndexedTriggers(fs: seq<Filing>)
    ensures Triggers.WellFormed(FileAll(EmptyIndex, fs))
    ensures var ts := Values(FileAll(EmptyIndex, fs));
      && (forall i, j :: 0 <= i < j < |ts| ==> ts[i].name != ts[j].name)
      && (forall f :: f in fs ==> exists i :: 0 <= i < |ts| && ts[i].name == f.name)
      && (forall i, k :: 0 <= i < |ts| ==> Component(ts[i].components, k) == Under(fs, ts[i].name, k))
  {
    var ix := FileAll(EmptyIndex, fs);
    FileAllNames(EmptyIndex, fs);
    ValuesDistinct(ix);
    var ts := Values(ix);
    forall f | f in fs
      ensures exists i :: 0 <= i < |ts| && ts[i].name == f.name
    {
      var j :| 0 <= j < |fs| && fs[j] == f;
      assert f.name in NamesOf(fs);
      var i :| 0 <= i < |ix.names| && ix.names[i] == f.name;
      assert ts[i] == ix.triggers[f.name];
    }
    forall i, k | 0 <= i < |ts|
      ensures Component(ts[i].components, k) == Under(fs, ts[i].name, k)
    {
      var n := ix.names[i];
      assert ts[i] == ix.triggers[n];
      FileAllComponents(EmptyIndex, fs, n, k);
      assert ComponentsOf(EmptyIndex, n, k) == [];
      assert [] + Under(fs, n, k) == Under(fs, n, k);
    }
  }

  /** The `forEach` over one query's answers, calling `indexTriggerFrag` for each. */
  method IndexFrags(index: TriggerIndex, kind: Kind, answers: seq<Bindings>) returns (failure: Option<string>)
    modifies index
    ensures failure.None? <==> FragsOf(kind, answers).Ok?
    ensures failure.Some? ==> failure.value == FragsOf(kind, answers).msg
    ensures failure.None? ==> index.Snapshot() == FileAll(old(index.Snapshot()), FragsOf(kind, answers).value)
  {
    ghost var start := index.Snapshot();
    var variable := FragVariable(kind);
    for i := 0 to |answers|
      invariant FragsOf(kind, answers[..i]).Ok?
      invariant index.Snapshot() == FileAll(start, FragsOf(kind, answers[..i]).value)
    {
      var b := answers[i];
      assert answers[..i + 1][..i] == answers[..i];
      if "$trigger" !in b || variable !in b {
        FragsOfPrefixError(kind, answers, i + 1);
        return Some(Conjunction.UndefinedKey);
      }
      ghost var fs := FragsOf(kind, answers[..i]).value;
      ghost var f := Filing(Key(b["$trigger"]), kind, b[variable]);
      Snoc(fs, f);
      assert FileAll(start, fs + [f]) == Filed(FileAll(start, fs), f);
      index.IndexTriggerFrag(b["$trigger"], kind, b[variable]);
    }
    assert answers[..|answers|] == answers;
    return None;
  }

  /** The four `forEach` loops of `getAllTriggers` over a fresh index, and `Object.values` of it. */
  method IndexAnswers(a1: seq<Bindings>, a2: seq<Bindings>, a3: seq<Bindings>, a4: seq<Bindings>) returns (r: Result<seq<Trigger>>)
    ensures r == TriggersOfAnswers(a1, a2, a3, a4)
  {
    var index := new TriggerIndex();
    var failure := IndexFrags(index, Matches, a1);
    if failure.Some? {
      return Err(failure.value);
    }
    ghost var f1 := FragsOf(Matches, a1).value;
    failure := IndexFrags(index, Adds, a2);
    if failure.Some? {
      return Err(failure.value);
    }
    ghost var f2 := FragsOf(Adds, a2).value;
    FileAllAppend(EmptyIndex, f1, f2);
    failure := IndexFrags(index, Removes, a3);
    if failure.Some? {
      return Err(failure.value);
    }
    ghost var f3 := FragsOf(Removes, a3).value;
    FileAllAppend(EmptyIndex, f1 + f2, f3);
    failure := IndexFrags(index, Notifies, a4);
    if failure.Some? {
      return Err(failure.value);
    }
    ghost var f4 := FragsOf(Notifies, a4).value;
    FileAllAppend(EmptyIndex, f1 + f2 + f3, f4);
    assert index.Snapshot() == FileAll(EmptyIndex, f1 + f2 + f3 + f4);
    FileAllNames(EmptyIndex, f1 + f2 + f3 + f4);
    r := Ok(Values(index.Snapshot()));
  }

  /** `Promise.all([match, add, remove, notify].map((c) => matchRules(storage, c)))`, run one query after the other. */
  method QueryFrags(store: Storage, bound: nat) returns (r: Result<seq<seq<Bindings>>>)
    ensures r == ReadEach(FragKinds, FragQuery(store.data, bound))
  {
    ghost var q := FragQuery(store.data, bound);
    var answers: seq<seq<Bindings>> := [];
    for i := 0 to |FragKinds|
      invariant ReadEach(FragKinds[..i], q) == Ok(answers)
    {
      var a := Rules.MatchConcepts(store, [FragRule(FragKinds[i])], false, bound);
      if a.Err? {
        ReadEachFirstError(FragKinds, q, i);
        return Err(a.msg);
      }
      ReadEachStep(FragKinds, q, i);
      answers := answers + [a.value];
    }
    assert FragKinds[..|FragKinds|] == FragKinds;
    return Ok(answers);
  }

  /** `getAllTriggers(storage)`. */
  method GetAllTriggers(store: Storage, bound: nat) returns (r: Result<seq<Trigger>>)
    ensures r == AllTriggersOf(store.data, bound)
  {
    var answers := QueryFrags(store, bound);
    if answers.Err? {
      return Err(answers.msg);
    }
    var frags := answers.value;
    r := IndexAnswers(frags[0], frags[1], frags[2], frags[3]);
  }

  // findTriggerMatches.

  /** Each answer of a query as a trigger match of `t`, its bindings as they are. */
  function Tagged(t: Trigger, answers: seq<Bindings>): (r: seq<TriggerMatch>)
    ensures |r| == |answers|
    ensures forall i :: 0 <= i < |answers| ==> r[i] == TriggerMatch(t, answers[i])
  {
    seq(|answers|, i requires 0 <= i < |answers| => TriggerMatch(t, answers[i]))
  }

  /** `matchRules(storage, interpolateToConcepts(partial.rules, partial.variables))`. */
  function Completion(data: Data, p: Partial, bound: nat): Result<seq<Bindings>>
  {
    match Rules.Fill(p.rules, p.variables)
    case Err(m) => Err(m)
    case Ok(rules) => Rules.MatchConceptsOf(data, rules, false, bound)
  }

  function Completer(data: Data, bound: nat): Partial -> Result<seq<TriggerMatch>>
  {
    (p: Partial) =>
      match Completion(data, p, bound)
      case Err(m) => Err(m)
      case Ok(answers) => Ok(Tagged(p.trigger, answers))
  }

  /** `findTriggerMatches(storage, concepts, triggers)`, with `extractTriggerMatches` merging as `pass` says. */
  function TriggerMatchesOf(data: Data, concepts: seq<Concept>, triggers: seq<Trigger>,
                            same: (Concept, Concept) -> bool, pass: Pass, bound: nat): Result<seq<TriggerMatch>>
  {
    if |concepts| == 0 then Ok([])
    else
      var (matches, partials) := Extracted(triggers, concepts, same, pass);
      match FlatMap(partials, Completer(data, bound))
      case Err(m) => Err(m)
      case Ok(more) => Ok(matches + more)
  }

  /**
   * The full matches come first, as `extractTriggerMatches` found them; each
   * match after them is one answer of a partial's completion, carrying that
   * answer's bindings alone and the partial's trigger.
   */
  lemma TriggerMatchesMeaning(data: Data, concepts: seq<Concept>, triggers: seq<Trigger>,
                              same: (Concept, Concept) -> bool, pass: Pass, bound: nat, m: TriggerMatch)
    requires |concepts| > 0
    requires TriggerMatchesOf(data, concepts, triggers, same, pass, bound).Ok?
    ensures var r := TriggerMatchesOf(data, concepts, triggers, same, pass, bound).value;
      var (matches, partials) := Extracted(triggers, concepts, same, pass);
      && matches <= r
      && (m in r[|matches|..] <==>
          exists i, b :: 0 <= i < |partials| && Completion(data, partials[i], bound).Ok?
            && b in Completion(data, partials[i], bound).value && m == TriggerMatch(partials[i].trigger, b))
  {
    var (matches, partials) := Extracted(triggers, concepts, same, pass);
    var f := Completer(data, bound);
    var more := FlatMap(partials, f).value;
    assert (matches + more)[|matches|..] == more;
    FlatMapFacts(partials, f);
    forall i | 0 <= i < |partials| && Completion(data, partials[i], bound).Ok?
      ensures m in f(partials[i]).value <==> exists b :: b in Completion(data, partials[i], bound).value && m == TriggerMatch(partials[i].trigger, b)
    {
      TaggedMember(partials[i].trigger, Completion(data, partials[i], bound).value, m);
    }
  }

  lemma TaggedMember(t: Trigger, answers: seq<Bindings>, m: TriggerMatch)
    ensures m in Tagged(t, answers) <==> exists b :: b in answers && m == TriggerMatch(t, b)
  {
    if m in Tagged(t, answers) {
      var j :| 0 <= j < |answers| && Tagged(t, answers)[j] == m;
      assert answers[j] in answers;
    }
    if exists b :: b in answers && m == TriggerMatch(t, b) {
      var b :| b in answers && m == TriggerMatch(t, b);
      var j :| 0 <= j < |answers| && answers[j] == b;
      assert Tagged(t, answers)[j] == m;
    }
  }

  /** The loop over the answers of one partial's completion. */
  method Complete(store: Storage, p: Partial, bound: nat) returns (r: Result<seq<TriggerMatch>>)
    ensures r == Completer(store.data, bound)(p)
  {
    var filled := Rules.Fill(p.rules, p.variables);
    if filled.Err? {
      return Err(filled.msg);
    }
    var ruleMatches := Rules.MatchConcepts(store, filled.value, false, bound);
    if ruleMatches.Err? {
      return Err(ruleMatches.msg);
    }
    var found: seq<TriggerMatch> := [];
    for k := 0 to |ruleMatches.value|
      invariant found == Tagged(p.trigger, ruleMatches.value[..k])
    {
      found := found + [TriggerMatch(p.trigger, ruleMatches.value[k])];
    }
    assert ruleMatches.value[..|ruleMatches.value|] == ruleMatches.value;
    r := Ok(found);
  }

  /** `findTriggerMatches(storage, concepts, triggers)`. */
  method FindTriggerMatches(store: Storage, concepts: seq<Concept>, triggers: seq<Trigger>,
                            same: (Concept, Concept) -> bool, pass: Pass, bound: nat)
    returns (r: Result<seq<TriggerMatch>>)
    ensures r == TriggerMatchesOf(store.data, concepts, triggers, same, pass, bound)
  {
    if |concepts| == 0 {
      return Ok([]);
    }
    var matches, partials := ExtractTriggerMatches(triggers, concepts, same, pass);
    ghost var f := Completer(store.data, bound);
    var matchesFromPartials: seq<TriggerMatch> := [];
    for i := 0 to |partials|
      invariant FlatMap(partials[..i], f) == Ok(matchesFromPartials)
    {
      FlatMapStep(partials, f, i);
      var completed := Complete(store, partials[i], bound);
      if completed.Err? {
        FlatMapFirstError(partials, f, i);
        return Err(completed.msg);
      }
      matchesFromPartials := matchesFromPartials + completed.value;
    }
    assert partials[..|partials|] == partials;
    r := Ok(matches + matchesFromPartials);
  }
}
