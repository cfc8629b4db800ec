/**
 * What new concepts and new triggers set off. A new compound concept
 * fires each trigger whose clauses it satisfies, a new trigger fires on
 * what the store already holds, and the matches together decide which
 * concepts to add and remove and which URLs to notify.
 */
module Triggered {
  import opened Wrappers
  import opened Concepts
  import opened Matching
  import opened Store
  import opened Folds
  import opened Triggers
  import TriggerQueries
  import Rules
  import Additions
  import Removal
  import Conjunction

  /**
   * The store operations a trigger run calls: `matchConcepts(storage,
   * rules)`, `interpolateToConcepts`, `addConcepts`, `removeConcepts` and
   * `getAllTriggers`, each a function of the store's contents.
   */
  datatype Engine = Engine(
    answer: (Data, seq<Concept>) -> Result<seq<Bindings>>,
    fill: (seq<Concept>, Bindings) -> Result<seq<Concept>>,
    add: (Data, seq<Concept>) -> Additions.Outcome,
    remove: (Data, seq<Concept>) -> Removal.Removed,
    load: Data -> Result<seq<Trigger>>)

  /** The operations of the store, with `bound` as the depth bound of rule matching and removal. */
  function StoreEngine(bound: nat): Engine
  {
    Engine(
      (d: Data, rules: seq<Concept>) => Rules.MatchConceptsOf(d, rules, false, bound),
      Rules.Fill,
      Additions.AddOutcome,
      (d: Data, cs: seq<Concept>) => Removal.RemoveOutcome(d, cs, bound),
      (d: Data) => TriggerQueries.AllTriggersOf(d, bound))
  }

  // findTriggerMatchesForConcept.

  /** The index of the first clause `concept` matches, or the number of clauses when it matches none. */
  function FirstMatch(concept: Concept, rules: seq<Concept>): (i: nat)
    ensures i <= |rules|
    ensures i < |rules| ==> Match(concept, rules[i]).Some?
    ensures forall j :: 0 <= j < i ==> Match(concept, rules[j]).None?
  {
    if |rules| == 0 then 0
    else if Match(concept, rules[0]).Some? then 0
    else
      var i := 1 + FirstMatch(concept, rules[1..]);
      assert forall j :: 1 <= j < i ==> rules[j] == rules[1..][j - 1];
      i
  }

  /** `[...rules.slice(0, i), ...rules.slice(i + 1)]`. */
  function AllBut(rules: seq<Concept>, i: nat): (r: seq<Concept>)
    requires i < |rules|
    ensures |r| == |rules| - 1
    ensures forall j :: 0 <= j < i ==> r[j] == rules[j]
    ensures forall j :: i <= j < |r| ==> r[j] == rules[j + 1]
  {
    rules[..i] + rules[i + 1..]
  }

  /** `{trigger, variables: {...variables, ...restVariables}}` for each answer: the answer's bindings win. */
  function Extended(t: Trigger, variables: Bindings, answers: seq<Bindings>): (r: seq<TriggerMatch>)
    ensures |r| == |answers|
    ensures forall i :: 0 <= i < |answers| ==> r[i] == TriggerMatch(t, variables + answers[i])
  {
    seq(|answers|, i requires 0 <= i < |answers| => TriggerMatch(t, variables + answers[i]))
  }

  /**
   * The matches of one trigger for a new concept: its first clause the
   * concept matches decides; a one-clause trigger fires on its own, any
   * other completes the remaining clauses against the store.
   */
  function TriggerFires(e: Engine, data: Data, concept: Concept, t: Trigger): Result<seq<TriggerMatch>>
  {
    var rules := t.components.matches;
    var i := FirstMatch(concept, rules);
    if i == |rules| then Ok([])
    else
      var variables := Match(concept, rules[i]).value;
      if |rules| == 1 then Ok([TriggerMatch(t, variables)])
      else Completion(e, data, t, variables, AllBut(rules, i))
  }

  /** The other clauses filled in with the bindings, answered against the store, each answer extending the bindings. */
  function Completion(e: Engine, data: Data, t: Trigger, variables: Bindings, others: seq<Concept>): Result<seq<TriggerMatch>>
  {
    match e.fill(others, variables)
    case Err(m) => Err(m)
    case Ok(restRules) =>
      match e.answer(data, restRules)
      case Err(m) => Err(m)
      case Ok(restMatches) => Ok(Extended(t, variables, restMatches))
  }

  function Fires(e: Engine, data: Data, concept: Concept): Trigger -> Result<seq<TriggerMatch>>
  {
    (t: Trigger) => TriggerFires(e, data, concept, t)
  }

  /** `findTriggerMatchesForConcept({storage, concept, triggers})`. */
  function ForConcept(e: Engine, data: Data, concept: Concept, triggers: seq<Trigger>): Result<seq<TriggerMatch>>
  {
    if IsAtom(concept) then Ok([]) else FlatMap(triggers, Fires(e, data, concept))
  }

  /**
   * A trigger fires for a concept only through the first clause the
   * concept matches: that clause's bindings, overridden by those of an
   * answer for the other clauses, filled in with those bindings.
   */
  lemma TriggerFiresMeaning(e: Engine, data: Data, concept: Concept, t: Trigger, m: TriggerMatch)
    requires TriggerFires(e, data, concept, t).Ok? && m in TriggerFires(e, data, concept, t).value
    ensures var rules := t.components.matches;
      var i := FirstMatch(concept, rules);
      && i < |rules| && m.trigger == t
      && (forall j :: 0 <= j < i ==> Match(concept, rules[j]).None?)
      && (|rules| == 1 ==> m.variables == Match(concept, rules[i]).value)
      && (|rules| > 1 ==> exists b ::
            e.fill(AllBut(rules, i), Match(concept, rules[i]).value).Ok?
            && e.answer(data, e.fill(AllBut(rules, i), Match(concept, rules[i]).value).value).Ok?
            && b in e.answer(data, e.fill(AllBut(rules, i), Match(concept, rules[i]).value).value).value
            && m.variables == Match(concept, rules[i]).value + b)
  {
    var rules := t.components.matches;
    var i := FirstMatch(concept, rules);
    if |rules| > 1 {
      var variables := Match(concept, rules[i]).value;
      var answers := e.answer(data, e.fill(AllBut(rules, i), variables).value).value;
      var k :| 0 <= k < |answers| && Extended(t, variables, answers)[k] == m;
      assert answers[k] in answers;
    }
  }

  /** An atom fires nothing; a compound fires exactly what each trigger contributes. */
  lemma ForConceptMeaning(e: Engine, data: Data, concept: Concept, triggers: seq<Trigger>)
    ensures IsAtom(concept) ==> ForConcept(e, data, concept, triggers) == Ok([])
    ensures !IsAtom(concept) ==>
      (ForConcept(e, data, concept, triggers).Ok? <==> forall i :: 0 <= i < |triggers| ==> TriggerFires(e, data, concept, triggers[i]).Ok?)
    ensures !IsAtom(concept) && ForConcept(e, data, concept, triggers).Ok? ==>
      forall m :: m in ForConcept(e, data, concept, triggers).value <==>
        exists i :: 0 <= i < |triggers| && TriggerFires(e, data, concept, triggers[i]).Ok? && m in TriggerFires(e, data, concept, triggers[i]).value
  {
    FlatMapFacts(triggers, Fires(e, data, concept));
  }

  /** The rule loop up to the first clause the concept matches, with that clause's bindings. */
  method FirstMatching(concept: Concept, rules: seq<Concept>) returns (i: nat, variables: Option<Bindings>)
    ensures i == FirstMatch(concept, rules)
    ensures i < |rules| ==> variables == Match(concept, rules[i])
  {
    i := 0;
    while i < |rules|
      invariant 0 <= i <= |rules|
      invariant forall j :: 0 <= j < i ==> Match(concept, rules[j]).None?
    {
      variables := MatchPattern(concept, rules[i]);
      if variables.Some? {
        return;
      }
      i := i + 1;
    }
    variables := None;
  }

  /** The store's operations, applied. */
  lemma StoreEngineApplied(bound: nat, data: Data, rules: seq<Concept>, b: Bindings)
    ensures StoreEngine(bound).fill(rules, b) == Rules.Fill(rules, b)
    ensures StoreEngine(bound).answer(data, rules) == Rules.MatchConceptsOf(data, rules, false, bound)
  {
  }

  /** The rule loop for one trigger. */
  method FiresFor(store: Storage, concept: Concept, t: Trigger, bound: nat) returns (r: Result<seq<TriggerMatch>>)
    ensures r == TriggerFires(StoreEngine(bound), store.data, concept, t)
  {
    var rules := t.components.matches;
    var i, variables := FirstMatching(concept, rules);
    if i == |rules| {
      return Ok([]);
    }
    if |rules| == 1 {
      return Ok([TriggerMatch(t, variables.value)]);
    }
    r := Complete(store, t, variables.value, AllBut(rules, i), bound);
  }

  /** `interpolateToConcepts` of the other clauses, then `matchConcepts` of what it gives. */
  method Complete(store: Storage, t: Trigger, variables: Bindings, others: seq<Concept>, bound: nat)
    returns (r: Result<seq<TriggerMatch>>)
    ensures r == Completion(StoreEngine(bound), store.data, t, variables, others)
  {
    var filled := Rules.Fill(others, variables);
    StoreEngineApplied(bound, store.data, others, variables);
    if filled.Err? {
      return Err(filled.msg);
    }
    var restMatches := Rules.MatchConcepts(store, filled.value, false, bound);
    StoreEngineApplied(bound, store.data, filled.value, variables);
    if restMatches.Err? {
      return Err(restMatches.msg);
    }
    return Ok(Extended(t, variables, restMatches.value));
  }

  /** `findTriggerMatchesForConcept`. */
  method FindTriggerMatchesForConcept(store: Storage, concept: Concept, triggers: seq<Trigger>, bound: nat)
    returns (r: Result<seq<TriggerMatch>>)
    ensures r == ForConcept(StoreEngine(bound), store.data, concept, triggers)
  {
    if IsAtom(concept) {
      return Ok([]);
    }
    ghost var f := Fires(StoreEngine(bound), store.data, concept);
    var triggerMatches: seq<TriggerMatch> := [];
    for i := 0 to |triggers|
      invariant FlatMap(triggers[..i], f) == Ok(triggerMatches)
    {
      FlatMapStep(triggers, f, i);
      var fired := FiresFor(store, concept, triggers[i], bound);
      if fired.Err? {
        FlatMapFirstError(triggers, f, i);
        return Err(fired.msg);
      }
      triggerMatches := triggerMatches + fired.value;
    }
    assert triggers[..|triggers|] == triggers;
    r := Ok(triggerMatches);
  }

  // findTriggerMatchesForTrigger.

  /** `Object.values(match.variables).every((c) => !isVariable(c))`. */
  predicate Ground(m: TriggerMatch)
  {
    Conjunction.HasNoVariables(m.variables)
  }

  /** `findTriggerMatchesForTrigger({storage, trigger})`: the answers to all its clauses, those binding a variable dropped. */
  function ForTrigger(e: Engine, data: Data, t: Trigger): Result<seq<TriggerMatch>>
  {
    match e.answer(data, t.components.matches)
    case Err(m) => Err(m)
    case Ok(ruleMatches) => Ok(Keep(TriggerQueries.Tagged(t, ruleMatches), Ground))
  }

  /** `findTriggerMatchesForTrigger`. */
  method FindTriggerMatchesForTrigger(store: Storage, t: Trigger, bound: nat) returns (r: Result<seq<TriggerMatch>>)
    ensures r == ForTrigger(StoreEngine(bound), store.data, t)
  {
    var ruleMatches := Rules.MatchConcepts(store, t.components.matches, false, bound);
    if ruleMatches.Err? {
      return Err(ruleMatches.msg);
    }
    r := Ok(Keep(TriggerQueries.Tagged(t, ruleMatches.value), Ground));
  }

  /**
   * Against the store the filter drops nothing: `matchConcepts` without
   * `includeVariables` never answers with a variable, so a new trigger
   * fires once per answer to its clauses.
   */
  lemma ForTriggerKeepsAll(data: Data, t: Trigger, bound: nat)
    requires Rules.MatchConceptsOf(data, t.components.matches, false, bound).Ok?
    ensures ForTrigger(StoreEngine(bound), data, t)
      == Ok(TriggerQueries.Tagged(t, Rules.MatchConceptsOf(data, t.components.matches, false, bound).value))
  {
    var answers := Rules.MatchConceptsOf(data, t.components.matches, false, bound).value;
    var ms := TriggerQueries.Tagged(t, answers);
    forall m | m in ms
      ensures Ground(m)
    {
      var k :| 0 <= k < |ms| && ms[k] == m;
      Conjunction.NoVariableValues(Rules.RuleOps(data), t.components.matches, bound, answers[k]);
    }
    KeepAll(ms, Ground);
  }

  // getTriggeredChanges.

  datatype Notification = Notification(url: string, trigger: Trigger, variables: Bindings)

  /** A `TriggeredChangesDict`. */
  datatype Changes = Changes(toAdd: seq<Concept>, toRemove: seq<Concept>, notifications: seq<Notification>)

  const NoChanges := Changes([], [], [])

  /** `interpolateToConcepts(trigger.components[kind], variables)`. */
  function Instantiate(e: Engine, kind: Kind): TriggerMatch -> Result<seq<Concept>>
  {
    (m: TriggerMatch) => e.fill(Component(m.trigger.components, kind), m.variables)
  }

  /** One notification per URL concept of the match's trigger, each with the match's trigger and bindings. */
  function Notices(m: TriggerMatch): (r: seq<Notification>)
    ensures |r| == |m.trigger.components.notifies|
    ensures forall j :: 0 <= j < |r| ==> r[j] == Notification(Text(m.trigger.components.notifies[j]), m.trigger, m.variables)
  {
    var urls := m.trigger.components.notifies;
    seq(|urls|, j requires 0 <= j < |urls| => Notification(Text(urls[j]), m.trigger, m.variables))
  }

  /** `allTriggerMatches.flatMap(...)` of the notifications. */
  function AllNotices(ms: seq<TriggerMatch>): seq<Notification>
  {
    if |ms| == 0 then [] else Notices(ms[0]) + AllNotices(ms[1..])
  }

  /**
   * `getTriggeredChanges(allTriggerMatches)`: the instantiated adds, then
   * the instantiated removes, each without repeated keys, and the
   * notifications.
   */
  function TriggeredChanges(e: Engine, ms: seq<TriggerMatch>): Result<Changes>
  {
    match FlatMap(ms, Instantiate(e, Adds))
    case Err(m) => Err(m)
    case Ok(adds) =>
      match FlatMap(ms, Instantiate(e, Removes))
      case Err(m) => Err(m)
      case Ok(removes) => Ok(Changes(UniqueByKey(adds), UniqueByKey(removes), AllNotices(ms)))
  }

  /** `c` is among what the match's `kind` list instantiates to. */
  predicate InstanceOf(e: Engine, m: TriggerMatch, kind: Kind, c: Concept)
  {
    Instantiate(e, kind)(m).Ok? && c in Instantiate(e, kind)(m).value
  }

  /**
   * The concepts to add have distinct keys, one for each key some match's
   * `adds` instantiates to, and each is such an instance; likewise for the
   * concepts to remove.
   */
  lemma TriggeredChangesMeaning(e: Engine, ms: seq<TriggerMatch>)
    requires TriggeredChanges(e, ms).Ok?
    ensures var ch := TriggeredChanges(e, ms).value;
      var adds := FlatMap(ms, Instantiate(e, Adds)).value;
      var removes := FlatMap(ms, Instantiate(e, Removes)).value;
      && DistinctKeys(ch.toAdd) && KeySet(ch.toAdd) == KeySet(adds)
      && DistinctKeys(ch.toRemove) && KeySet(ch.toRemove) == KeySet(removes)
      && (forall c :: c in ch.toAdd ==> exists i :: 0 <= i < |ms| && InstanceOf(e, ms[i], Adds, c))
      && (forall c :: c in ch.toRemove ==> exists i :: 0 <= i < |ms| && InstanceOf(e, ms[i], Removes, c))
  {
    var adds := FlatMap(ms, Instantiate(e, Adds)).value;
    var removes := FlatMap(ms, Instantiate(e, Removes)).value;
    UniqueByKeyFacts(adds);
    UniqueByKeyFacts(removes);
    FlatMapFacts(ms, Instantiate(e, Adds));
    FlatMapFacts(ms, Instantiate(e, Removes));
  }

  /** Every instance of every match's `adds` is kept, under its key. */
  lemma TriggeredAddsComplete(e: Engine, ms: seq<TriggerMatch>, i: nat, c: Concept)
    requires TriggeredChanges(e, ms).Ok?
    requires i < |ms| && InstanceOf(e, ms[i], Adds, c)
    ensures Key(c) in KeySet(TriggeredChanges(e, ms).value.toAdd)
  {
    var adds := FlatMap(ms, Instantiate(e, Adds)).value;
    UniqueByKeyFacts(adds);
    FlatMapFacts(ms, Instantiate(e, Adds));
    assert c in adds;
    var j :| 0 <= j < |adds| && adds[j] == c;
    assert Key(adds[j]) in KeySet(adds);
  }

  /** `n` is the notification for the `j`-th URL concept of the match's trigger. */
  predicate NoticeOf(m: TriggerMatch, j: int, n: Notification)
  {
    0 <= j < |m.trigger.components.notifies|
    && n == Notification(Text(m.trigger.components.notifies[j]), m.trigger, m.variables)
  }

  /** A notification is sent exactly for each pair of a match and one of its trigger's URL concepts, with that concept's text as URL. */
  lemma {:induction false} AllNoticesMeaning(ms: seq<TriggerMatch>, n: Notification)
    ensures n in AllNotices(ms) <==> exists i, j :: 0 <= i < |ms| && NoticeOf(ms[i], j, n)
  {
    if |ms| > 0 {
      var rest := ms[1..];
      AllNoticesMeaning(rest, n);
      if n in Notices(ms[0]) {
        var j :| 0 <= j < |Notices(ms[0])| && Notices(ms[0])[j] == n;
        assert NoticeOf(ms[0], j, n);
      } else if n in AllNotices(rest) {
        var i, j :| 0 <= i < |rest| && NoticeOf(rest[i], j, n);
        assert rest[i] == ms[i + 1];
      }
      if exists i, j :: 0 <= i < |ms| && NoticeOf(ms[i], j, n) {
        var i, j :| 0 <= i < |ms| && NoticeOf(ms[i], j, n);
        if i == 0 {
          assert Notices(ms[0])[j] == n;
        } else {
          assert rest[i - 1] == ms[i];
        }
      }
    }
  }

  /** There is one notification per pair of a match and a URL concept of its trigger. */
  function NoticeCount(ms: seq<TriggerMatch>): nat
  {
    if |ms| == 0 then 0 else |ms[0].trigger.components.notifies| + NoticeCount(ms[1..])
  }

  lemma {:induction false} AllNoticesCount(ms: seq<TriggerMatch>)
    ensures |AllNotices(ms)| == NoticeCount(ms)
  {
    if |ms| > 0 {
      AllNoticesCount(ms[1..]);
    }
  }

  /**
   * `getConceptText`: a compound's text is its key; an atom's text is its
   * key without a leading `<<` and a trailing `>>`, so a string literal
   * gives its contents and a key without the markers is kept.
   */
  lemma TextMeaning(c: Concept)
    ensures !IsAtom(c) ==> Text(c) == Key(c)
    ensures IsAtom(c) && IsStringLiteral(Key(c)) ==> Text(c) == Key(c)[2..|Key(c)| - 2]
    ensures IsAtom(c) && !Strings.HasPrefix(Key(c), "<<") && !Strings.HasSuffix(Key(c), ">>") ==> Text(c) == Key(c)
  {
    StripDelimitersShape(Key(c));
  }

  /** The URL concept `<<http://localhost>>` notifies `http://localhost`. */
  lemma LocalhostUrl()
    ensures Text(Atom("<<http://localhost>>")) == "http://localhost"
  {
    var k := "<<http://localhost>>";
    assert Strings.HasPrefix(k, "<<");
    assert k[2..] == "http://localhost>>";
    assert Strings.HasSuffix(k[2..], ">>");
    assert k[2..][..|k[2..]| - 2] == "http://localhost";
  }
}
