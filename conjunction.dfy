/**
 * The search of `matchConcepts` (apps/api/src/apis/space/queries/matchRules.ts).
 *
 * A conjunction of rules is answered by checking that its ground rules are
 * stored, grouping the rest by mask, starting from the most matched mask,
 * reading every `mask/match:` key stored under it, and solving the remaining
 * rules once the head rule's variables are bound. The module is written over
 * the operations the search calls (`Ops`), so that the shape of the search
 * can be reasoned about apart from the parser, the masks and the store; the
 * module `Rules` supplies the real operations.
 */
module Conjunction {
  import opened Wrappers
  import opened Concepts
  import opened Folds

  type Bindings = map<string, Concept>

  /** The operations the search calls. */
  datatype Ops = Ops(
    /** `parseConcept`. */
    reparse: string -> Result<Concept>,
    /** `findAll`: the stored concepts among those given. */
    find: seq<Concept> -> Result<seq<Concept>>,
    /** `createMask`. */
    mask: Concept -> Concept,
    /** `getMaskMatchCount`. */
    count: Concept -> int,
    /** The `mask/match:` keys stored under a mask, in listing order. */
    matchKeys: Concept -> seq<string>,
    /** `Object.entries(parseMatchKey(key))`: mask variable and value, in order. */
    decode: string -> Result<seq<(string, Concept)>>,
    /** `interpolateToConcepts`. */
    interpolate: (seq<Concept>, Bindings) -> Result<seq<Concept>>,
    /** `matchVariables(concept, pattern)`. */
    unify: (Concept, Concept) -> Option<Bindings>)

  const DepthExceeded := "Rule matching exceeds the depth bound"
  const NoHeadVariables := "Could not extract variables from head rule"
  /** The `TypeError` of `headMaskVarDict[key].key` for a name the head mask does not bind. */
  const UndefinedKey := "Cannot read properties of undefined (reading 'key')"
  /** The `TypeError` of `matchVariables(undefined, …)` when no rule is left to head the search. */
  const UndefinedParts := "Cannot read properties of undefined (reading 'parts')"

  // Uniquifying the rules.

  /** `Array.from(new Set(keys))`: each key once, where it first appears. */
  function UniqueKeys(ks: seq<string>): seq<string>
    decreases |ks|
  {
    if |ks| == 0 then [] else AddKey(UniqueKeys(ks[..|ks| - 1]), ks[|ks| - 1])
  }

  /** The uniquified keys are the same keys, each once. */
  lemma {:induction false} UniqueKeysFacts(ks: seq<string>)
    ensures forall k :: k in UniqueKeys(ks) <==> k in ks
    ensures forall i, j :: 0 <= i < j < |UniqueKeys(ks)| ==> UniqueKeys(ks)[i] != UniqueKeys(ks)[j]
    decreases |ks|
  {
    if |ks| > 0 {
      var init := ks[..|ks| - 1];
      assert ks == init + [ks[|ks| - 1]];
      UniqueKeysFacts(init);
    }
  }

  /** `set.add(k)` on the keys in insertion order. */
  function AddKey(u: seq<string>, k: string): seq<string>
  {
    if k in u then u else u + [k]
  }

  /** A key that repeats an earlier one changes nothing. */
  lemma {:induction false} UniqueKeysRepeat(a: seq<string>, x: string, b: seq<string>)
    requires x in a
    ensures UniqueKeys(a + [x] + b) == UniqueKeys(a + b)
    decreases |b|
  {
    if |b| == 0 {
      assert a + [x] + b == a + [x] && a + b == a;
      assert (a + [x])[..|a|] == a;
      UniqueKeysFacts(a);
    } else {
      var init, y := b[..|b| - 1], b[|b| - 1];
      assert (a + [x] + b)[..|a| + 1 + |init|] == a + [x] + init;
      assert (a + b)[..|a| + |init|] == a + init;
      UniqueKeysRepeat(a, x, init);
    }
  }

  // The ground rules.

  predicate IsGround(c: Concept)
  {
    !IsPattern(c)
  }

  /** `rules.filter(anti(isPattern))`. */
  function Grounds(rs: seq<Concept>): (r: seq<Concept>)
    ensures forall x :: x in r <==> x in rs && IsGround(x)
  {
    Keep(rs, IsGround)
  }

  /** `rules.filter((c) => !existingKeys.has(c.key))`. */
  function Unfound(rs: seq<Concept>, existing: seq<Concept>): (r: seq<Concept>)
    ensures forall x :: x in r <==> x in rs && Key(x) !in KeySet(existing)
  {
    Keep(rs, (c: Concept) => Key(c) !in KeySet(existing))
  }

  /**
   * The rules left to match: `None` when a ground rule is missing from the
   * store (no answer at all), otherwise the rules that are not stored.
   */
  function Remaining(ops: Ops, rs: seq<Concept>): Result<Option<seq<Concept>>>
  {
    var ground := Grounds(rs);
    if |ground| == 0 then Ok(Some(rs))
    else
      match ops.find(ground)
      case Err(m) => Err(m)
      case Ok(existing) =>
        if |existing| < |ground| then Ok(None) else Ok(Some(Unfound(rs, existing)))
  }

  // Grouping the rules by mask: `maskRuleDict`.

  /** The entries of a `Map` from mask key to rules, in insertion order. */
  type Groups = seq<(string, seq<Concept>)>

  function GroupKeys(gs: Groups): (r: seq<string>)
    ensures |r| == |gs| && forall i :: 0 <= i < |gs| ==> r[i] == gs[i].0
  {
    seq(|gs|, i requires 0 <= i < |gs| => gs[i].0)
  }

  /** Where the entry for `k` is, or `|gs|` when there is none. */
  function Position(gs: Groups, k: string): (r: nat)
    ensures r <= |gs|
    ensures r < |gs| ==> gs[r].0 == k
    ensures forall i :: 0 <= i < r ==> gs[i].0 != k
    decreases |gs|
  {
    if |gs| == 0 then 0
    else if gs[0].0 == k then 0
    else 1 + Position(gs[1..], k)
  }

  /** `maskRuleDict.get(k) || []`. */
  function Members(gs: Groups, k: string): seq<Concept>
  {
    var i := Position(gs, k);
    if i < |gs| then gs[i].1 else []
  }

  /** `entries.push(rule); maskRuleDict.set(k, entries)`. */
  function AddTo(gs: Groups, k: string, rule: Concept): Groups
  {
    var i := Position(gs, k);
    if i < |gs| then gs[i := (k, gs[i].1 + [rule])] else gs + [(k, [rule])]
  }

  /** `rules.forEach(…)`: every rule filed under the key of its mask. */
  function GroupBy(mask: Concept -> Concept, rules: seq<Concept>): Groups
    decreases |rules|
  {
    if |rules| == 0 then []
    else
      var last := rules[|rules| - 1];
      AddTo(GroupBy(mask, rules[..|rules| - 1]), Key(mask(last)), last)
  }

  /** What a grouping promises: one entry per key, no empty entry, each rule under its mask's key. */
  predicate Filed(mask: Concept -> Concept, gs: Groups)
  {
    (forall i, j :: 0 <= i < j < |gs| ==> gs[i].0 != gs[j].0)
    && (forall i :: 0 <= i < |gs| ==> |gs[i].1| > 0)
    && (forall i, r :: 0 <= i < |gs| && r in gs[i].1 ==> Key(mask(r)) == gs[i].0)
  }

  /** All entries' rules, in entry order. */
  function Flatten(gs: Groups): seq<Concept>
  {
    if |gs| == 0 then [] else gs[0].1 + Flatten(gs[1..])
  }

  lemma {:induction false} FlattenAppend(gs: Groups, e: (string, seq<Concept>))
    ensures multiset(Flatten(gs + [e])) == multiset(Flatten(gs)) + multiset(e.1)
    decreases |gs|
  {
    if |gs| == 0 {
      assert Flatten([e]) == e.1 + Flatten([]);
    } else {
      assert (gs + [e])[1..] == gs[1..] + [e];
      FlattenAppend(gs[1..], e);
    }
  }

  lemma {:induction false} FlattenSplit(gs: Groups, i: nat)
    requires i < |gs|
    ensures Flatten(gs) == Flatten(gs[..i]) + gs[i].1 + Flatten(gs[i + 1..])
    decreases |gs|
  {
    if i > 0 {
      FlattenSplit(gs[1..], i - 1);
      assert gs[1..][..i - 1] == gs[..i][1..];
      assert gs[1..][i - 1 + 1..] == gs[i + 1..];
    } else {
      assert Flatten(gs[..0]) == [];
    }
  }

  /**
   * The grouping files every rule exactly once, under the key of its mask,
   * with one entry per key in the order the keys first appear, and the
   * first rule heads the first entry.
   */
  lemma {:induction false} GroupByFacts(mask: Concept -> Concept, rules: seq<Concept>)
    ensures Filed(mask, GroupBy(mask, rules))
    ensures multiset(Flatten(GroupBy(mask, rules))) == multiset(rules)
    ensures |rules| > 0 ==> |GroupBy(mask, rules)| > 0 && GroupBy(mask, rules)[0].1[0] == rules[0]
    decreases |rules|
  {
    if |rules| > 0 {
      var n := |rules|;
      var init := rules[..n - 1];
      var last := rules[n - 1];
      assert rules == init + [last];
      GroupByFacts(mask, init);
      AddToFacts(mask, GroupBy(mask, init), last);
      if n > 1 {
        assert init[0] == rules[0];
      }
    }
  }

  /** Filing one more rule keeps the grouping's promises and adds just that rule. */
  lemma AddToFacts(mask: Concept -> Concept, gs: Groups, rule: Concept)
    requires Filed(mask, gs)
    ensures Filed(mask, AddTo(gs, Key(mask(rule)), rule))
    ensures multiset(Flatten(AddTo(gs, Key(mask(rule)), rule))) == multiset(Flatten(gs)) + multiset{rule}
    ensures |AddTo(gs, Key(mask(rule)), rule)| > 0
    ensures |gs| > 0 ==> AddTo(gs, Key(mask(rule)), rule)[0].1[0] == gs[0].1[0]
  {
    AddToFiled(mask, gs, rule);
    AddToCount(gs, Key(mask(rule)), rule);
  }

  lemma AddToFiled(mask: Concept -> Concept, gs: Groups, rule: Concept)
    requires Filed(mask, gs)
    ensures Filed(mask, AddTo(gs, Key(mask(rule)), rule))
  {
    var k := Key(mask(rule));
    var i := Position(gs, k);
    var hs := AddTo(gs, k, rule);
    if i < |gs| {
      forall j, r | 0 <= j < |hs| && r in hs[j].1
        ensures Key(mask(r)) == hs[j].0
      {
        if j == i && r !in gs[i].1 {
          assert r == rule;
        }
      }
    }
  }

  lemma AddToCount(gs: Groups, k: string, rule: Concept)
    requires forall i :: 0 <= i < |gs| ==> |gs[i].1| > 0
    ensures multiset(Flatten(AddTo(gs, k, rule))) == multiset(Flatten(gs)) + multiset{rule}
    ensures |AddTo(gs, k, rule)| > 0
    ensures |gs| > 0 ==> AddTo(gs, k, rule)[0].1[0] == gs[0].1[0]
  {
    var i := Position(gs, k);
    var hs := AddTo(gs, k, rule);
    if i < |gs| {
      var e := (k, gs[i].1 + [rule]);
      assert hs == gs[i := e];
      FlattenSplit(gs, i);
      FlattenSplit(hs, i);
      assert hs[..i] == gs[..i] && hs[i + 1..] == gs[i + 1..];
      if i == 0 {
        assert hs[0].1[0] == gs[0].1[0];
      }
    } else {
      var e := (k, [rule]);
      assert hs == gs + [e];
      FlattenAppend(gs, e);
    }
  }

  // Ordering the masks: `masks.sort((a, b) => count[b] - count[a])`.

  /** Put `m` before the first mask with a count not above its own. */
  function Insert(m: Concept, s: seq<Concept>, count: Concept -> int): (r: seq<Concept>)
    ensures multiset(r) == multiset(s) + multiset{m}
    decreases |s|
  {
    if |s| == 0 then [m]
    else if count(s[0]) <= count(m) then [m] + s
    else
      assert s == [s[0]] + s[1..];
      [s[0]] + Insert(m, s[1..], count)
  }

  /** A stable sort on counts, highest first. */
  function SortByCount(ms: seq<Concept>, count: Concept -> int): (r: seq<Concept>)
    ensures multiset(r) == multiset(ms)
    decreases |ms|
  {
    if |ms| == 0 then []
    else
      assert ms == [ms[0]] + ms[1..];
      Insert(ms[0], SortByCount(ms[1..], count), count)
  }

  predicate Descending(s: seq<Concept>, count: Concept -> int)
  {
    forall i, j :: 0 <= i < j < |s| ==> count(s[i]) >= count(s[j])
  }

  lemma {:induction false} InsertDescending(m: Concept, s: seq<Concept>, count: Concept -> int)
    requires Descending(s, count)
    ensures Descending(Insert(m, s, count), count)
    decreases |s|
  {
    if |s| > 0 && count(s[0]) > count(m) {
      InsertDescending(m, s[1..], count);
      var t := Insert(m, s[1..], count);
      assert Insert(m, s, count) == [s[0]] + t;
      forall x | x in multiset(t)
        ensures count(s[0]) >= count(x)
      {
        if x != m {
          assert x in s[1..];
        }
      }
    }
  }

  /** The sort puts the masks in order of count, highest first, and keeps them all. */
  lemma {:induction false} SortByCountDescending(ms: seq<Concept>, count: Concept -> int)
    ensures Descending(SortByCount(ms, count), count)
    ensures multiset(SortByCount(ms, count)) == multiset(ms)
    decreases |ms|
  {
    if |ms| > 0 {
      SortByCountDescending(ms[1..], count);
      InsertDescending(ms[0], SortByCount(ms[1..], count), count);
    }
  }

  /** The sort is stable: with equal counts (say, no counter ever stored) the order is kept. */
  lemma {:induction false} SortByCountEqual(ms: seq<Concept>, count: Concept -> int)
    requires forall i, j :: 0 <= i < |ms| && 0 <= j < |ms| ==> count(ms[i]) == count(ms[j])
    ensures SortByCount(ms, count) == ms
    decreases |ms|
  {
    if |ms| > 0 {
      assert forall i :: 0 <= i < |ms[1..]| ==> ms[1..][i] == ms[i + 1];
      SortByCountEqual(ms[1..], count);
      if |ms| > 1 {
        assert count(ms[1]) <= count(ms[0]);
      }
    }
  }

  /** `sortedMasks.flatMap((mask) => maskRuleDict.get(mask.key) || [])`. */
  function Gather(gs: Groups, ms: seq<Concept>): seq<Concept>
  {
    if |ms| == 0 then [] else Members(gs, Key(ms[0])) + Gather(gs, ms[1..])
  }

  /** The head of the search: the first sorted mask, the first rule under it and the others. */
  datatype Plan = Plan(head: Concept, rule: Concept, rest: seq<Concept>)

  function PlanOf(ops: Ops, rules: seq<Concept>): Result<Plan>
  {
    var gs := GroupBy(ops.mask, rules);
    match ReadEach(GroupKeys(gs), ops.reparse)
    case Err(m) => Err(m)
    case Ok(masks) =>
      var sorted := SortByCount(masks, ops.count);
      var ordered := Gather(gs, sorted);
      if |sorted| == 0 || |ordered| == 0 then Err(UndefinedParts)
      else Ok(Plan(sorted[0], ordered[0], ordered[1..]))
  }

  /** The head mask is the most matched one: no mask has a higher count. */
  lemma PlanHeadMostMatched(ops: Ops, rules: seq<Concept>)
    requires PlanOf(ops, rules).Ok?
    ensures ReadEach(GroupKeys(GroupBy(ops.mask, rules)), ops.reparse).Ok?
    ensures var masks := ReadEach(GroupKeys(GroupBy(ops.mask, rules)), ops.reparse).value;
      PlanOf(ops, rules).value.head in masks
      && forall m :: m in masks ==> ops.count(m) <= ops.count(PlanOf(ops, rules).value.head)
  {
    var masks := ReadEach(GroupKeys(GroupBy(ops.mask, rules)), ops.reparse).value;
    var sorted := SortByCount(masks, ops.count);
    SortByCountDescending(masks, ops.count);
    assert sorted[0] in multiset(masks);
    forall m | m in masks
      ensures ops.count(m) <= ops.count(sorted[0])
    {
      assert m in multiset(sorted);
      var j :| 0 <= j < |sorted| && sorted[j] == m;
    }
  }

  /**
   * With every mask counted alike, and the first mask reading back with its
   * own key, the search is headed by the first rule and its mask.
   */
  lemma PlanFollowsRuleOrder(ops: Ops, rules: seq<Concept>)
    requires |rules| > 0
    requires ReadEach(GroupKeys(GroupBy(ops.mask, rules)), ops.reparse).Ok?
    requires var masks := ReadEach(GroupKeys(GroupBy(ops.mask, rules)), ops.reparse).value;
      forall i, j :: 0 <= i < |masks| && 0 <= j < |masks| ==> ops.count(masks[i]) == ops.count(masks[j])
    requires var gs := GroupBy(ops.mask, rules);
      ops.reparse(gs[0].0).Ok? ==> Key(ops.reparse(gs[0].0).value) == gs[0].0
    ensures PlanOf(ops, rules).Ok?
    ensures PlanOf(ops, rules).value.rule == rules[0]
    ensures ops.reparse(Key(ops.mask(rules[0]))) == Ok(PlanOf(ops, rules).value.head)
  {
    var gs := GroupBy(ops.mask, rules);
    GroupByFacts(ops.mask, rules);
    var masks := ReadEach(GroupKeys(gs), ops.reparse).value;
    SortByCountEqual(masks, ops.count);
    assert ops.reparse(gs[0].0) == Ok(masks[0]);
    assert Position(gs, Key(masks[0])) == 0;
    assert Gather(gs, masks) == gs[0].1 + Gather(gs, masks[1..]);
    assert rules[0] in gs[0].1;
  }

  /** Each entry of a grouping is led by a rule filed under its mask's key. */
  lemma GroupLead(mask: Concept -> Concept, rules: seq<Concept>, i: nat) returns (r: Concept)
    requires i < |GroupBy(mask, rules)|
    ensures r in rules && Key(mask(r)) == GroupBy(mask, rules)[i].0
  {
    var gs := GroupBy(mask, rules);
    GroupByFacts(mask, rules);
    r := gs[i].1[0];
    FlattenSplit(gs, i);
    assert r in Flatten(gs);
    assert r in multiset(rules);
  }

  /** Every mask key of a grouping reads back as the mask it came from. */
  lemma ReadGroupKeys(mask: Concept -> Concept, read: string -> Result<Concept>, rules: seq<Concept>)
    requires forall c :: c in rules ==> read(Key(mask(c))) == Ok(mask(c))
    ensures ReadEach(GroupKeys(GroupBy(mask, rules)), read).Ok?
    ensures forall i :: 0 <= i < |GroupBy(mask, rules)| ==>
      read(GroupBy(mask, rules)[i].0).Ok? && Key(read(GroupBy(mask, rules)[i].0).value) == GroupBy(mask, rules)[i].0
  {
    var gs := GroupBy(mask, rules);
    forall i | 0 <= i < |gs|
      ensures read(gs[i].0).Ok? && Key(read(gs[i].0).value) == gs[i].0
    {
      var r := GroupLead(mask, rules, i);
    }
    ReadEachAllOk(GroupKeys(gs), read);
  }

  /**
   * With every mask counted alike and every mask reading back from its key,
   * the search is headed by the first rule, under its own mask.
   */
  lemma FirstRuleFirst(ops: Ops, rules: seq<Concept>)
    requires |rules| > 0
    requires forall c :: c in rules ==> ops.reparse(Key(ops.mask(c))) == Ok(ops.mask(c))
    requires forall m, n :: ops.count(m) == ops.count(n)
    ensures PlanOf(ops, rules).Ok?
    ensures PlanOf(ops, rules).value.rule == rules[0]
    ensures PlanOf(ops, rules).value.head == ops.mask(rules[0])
  {
    ReadGroupKeys(ops.mask, ops.reparse, rules);
    PlanFollowsRuleOrder(ops, rules);
    assert rules[0] in rules;
  }

  // The answers.

  /** `Object.fromEntries(entries.map(([key, value]) => [dict[key].key, value]))`. */
  function Rename(entries: seq<(string, Concept)>, dict: Bindings): Result<Bindings>
    decreases |entries|
  {
    if |entries| == 0 then Ok(map[])
    else
      match Rename(entries[..|entries| - 1], dict)
      case Err(m) => Err(m)
      case Ok(acc) =>
        var (k, v) := entries[|entries| - 1];
        if k !in dict then Err(UndefinedKey) else Ok(acc[Key(dict[k]) := v])
  }

  /** `{ ...partial, ...each }` for each of the sub-answers. */
  function Merged(partial: Bindings, subs: seq<Bindings>): (r: seq<Bindings>)
    ensures |r| == |subs| && forall i :: 0 <= i < |subs| ==> r[i] == partial + subs[i]
  {
    seq(|subs|, i requires 0 <= i < |subs| => partial + subs[i])
  }

  predicate HasNoVariables(b: Bindings)
  {
    forall k :: k in b ==> !IsVariable(b[k])
  }

  /** The `includeVariables` filter. */
  function Visible(results: seq<Bindings>, includeVariables: bool): seq<Bindings>
  {
    if includeVariables then results else Keep(results, HasNoVariables)
  }

  /** `matchConcepts`, with at most `fuel` nested calls. */
  function Solve(ops: Ops, rules: seq<Concept>, includeVariables: bool, fuel: nat): Result<seq<Bindings>>
    decreases fuel, 0
  {
    if fuel == 0 then Err(DepthExceeded) else Search(ops, rules, includeVariables, fuel - 1)
  }

  /** The rules read back by key, less the stored ones; `None` when a ground rule is missing. */
  function Prepared(ops: Ops, rules: seq<Concept>): Result<Option<seq<Concept>>>
  {
    match ReadEach(UniqueKeys(Keys(rules)), ops.reparse)
    case Err(m) => Err(m)
    case Ok(rs) => Remaining(ops, rs)
  }

  /** One call of `matchConcepts`, whose nested calls have `depth` more calls left. */
  function Search(ops: Ops, rules: seq<Concept>, includeVariables: bool, depth: nat): Result<seq<Bindings>>
    decreases depth, 3
  {
    match Prepared(ops, rules)
    case Err(m) => Err(m)
    case Ok(None) => Ok([])
    case Ok(Some(rest)) =>
      if |rest| == 0 then Ok([map[]]) else Matched(ops, rest, includeVariables, depth)
  }

  /** The plan and the head rule's variables, named for the head mask's. */
  function Head(ops: Ops, rest: seq<Concept>): Result<(Plan, Bindings)>
  {
    match PlanOf(ops, rest)
    case Err(m) => Err(m)
    case Ok(plan) =>
      match ops.unify(plan.rule, plan.head)
      case None => Err(NoHeadVariables)
      case Some(dict) => Ok((plan, dict))
  }

  /** The search from the head rule, for rules none of which is stored as it stands. */
  function Matched(ops: Ops, rest: seq<Concept>, includeVariables: bool, depth: nat): Result<seq<Bindings>>
    decreases depth, 2
  {
    match Head(ops, rest)
    case Err(m) => Err(m)
    case Ok((plan, dict)) =>
      match Answers(ops, ops.matchKeys(plan.head), dict, plan.rest, depth)
      case Err(m) => Err(m)
      case Ok(results) => Ok(Visible(results, includeVariables))
  }

  /** The loop over the match keys: the answers of each key in turn. */
  function Answers(ops: Ops, keys: seq<string>, dict: Bindings, rest: seq<Concept>, depth: nat): Result<seq<Bindings>>
    decreases depth, 1, |keys|
  {
    if |keys| == 0 then Ok([])
    else
      match Answers(ops, keys[..|keys| - 1], dict, rest, depth)
      case Err(m) => Err(m)
      case Ok(acc) =>
        match FromKey(ops, keys[|keys| - 1], dict, rest, depth)
        case Err(m) => Err(m)
        case Ok(more) => Ok(acc + more)
  }

  /** The answers one match key gives: its values renamed for the head rule, extended by the rest's answers. */
  function FromKey(ops: Ops, key: string, dict: Bindings, rest: seq<Concept>, depth: nat): Result<seq<Bindings>>
    decreases depth, 1, 0
  {
    match ops.decode(key)
    case Err(m) => Err(m)
    case Ok(entries) =>
      match Rename(entries, dict)
      case Err(m) => Err(m)
      case Ok(partial) =>
        if |rest| == 0 then Ok([partial])
        else
          match ops.interpolate(rest, partial)
          case Err(m) => Err(m)
          case Ok(cs) =>
            match Solve(ops, cs, false, depth)
            case Err(m) => Err(m)
            case Ok(subs) => Ok(Merged(partial, subs))
  }

  // The steps of a call, one stage at a time.

  /** A call with calls left goes through the stages of `Search`. */
  lemma SolveSteps(ops: Ops, rules: seq<Concept>, includeVariables: bool, fuel: nat)
    requires fuel > 0
    ensures Prepared(ops, rules).Err? ==> Solve(ops, rules, includeVariables, fuel) == Err(Prepared(ops, rules).msg)
    ensures Prepared(ops, rules) == Ok(None) ==> Solve(ops, rules, includeVariables, fuel) == Ok([])
    ensures Prepared(ops, rules) == Ok(Some([])) ==> Solve(ops, rules, includeVariables, fuel) == Ok([map[]])
  {
    assert Solve(ops, rules, includeVariables, fuel) == Search(ops, rules, includeVariables, fuel - 1);
  }

  /** Binding the head rule to the head mask, once the plan is made. */
  lemma HeadSteps(ops: Ops, rest: seq<Concept>, plan: Plan)
    requires PlanOf(ops, rest) == Ok(plan)
    ensures ops.unify(plan.rule, plan.head).None? ==> Head(ops, rest) == Err(NoHeadVariables)
    ensures ops.unify(plan.rule, plan.head).Some? ==> Head(ops, rest) == Ok((plan, ops.unify(plan.rule, plan.head).value))
  {
  }

  /** The search from the head rule, once the head rule is bound. */
  lemma MatchedSteps(ops: Ops, rest: seq<Concept>, includeVariables: bool, depth: nat, plan: Plan, dict: Bindings)
    requires Head(ops, rest) == Ok((plan, dict))
    ensures Answers(ops, ops.matchKeys(plan.head), dict, plan.rest, depth).Err? ==>
      Matched(ops, rest, includeVariables, depth) == Err(Answers(ops, ops.matchKeys(plan.head), dict, plan.rest, depth).msg)
    ensures Answers(ops, ops.matchKeys(plan.head), dict, plan.rest, depth).Ok? ==>
      Matched(ops, rest, includeVariables, depth) == Ok(Visible(Answers(ops, ops.matchKeys(plan.head), dict, plan.rest, depth).value, includeVariables))
  {
  }

  /** A failed plan or binding is the failure of the search from the head rule. */
  lemma MatchedFails(ops: Ops, rest: seq<Concept>, includeVariables: bool, depth: nat)
    requires Head(ops, rest).Err?
    ensures Matched(ops, rest, includeVariables, depth) == Err(Head(ops, rest).msg)
  {
  }

  /** One more key: the loop's answers so far, then that key's. */
  lemma AnswersStep(ops: Ops, keys: seq<string>, dict: Bindings, rest: seq<Concept>, depth: nat, j: nat)
    requires j < |keys|
    ensures Answers(ops, keys[..j + 1], dict, rest, depth)
      == match Answers(ops, keys[..j], dict, rest, depth)
         case Err(m) => Err(m)
         case Ok(acc) =>
           match FromKey(ops, keys[j], dict, rest, depth)
           case Err(m) => Err(m)
           case Ok(more) => Ok(acc + more)
  {
    assert keys[..j + 1][..j] == keys[..j];
    assert keys[..j + 1][j] == keys[j];
  }

  /** Once the answers of a prefix of the keys fail, the loop fails with that error. */
  lemma {:induction false} AnswersPrefixError(ops: Ops, keys: seq<string>, dict: Bindings, rest: seq<Concept>, depth: nat, n: nat)
    requires n <= |keys| && Answers(ops, keys[..n], dict, rest, depth).Err?
    ensures Answers(ops, keys, dict, rest, depth) == Answers(ops, keys[..n], dict, rest, depth)
    decreases |keys| - n
  {
    if n < |keys| {
      AnswersStep(ops, keys, dict, rest, depth, n);
      AnswersPrefixError(ops, keys, dict, rest, depth, n + 1);
    } else {
      assert keys[..n] == keys;
    }
  }

  // What the answers mean.

  /**
   * `b` is an answer the match key `key` gives: its values, named for the
   * head rule, are `b` itself when no rule is left, or are extended by an
   * answer of the remaining rules with those values filled in.
   */
  predicate Contributes(ops: Ops, key: string, dict: Bindings, rest: seq<Concept>, depth: nat, b: Bindings)
  {
    ops.decode(key).Ok? && Rename(ops.decode(key).value, dict).Ok?
    && var partial := Rename(ops.decode(key).value, dict).value;
    if |rest| == 0 then b == partial
    else
      ops.interpolate(rest, partial).Ok?
      && Solve(ops, ops.interpolate(rest, partial).value, false, depth).Ok?
      && exists s :: s in Solve(ops, ops.interpolate(rest, partial).value, false, depth).value && b == partial + s
  }

  /** `b` is an answer one of the match keys `keys` contributes. */
  predicate Answered(ops: Ops, keys: seq<string>, dict: Bindings, rest: seq<Concept>, depth: nat, b: Bindings)
  {
    exists i :: 0 <= i < |keys| && Contributes(ops, keys[i], dict, rest, depth, b)
  }

  lemma FromKeyMeaning(ops: Ops, key: string, dict: Bindings, rest: seq<Concept>, depth: nat, b: Bindings)
    requires FromKey(ops, key, dict, rest, depth).Ok?
    ensures b in FromKey(ops, key, dict, rest, depth).value <==> Contributes(ops, key, dict, rest, depth, b)
  {
    if |rest| > 0 {
      var partial := Rename(ops.decode(key).value, dict).value;
      var subs := Solve(ops, ops.interpolate(rest, partial).value, false, depth).value;
      if b in Merged(partial, subs) {
        var i :| 0 <= i < |subs| && Merged(partial, subs)[i] == b;
        assert subs[i] in subs && b == partial + subs[i];
      }
      if s :| s in subs && b == partial + s {
        var i :| 0 <= i < |subs| && subs[i] == s;
        assert Merged(partial, subs)[i] == b;
      }
    }
  }

  /** The loop over the keys succeeds exactly when every key's answers do. */
  lemma {:induction false} AnswersOk(ops: Ops, keys: seq<string>, dict: Bindings, rest: seq<Concept>, depth: nat)
    ensures Answers(ops, keys, dict, rest, depth).Ok?
      <==> forall i :: 0 <= i < |keys| ==> FromKey(ops, keys[i], dict, rest, depth).Ok?
    decreases |keys|
  {
    if |keys| > 0 {
      var init := keys[..|keys| - 1];
      AnswersOk(ops, init, dict, rest, depth);
      assert forall i :: 0 <= i < |init| ==> init[i] == keys[i];
    }
  }

  /** An answer of the loop is exactly an answer that one of the match keys gives. */
  lemma {:induction false} AnswersMeaning(ops: Ops, keys: seq<string>, dict: Bindings, rest: seq<Concept>, depth: nat, b: Bindings)
    requires Answers(ops, keys, dict, rest, depth).Ok?
    ensures b in Answers(ops, keys, dict, rest, depth).value <==> Answered(ops, keys, dict, rest, depth, b)
    decreases |keys|
  {
    if |keys| > 0 {
      var n := |keys|;
      var init := keys[..n - 1];
      AnswersMeaning(ops, init, dict, rest, depth, b);
      FromKeyMeaning(ops, keys[n - 1], dict, rest, depth, b);
      assert forall i :: 0 <= i < |init| ==> init[i] == keys[i];
      if i :| 0 <= i < n && Contributes(ops, keys[i], dict, rest, depth, b) {
        if i < n - 1 {
          assert Contributes(ops, init[i], dict, rest, depth, b);
        }
      }
    }
  }

  // Properties of the whole search.

  /** Listing the same keys first yields the same search: the rules are read by key only. */
  lemma DuplicateRuleIgnored(ops: Ops, rules: seq<Concept>, i: nat, includeVariables: bool, fuel: nat)
    requires i < |rules| && exists j :: 0 <= j < i && Key(rules[j]) == Key(rules[i])
    ensures Solve(ops, rules[..i] + rules[i + 1..], includeVariables, fuel) == Solve(ops, rules, includeVariables, fuel)
  {
    var fewer := rules[..i] + rules[i + 1..];
    RepeatDropsNoKey(rules, i);
    assert Prepared(ops, fewer) == Prepared(ops, rules);
    if fuel > 0 {
      assert Search(ops, fewer, includeVariables, fuel - 1) == Search(ops, rules, includeVariables, fuel - 1);
    }
  }

  lemma RepeatDropsNoKey(rules: seq<Concept>, i: nat)
    requires i < |rules| && exists j :: 0 <= j < i && Key(rules[j]) == Key(rules[i])
    ensures UniqueKeys(Keys(rules[..i] + rules[i + 1..])) == UniqueKeys(Keys(rules))
  {
    KeysDrop(rules, i);
    var j :| 0 <= j < i && Key(rules[j]) == Key(rules[i]);
    KeysAt(rules, i);
    KeysAt(rules, j);
    UniqueKeysDrop(Keys(rules), i, j);
  }

  lemma UniqueKeysDrop(ks: seq<string>, i: nat, j: nat)
    requires j < i < |ks| && ks[j] == ks[i]
    ensures UniqueKeys(ks[..i] + ks[i + 1..]) == UniqueKeys(ks)
  {
    assert ks[..i][j] == ks[i];
    assert ks == ks[..i] + [ks[i]] + ks[i + 1..];
    UniqueKeysRepeat(ks[..i], ks[i], ks[i + 1..]);
  }

  lemma KeysDrop(rules: seq<Concept>, i: nat)
    requires i < |rules|
    ensures Keys(rules[..i] + rules[i + 1..]) == Keys(rules)[..i] + Keys(rules)[i + 1..]
  {
    var fewer := rules[..i] + rules[i + 1..];
    var ks := Keys(rules);
    var dropped := ks[..i] + ks[i + 1..];
    forall x | 0 <= x < |fewer|
      ensures Keys(fewer)[x] == dropped[x]
    {
      KeysAt(fewer, x);
      var y := if x < i then x else x + 1;
      KeysAt(rules, y);
      assert fewer[x] == rules[y] && dropped[x] == ks[y];
    }
  }

  /** A ground rule that is not stored leaves no answer, whatever the other rules. */
  lemma MissingGroundRule(ops: Ops, rules: seq<Concept>, includeVariables: bool, fuel: nat)
    requires fuel > 0
    requires ReadEach(UniqueKeys(Keys(rules)), ops.reparse).Ok?
    requires var rs := ReadEach(UniqueKeys(Keys(rules)), ops.reparse).value;
      |Grounds(rs)| > 0 && ops.find(Grounds(rs)).Ok? && |ops.find(Grounds(rs)).value| < |Grounds(rs)|
    ensures Solve(ops, rules, includeVariables, fuel) == Ok([])
  {
    assert Prepared(ops, rules) == Ok(None);
  }

  /** Rules that are all ground and all found answer with one empty binding. */
  lemma GroundRulesFound(ops: Ops, rules: seq<Concept>, includeVariables: bool, fuel: nat)
    requires fuel > 0
    requires ReadEach(UniqueKeys(Keys(rules)), ops.reparse).Ok?
    requires var rs := ReadEach(UniqueKeys(Keys(rules)), ops.reparse).value;
      (forall c :: c in rs ==> IsGround(c))
      && (|rs| > 0 ==>
            ops.find(rs).Ok? && |ops.find(rs).value| >= |rs|
            && (forall c :: c in rs ==> Key(c) in KeySet(ops.find(rs).value)))
    ensures Solve(ops, rules, includeVariables, fuel) == Ok([map[]])
  {
    RemainingAllFound(ops, ReadEach(UniqueKeys(Keys(rules)), ops.reparse).value);
    assert Prepared(ops, rules) == Ok(Some([]));
    assert Solve(ops, rules, includeVariables, fuel) == Search(ops, rules, includeVariables, fuel - 1);
  }

  lemma RemainingAllFound(ops: Ops, rs: seq<Concept>)
    requires forall c :: c in rs ==> IsGround(c)
    requires |rs| > 0 ==>
      ops.find(rs).Ok? && |ops.find(rs).value| >= |rs|
      && (forall c :: c in rs ==> Key(c) in KeySet(ops.find(rs).value))
    ensures Remaining(ops, rs) == Ok(Some([]))
  {
    GroundsAll(rs);
    if |rs| > 0 {
      var e := ops.find(rs).value;
      KeepNone(rs, (c: Concept) => Key(c) !in KeySet(e));
      assert Remaining(ops, rs) == Ok(Some(Unfound(rs, e)));
    }
  }

  lemma {:induction false} GroundsAll(rs: seq<Concept>)
    requires forall c :: c in rs ==> IsGround(c)
    ensures Grounds(rs) == rs
    decreases |rs|
  {
    if |rs| > 0 {
      var init := rs[..|rs| - 1];
      assert rs == init + [rs[|rs| - 1]];
      assert forall c :: c in init ==> c in rs;
      GroundsAll(init);
    }
  }

  /** Without `includeVariables`, no answer binds a variable to a variable. */
  lemma NoVariableValues(ops: Ops, rules: seq<Concept>, fuel: nat, b: Bindings)
    requires Solve(ops, rules, false, fuel).Ok? && b in Solve(ops, rules, false, fuel).value
    ensures HasNoVariables(b)
  {
    var depth := fuel - 1;
    assert Solve(ops, rules, false, fuel) == Search(ops, rules, false, depth);
    var rest := Prepared(ops, rules).value.value;
    if |rest| > 0 {
      assert Search(ops, rules, false, depth) == Matched(ops, rest, false, depth);
      var (plan, dict) := Head(ops, rest).value;
      var results := Answers(ops, ops.matchKeys(plan.head), dict, plan.rest, depth).value;
      assert Matched(ops, rest, false, depth) == Ok(Visible(results, false));
    }
  }

  /** With rules left to match, a call's answers are those of the search from the head rule. */
  lemma SolveReachesHead(ops: Ops, rules: seq<Concept>, includeVariables: bool, fuel: nat, rest: seq<Concept>)
    requires fuel > 0
    requires Prepared(ops, rules) == Ok(Some(rest)) && |rest| > 0
    ensures Solve(ops, rules, includeVariables, fuel) == Matched(ops, rest, includeVariables, fuel - 1)
  {
    assert Solve(ops, rules, includeVariables, fuel) == Search(ops, rules, includeVariables, fuel - 1);
  }

  /**
   * From the head rule, the answers are exactly those a match key under the
   * head mask contributes, less the ones binding a variable unless
   * `includeVariables`.
   */
  lemma MatchedMeaning(ops: Ops, rest: seq<Concept>, includeVariables: bool, depth: nat,
                       plan: Plan, dict: Bindings, b: Bindings)
    requires Head(ops, rest) == Ok((plan, dict))
    requires Matched(ops, rest, includeVariables, depth).Ok?
    ensures b in Matched(ops, rest, includeVariables, depth).value
      <==> Answered(ops, ops.matchKeys(plan.head), dict, plan.rest, depth, b) && (includeVariables || HasNoVariables(b))
  {
    var keys := ops.matchKeys(plan.head);
    assert Answers(ops, keys, dict, plan.rest, depth).Ok?;
    AnswersMeaning(ops, keys, dict, plan.rest, depth, b);
  }
}
