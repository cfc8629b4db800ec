/**
 * Trigger definitions arriving with new concepts. A concept shaped
 * `name [@type arg]` with one of the four component types is a trigger
 * component; `separateTriggers` sets them apart from the plain concepts
 * and groups them into the triggers they define.
 */
module TriggerComponents {
  import opened Wrappers
  import opened Concepts
  import opened Matching
  import opened Folds
  import opened Triggers
  import TriggerQueries

  /** `TRIGGER_COMPONENT_PATTERN`: `$trigger [$type $arg]`. */
  const ComponentPattern := Compound([Atom("$trigger"), Compound([Atom("$type"), Atom("$arg")])])

  /** `COMPONENT_TYPE_KEYS`. */
  const ComponentTypeKeys := ["@matches", "@adds", "@removes", "@notifies"]

  /** The component list a property name of `Trigger['components']` stands for. */
  function ListNamed(name: string): Option<Kind>
  {
    if name == "matches" then Some(Matches)
    else if name == "adds" then Some(Adds)
    else if name == "removes" then Some(Removes)
    else if name == "notifies" then Some(Notifies)
    else None
  }

  /** `parseTriggerComponent(concept)`: the trigger name, the list (`$type.key` without its `@`) and the argument. */
  function ParseTriggerComponent(c: Concept): Option<Filing>
  {
    NestedMatch(c, "$trigger", "$type", "$arg");
    match Match(c, ComponentPattern)
    case None => None
    case Some(b) =>
      var typeKey := Key(b["$type"]);
      if typeKey in ComponentTypeKeys then
        match ListNamed(typeKey[1..])
        case None => None
        case Some(kind) => Some(Filing(Key(b["$trigger"]), kind, b["$arg"]))
      else None
  }

  /**
   * A concept is a component exactly when it is shaped `t [y a]` with `y`
   * one of the four type keys; it is then filed under `t`'s key, in the
   * list whose key is `y`'s, with `a` as its argument.
   */
  lemma ParseTriggerComponentMeaning(c: Concept)
    ensures ParseTriggerComponent(c).Some? <==> Nested(c).Some? && Key(Nested(c).value.1) in ComponentTypeKeys
    ensures ParseTriggerComponent(c).Some? ==>
      var (t, y, a) := Nested(c).value;
      ParseTriggerComponent(c) == Some(Filing(Key(t), ParseTriggerComponent(c).value.kind, a))
      && TypeKey(ParseTriggerComponent(c).value.kind) == Key(y)
  {
    NestedMatch(c, "$trigger", "$type", "$arg");
  }

  /** The components `separateTriggers` recognises are the fragments the trigger index files. */
  lemma ParseIsFiling(c: Concept)
    ensures ParseTriggerComponent(c) == FilingOf(c)
  {
    NestedMatch(c, "$trigger", "$type", "$arg");
    if Nested(c).Some? {
      TypeKeySlice(Key(Nested(c).value.1));
    }
  }

  /** Checking the key against `COMPONENT_TYPE_KEYS` and naming the list by the rest of it is the `ComponentType` lookup. */
  lemma TypeKeySlice(key: string)
    ensures (if key in ComponentTypeKeys then ListNamed(key[1..]) else None) == KindOf(key)
  {
    if key == "@matches" {
      assert key[1..] == "matches";
    } else if key == "@adds" {
      assert key[1..] == "adds";
    } else if key == "@removes" {
      assert key[1..] == "removes";
    } else if key == "@notifies" {
      assert key[1..] == "notifies";
    }
  }

  predicate IsComponent(c: Concept)
  {
    FilingOf(c).Some?
  }

  predicate IsPlain(c: Concept)
  {
    FilingOf(c).None?
  }

  /** The three records `separateTriggers` fills; each record's values are kept in insertion order. */
  datatype Organized = Organized(triggers: Index, components: seq<Concept>, concepts: seq<Concept>)

  /**
   * `separateTriggers(concepts)`: the triggers the components define, the
   * components and the plain concepts, each record keyed as the source
   * keys it.
   */
  function Separated(cs: seq<Concept>): Organized
  {
    Organized(FileAll(EmptyIndex, Filings(cs)), UniqueByKey(Keep(cs, IsComponent)), UniqueByKey(Keep(cs, IsPlain)))
  }

  /** One more concept: it is filed and kept as a component, or kept as a plain concept. */
  lemma SeparatedStep(cs: seq<Concept>, i: nat)
    requires i < |cs|
    ensures Filings(cs[..i + 1]) == Filings(cs[..i]) + (if FilingOf(cs[i]).Some? then [FilingOf(cs[i]).value] else [])
    ensures Keep(cs[..i + 1], IsComponent) == Keep(cs[..i], IsComponent) + (if IsComponent(cs[i]) then [cs[i]] else [])
    ensures Keep(cs[..i + 1], IsPlain) == Keep(cs[..i], IsPlain) + (if IsPlain(cs[i]) then [cs[i]] else [])
  {
    assert cs[..i + 1][..i] == cs[..i];
    assert cs[..i + 1][i] == cs[i];
  }

  lemma UniqueByKeySnoc(s: seq<Concept>, c: Concept)
    ensures UniqueByKey(s + [c]) == SetByKey(UniqueByKey(s), c)
  {
    Snoc(s, c);
  }

  /** `separateTriggers`. */
  method SeparateTriggers(concepts: seq<Concept>) returns (organized: Organized)
    ensures organized == Separated(concepts)
  {
    var triggers := EmptyIndex;
    var components: seq<Concept> := [];
    var plain: seq<Concept> := [];
    for i := 0 to |concepts|
      invariant triggers == FileAll(EmptyIndex, Filings(concepts[..i]))
      invariant components == UniqueByKey(Keep(concepts[..i], IsComponent))
      invariant plain == UniqueByKey(Keep(concepts[..i], IsPlain))
    {
      var concept := concepts[i];
      var component := ParseTriggerComponent(concept);
      ParseIsFiling(concept);
      SeparatedStep(concepts, i);
      ghost var fs := Filings(concepts[..i]);
      ghost var ks := Keep(concepts[..i], IsComponent);
      ghost var ps := Keep(concepts[..i], IsPlain);
      if component.None? {
        assert ks + [] == ks && fs + [] == fs;
        UniqueByKeySnoc(ps, concept);
        plain := SetByKey(plain, concept);
      } else {
        assert ps + [] == ps;
        Snoc(fs, component.value);
        assert FileAll(EmptyIndex, fs + [component.value]) == Filed(FileAll(EmptyIndex, fs), component.value);
        UniqueByKeySnoc(ks, concept);
        triggers := Filed(triggers, component.value);
        components := SetByKey(components, concept);
      }
    }
    assert concepts[..|concepts|] == concepts;
    organized := Organized(triggers, components, plain);
  }

  /**
   * Every input lands in exactly one of the component and concept records,
   * under its key, and each record holds only inputs of its own kind with
   * pairwise-distinct keys.
   */
  lemma SeparatedPartition(cs: seq<Concept>)
    ensures var o := Separated(cs);
      && DistinctKeys(o.components) && DistinctKeys(o.concepts)
      && (forall c :: c in cs && IsComponent(c) ==> Key(c) in KeySet(o.components))
      && (forall c :: c in cs && IsPlain(c) ==> Key(c) in KeySet(o.concepts))
      && (forall c :: c in o.components ==> c in cs && IsComponent(c))
      && (forall c :: c in o.concepts ==> c in cs && IsPlain(c))
  {
    var ks := Keep(cs, IsComponent);
    var ps := Keep(cs, IsPlain);
    UniqueByKeyFacts(ks);
    UniqueByKeyFacts(ps);
    forall c | c in cs
      ensures IsComponent(c) ==> Key(c) in KeySet(UniqueByKey(ks))
      ensures IsPlain(c) ==> Key(c) in KeySet(UniqueByKey(ps))
    {
      if IsComponent(c) {
        var j :| 0 <= j < |ks| && ks[j] == c;
        assert Key(ks[j]) in KeySet(ks);
      } else {
        var j :| 0 <= j < |ps| && ps[j] == c;
        assert Key(ps[j]) in KeySet(ps);
      }
    }
  }

  /**
   * The new triggers, `Object.values(organized.triggers)`: one per name
   * that a component names, each with exactly that name's components in
   * each list, in input order.
   */
  lemma SeparatedTriggers(cs: seq<Concept>)
    ensures Triggers.WellFormed(Separated(cs).triggers)
    ensures var ts := Values(Separated(cs).triggers);
      && (forall i, j :: 0 <= i < j < |ts| ==> ts[i].name != ts[j].name)
      && (forall c :: c in cs && IsComponent(c) ==> exists i :: 0 <= i < |ts| && ts[i].name == FilingOf(c).value.name)
      && (forall i, k :: 0 <= i < |ts| ==> Component(ts[i].components, k) == Under(Filings(cs), ts[i].name, k))
  {
    var fs := Filings(cs);
    TriggerQueries.IndexedTriggers(fs);
    forall c | c in cs && IsComponent(c)
      ensures FilingOf(c).value in fs
    {
      FilingsMeaning(cs, FilingOf(c).value);
    }
  }

  /** Without components there are no new triggers, and every component defines one. */
  lemma NoComponentsNoTriggers(cs: seq<Concept>)
    ensures |Separated(cs).triggers.names| == 0 <==> |Separated(cs).components| == 0
  {
    var o := Separated(cs);
    if |o.components| > 0 {
      ComponentNamesTrigger(cs, o.components[0]);
    }
    if |o.triggers.names| > 0 {
      TriggerHasComponent(cs);
    }
  }

  lemma ComponentNamesTrigger(cs: seq<Concept>, c: Concept)
    requires c in Separated(cs).components
    ensures |Separated(cs).triggers.names| > 0
  {
    var fs := Filings(cs);
    FileAllNames(EmptyIndex, fs);
    UniqueByKeyFacts(Keep(cs, IsComponent));
    FilingsMeaning(cs, FilingOf(c).value);
    assert FilingOf(c).value.name in NamesOf(fs);
  }

  lemma TriggerHasComponent(cs: seq<Concept>)
    requires |Separated(cs).triggers.names| > 0
    ensures |Separated(cs).components| > 0
  {
    var fs := Filings(cs);
    var ix := FileAll(EmptyIndex, fs);
    assert ix == Separated(cs).triggers;
    FileAllNames(EmptyIndex, fs);
    var n := ix.names[0];
    assert n in ix.triggers.Keys;
    assert ix.triggers.Keys == NamesOf(fs);
    var i :| 0 <= i < |fs| && fs[i].name == n;
    ComponentOfFiling(cs, fs[i]);
  }

  /** The concept a filing was read from is kept among the components. */
  lemma ComponentOfFiling(cs: seq<Concept>, f: Filing)
    requires f in Filings(cs)
    ensures |Separated(cs).components| > 0
  {
    FilingsMeaning(cs, f);
    var c :| c in cs && FilingOf(c) == Some(f);
    var ks := Keep(cs, IsComponent);
    assert c in ks;
    UniqueByKeyFacts(ks);
    var j :| 0 <= j < |ks| && ks[j] == c;
    assert Key(c) in KeySet(ks);
  }
}
