/**
 * The trigger library. A trigger is a name with four component lists: the
 * clauses it matches, the templates it adds or removes and the URLs it
 * notifies. Its definition is spread over fragment concepts
 * `name [@type component]`; an index files each fragment under its
 * trigger, and `extractTriggerMatches` joins the clauses a batch of
 * concepts satisfies into full and partial matches.
 */
module Triggers {
  import opened Wrappers
  import opened Concepts
  import opened Matching
  import opened Folds
  import Cascade

  /** The members of `ComponentType`. */
  datatype Kind = Matches | Adds | Notifies | Removes

  datatype Components = Components(matches: seq<Concept>, adds: seq<Concept>, notifies: seq<Concept>, removes: seq<Concept>)

  /** `components[kind]`. */
  function Component(cs: Components, kind: Kind): seq<Concept>
  {
    match kind
    case Matches => cs.matches
    case Adds => cs.adds
    case Notifies => cs.notifies
    case Removes => cs.removes
  }

  /** `components[kind].push(c)`: one list grows by `c`, the others stay. */
  function Append(cs: Components, kind: Kind, c: Concept): (r: Components)
    ensures Component(r, kind) == Component(cs, kind) + [c]
    ensures forall other :: other != kind ==> Component(r, other) == Component(cs, other)
  {
    match kind
    case Matches => cs.(matches := cs.matches + [c])
    case Adds => cs.(adds := cs.adds + [c])
    case Notifies => cs.(notifies := cs.notifies + [c])
    case Removes => cs.(removes := cs.removes + [c])
  }

  datatype Trigger = Trigger(name: string, components: Components)

  datatype TriggerMatch = TriggerMatch(trigger: Trigger, variables: Bindings)

  /** A `TriggerMatchPartial`: the clauses satisfied so far and their joined bindings. */
  datatype Partial = Partial(trigger: Trigger, variables: Bindings, rules: seq<Concept>)

  /** `createTrigger(name)`. */
  function CreateTrigger(name: string): (t: Trigger)
    ensures t.name == name
    ensures forall kind :: Component(t.components, kind) == []
  {
    Trigger(name, Components([], [], [], []))
  }

  /** The values of `ComponentType`. */
  function TypeKey(kind: Kind): string
  {
    match kind
    case Matches => "@matches"
    case Adds => "@adds"
    case Notifies => "@notifies"
    case Removes => "@removes"
  }

  /** The `switch` of `buildTriggerIndex`: the member whose value is `key`, if any. */
  function KindOf(key: string): (r: Option<Kind>)
    ensures r.Some? ==> TypeKey(r.value) == key
    ensures forall kind :: TypeKey(kind) == key ==> r == Some(kind)
  {
    if key == "@matches" then Some(Matches)
    else if key == "@adds" then Some(Adds)
    else if key == "@notifies" then Some(Notifies)
    else if key == "@removes" then Some(Removes)
    else None
  }

  // Fragments.

  /** `parseConcept('$trigger [$componentType $component]')`. */
  const FragPattern := Compound([Atom("$trigger"), Compound([Atom("$componentType"), Atom("$component")])])

  /** The three concepts a concept shaped `a [b c]` holds. */
  function Nested(c: Concept): Option<(Concept, Concept, Concept)>
  {
    if |Parts(c)| == 2 && |Parts(Parts(c)[1])| == 2 then
      Some((Parts(c)[0], Parts(Parts(c)[1])[0], Parts(Parts(c)[1])[1]))
    else None
  }

  /** A pattern `$x [$y $z]` matches exactly the concepts shaped `a [b c]`, binding the three. */
  lemma NestedMatch(c: Concept, x: string, y: string, z: string)
    requires IsVariable(Atom(x)) && IsVariable(Atom(y)) && IsVariable(Atom(z))
    ensures Match(c, Compound([Atom(x), Compound([Atom(y), Atom(z)])])).Some? <==> Nested(c).Some?
    ensures Nested(c).Some? ==>
      (Match(c, Compound([Atom(x), Compound([Atom(y), Atom(z)])]))
       == Some(map[x := Nested(c).value.0] + (map[y := Nested(c).value.1] + map[z := Nested(c).value.2])))
  {
    var inner := Compound([Atom(y), Atom(z)]);
    var p := Compound([Atom(x), inner]);
    assert IsPattern(inner) by { assert IsVariable(Parts(inner)[0]); }
    assert IsPattern(p) by { assert IsVariable(Parts(p)[0]); }
    if |Parts(c)| == 2 {
      var cs := Parts(c);
      assert Match(c, p) == MatchParts(cs, [Atom(x), inner]);
      assert [Atom(x), inner][..1] == [Atom(x)] && cs[..1][..0] == [] && [Atom(x)][..0] == [];
      assert MatchParts(cs[..1], [Atom(x)]) == Some(map[] + map[x := cs[0]]);
      var b := cs[1];
      if |Parts(b)| == 2 {
        var bs := Parts(b);
        assert Match(b, inner) == MatchParts(bs, [Atom(y), Atom(z)]);
        assert [Atom(y), Atom(z)][..1] == [Atom(y)] && bs[..1][..0] == [] && [Atom(y)][..0] == [];
        assert MatchParts(bs[..1], [Atom(y)]) == Some(map[] + map[y := bs[0]]);
        assert map[] + map[x := cs[0]] == map[x := cs[0]] && map[] + map[y := bs[0]] == map[y := bs[0]];
        assert Match(bs[1], Atom(z)) == Some(map[z := bs[1]]);
        assert MatchParts(bs, [Atom(y), Atom(z)]) == Some(map[y := bs[0]] + map[z := bs[1]]);
        assert Match(b, inner) == Some(map[y := bs[0]] + map[z := bs[1]]);
        assert MatchParts(cs, [Atom(x), inner]) == Some(map[x := cs[0]] + (map[y := bs[0]] + map[z := bs[1]]));
      } else {
        assert Match(b, inner).None?;
      }
    } else {
      assert Match(c, p).None?;
    }
  }

  /** `extractVariables(frag, triggerFragPattern)`, destructured into trigger, component type and component. */
  function FragParts(frag: Concept): (r: Option<(Concept, Concept, Concept)>)
    ensures r == Nested(frag)
  {
    NestedMatch(frag, "$trigger", "$componentType", "$component");
    match Match(frag, FragPattern)
    case None => None
    case Some(b) => Some((b["$trigger"], b["$componentType"], b["$component"]))
  }

  /** A fragment filed under the key of its trigger concept. */
  datatype Filing = Filing(name: string, kind: Kind, frag: Concept)

  /**
   * What `buildTriggerIndex` files for one concept: nothing unless the
   * concept is shaped `t [type c]` (the shape `FragParts` recognises)
   * with a type key that is a value of `ComponentType`.
   */
  function FilingOf(c: Concept): Option<Filing>
  {
    match Nested(c)
    case None => None
    case Some((trigger, componentType, component)) =>
      match KindOf(Key(componentType))
      case None => None
      case Some(kind) => Some(Filing(Key(trigger), kind, component))
  }

  /** The filings of the concepts, in order. */
  function Filings(cs: seq<Concept>): seq<Filing>
    decreases |cs|
  {
    if |cs| == 0 then []
    else
      var last := FilingOf(cs[|cs| - 1]);
      Filings(cs[..|cs| - 1]) + (if last.Some? then [last.value] else [])
  }

  // The index.

  /** A `TriggerIndex`: triggers by name; `names` is the order in which names were first filed. */
  datatype Index = Index(names: seq<string>, triggers: map<string, Trigger>)

  const EmptyIndex := Index([], map[])

  /** Each name listed once, each listed name indexed, each trigger under its own name. */
  predicate WellFormed(ix: Index)
  {
    (forall i, j :: 0 <= i < j < |ix.names| ==> ix.names[i] != ix.names[j])
    && (forall n :: n in ix.triggers ==> n in ix.names)
    && (forall n :: n in ix.names ==> n in ix.triggers)
    && (forall n :: n in ix.triggers ==> ix.triggers[n].name == n)
  }

  /** `indexTriggerFrag(index, trigger, kind, frag)` for a trigger concept whose key is `name`. */
  function Filed(ix: Index, f: Filing): Index
  {
    var t := if f.name in ix.triggers then ix.triggers[f.name] else CreateTrigger(f.name);
    Index(if f.name in ix.triggers then ix.names else ix.names + [f.name],
          ix.triggers[f.name := t.(components := Append(t.components, f.kind, f.frag))])
  }

  /** The filings applied in order. */
  function FileAll(ix: Index, fs: seq<Filing>): Index
    decreases |fs|
  {
    if |fs| == 0 then ix else Filed(FileAll(ix, fs[..|fs| - 1]), fs[|fs| - 1])
  }

  /** Filing two runs of fragments one after the other is filing them together. */
  lemma {:induction false} FileAllAppend(ix: Index, a: seq<Filing>, b: seq<Filing>)
    ensures FileAll(ix, a + b) == FileAll(FileAll(ix, a), b)
    decreases |b|
  {
    if |b| == 0 {
      assert a + b == a;
    } else {
      var init := b[..|b| - 1];
      var f := b[|b| - 1];
      FileAllAppend(ix, a, init);
      Cascade.Associative(a, init, [f]);
      assert b == init + [f];
      Snoc(a + init, f);
      assert FileAll(ix, (a + init) + [f]) == Filed(FileAll(ix, a + init), f);
    }
  }

  /** The fragments filed under `name` as `kind`, in order. */
  function Under(fs: seq<Filing>, name: string, kind: Kind): seq<Concept>
    decreases |fs|
  {
    if |fs| == 0 then []
    else
      var f := fs[|fs| - 1];
      Under(fs[..|fs| - 1], name, kind) + (if f.name == name && f.kind == kind then [f.frag] else [])
  }

  /** The components of `name` in the index, or none if it is not there. */
  function ComponentsOf(ix: Index, name: string, kind: Kind): seq<Concept>
  {
    if name in ix.triggers then Component(ix.triggers[name].components, kind) else []
  }

  /** `indexTriggerFrag` keeps the index well formed and adds its trigger's name at the end if it is new. */
  lemma FiledWellFormed(ix: Index, f: Filing)
    requires WellFormed(ix)
    ensures WellFormed(Filed(ix, f))
    ensures Filed(ix, f).names == if f.name in ix.triggers then ix.names else ix.names + [f.name]
    ensures Filed(ix, f).triggers.Keys == ix.triggers.Keys + {f.name}
  {
  }

  /** `indexTriggerFrag` appends the fragment to the one list it names. */
  lemma FiledComponents(ix: Index, f: Filing, n: string, k: Kind)
    ensures ComponentsOf(Filed(ix, f), n, k) == ComponentsOf(ix, n, k) + (if f.name == n && f.kind == k then [f.frag] else [])
  {
    if n != f.name {
      assert ComponentsOf(ix, n, k) + [] == ComponentsOf(ix, n, k);
    } else if k != f.kind {
      assert ComponentsOf(ix, n, k) + [] == ComponentsOf(ix, n, k);
    }
  }

  /**
   * `indexTriggerFrag` appends the fragment to exactly one component list
   * of the named trigger, creating the trigger at the end of the order if
   * it is new; every other list and every other trigger stays as it was.
   */
  lemma FiledFacts(ix: Index, f: Filing)
    requires WellFormed(ix)
    ensures WellFormed(Filed(ix, f))
    ensures f.name in Filed(ix, f).triggers
    ensures Filed(ix, f).names == if f.name in ix.triggers then ix.names else ix.names + [f.name]
    ensures ComponentsOf(Filed(ix, f), f.name, f.kind) == ComponentsOf(ix, f.name, f.kind) + [f.frag]
    ensures forall n, k :: (n != f.name || k != f.kind) ==> ComponentsOf(Filed(ix, f), n, k) == ComponentsOf(ix, n, k)
    ensures forall n :: n != f.name && n in ix.triggers ==> Filed(ix, f).triggers[n] == ix.triggers[n]
  {
    FiledWellFormed(ix, f);
    FiledComponents(ix, f, f.name, f.kind);
    forall n, k | n != f.name || k != f.kind
      ensures ComponentsOf(Filed(ix, f), n, k) == ComponentsOf(ix, n, k)
    {
      FiledComponents(ix, f, n, k);
    }
  }

  /** The trigger names of the filings. */
  function NamesOf(fs: seq<Filing>): (r: set<string>)
    ensures forall n :: n in r <==> exists i :: 0 <= i < |fs| && fs[i].name == n
  {
    set i | 0 <= i < |fs| :: fs[i].name
  }

  /**
   * Filing in order keeps the index well formed: the names indexed are the
   * old ones and those of the filings, and the old order is kept with the
   * new names after it.
   */
  lemma {:induction false} FileAllNames(ix: Index, fs: seq<Filing>)
    requires WellFormed(ix)
    ensures WellFormed(FileAll(ix, fs))
    ensures FileAll(ix, fs).triggers.Keys == ix.triggers.Keys + NamesOf(fs)
    decreases |fs|
  {
    if |fs| > 0 {
      var init := fs[..|fs| - 1];
      var f := fs[|fs| - 1];
      FileAllNames(ix, init);
      assert FileAll(ix, fs) == Filed(FileAll(ix, init), f);
      FiledWellFormed(FileAll(ix, init), f);
      NamesOfSnoc(fs);
    }
  }

  /** Filing keeps the order of the names already indexed, adding new ones after them. */
  lemma {:induction false} FileAllOrder(ix: Index, fs: seq<Filing>)
    ensures ix.names <= FileAll(ix, fs).names
    decreases |fs|
  {
    if |fs| > 0 {
      var init := fs[..|fs| - 1];
      FileAllOrder(ix, init);
      var before := FileAll(ix, init).names;
      var after := FileAll(ix, fs).names;
      assert before <= after;
      PrefixTransitive(ix.names, before, after);
    }
  }

  lemma NamesOfSnoc(fs: seq<Filing>)
    requires |fs| > 0
    ensures NamesOf(fs) == NamesOf(fs[..|fs| - 1]) + {fs[|fs| - 1].name}
  {
    var init := fs[..|fs| - 1];
    forall n | n in NamesOf(fs)
      ensures n in NamesOf(init) + {fs[|fs| - 1].name}
    {
      var i :| 0 <= i < |fs| && fs[i].name == n;
      if i < |init| {
        assert init[i] == fs[i];
      }
    }
    forall n | n in NamesOf(init)
      ensures n in NamesOf(fs)
    {
      var i :| 0 <= i < |init| && init[i].name == n;
      assert fs[i] == init[i];
    }
  }

  /** Filing in order: each component list is the old one followed by the fragments filed under that name and kind, in order. */
  lemma {:induction false} FileAllComponents(ix: Index, fs: seq<Filing>, n: string, k: Kind)
    ensures ComponentsOf(FileAll(ix, fs), n, k) == ComponentsOf(ix, n, k) + Under(fs, n, k)
    decreases |fs|
  {
    if |fs| == 0 {
      assert ComponentsOf(ix, n, k) + [] == ComponentsOf(ix, n, k);
    } else {
      var init := fs[..|fs| - 1];
      var f := fs[|fs| - 1];
      FileAllComponents(ix, init, n, k);
      FiledComponents(FileAll(ix, init), f, n, k);
      var extra := if f.name == n && f.kind == k then [f.frag] else [];
      assert Under(fs, n, k) == Under(init, n, k) + extra;
      assert ComponentsOf(FileAll(ix, fs), n, k) == ComponentsOf(FileAll(ix, init), n, k) + extra;
      Cascade.Associative(ComponentsOf(ix, n, k), Under(init, n, k), extra);
    }
  }

  /** `Object.values(index)`: the triggers in name order. */
  function Values(ix: Index): (r: seq<Trigger>)
    requires forall n :: n in ix.names ==> n in ix.triggers
  {
    seq(|ix.names|, i requires 0 <= i < |ix.names| => ix.triggers[ix.names[i]])
  }

  /** The triggers of an index carry pairwise-distinct names, and every indexed trigger is among them. */
  lemma ValuesDistinct(ix: Index)
    requires WellFormed(ix)
    ensures forall i, j :: 0 <= i < j < |Values(ix)| ==> Values(ix)[i].name != Values(ix)[j].name
    ensures forall n :: n in ix.triggers ==> ix.triggers[n] in Values(ix)
  {
    forall n | n in ix.triggers
      ensures ix.triggers[n] in Values(ix)
    {
      var i :| 0 <= i < |ix.names| && ix.names[i] == n;
      assert Values(ix)[i] == ix.triggers[n];
    }
  }

  /** The index object that `indexTriggerFrag` updates in place. */
  class TriggerIndex {
    var names: seq<string>
    var triggers: map<string, Trigger>

    constructor()
      ensures names == [] && triggers == map[]
    {
      names := [];
      triggers := map[];
    }

    function Snapshot(): Index
      reads this
    {
      Index(names, triggers)
    }

    /** `indexTriggerFrag(index, triggerConcept, kind, frag)`. */
    method IndexTriggerFrag(triggerConcept: Concept, kind: Kind, frag: Concept)
      modifies this
      ensures Snapshot() == Filed(old(Snapshot()), Filing(Key(triggerConcept), kind, frag))
    {
      var name := Key(triggerConcept);
      var trigger := if name in triggers then triggers[name] else CreateTrigger(name);
      if name !in triggers {
        names := names + [name];
      }
      triggers := triggers[name := trigger.(components := Append(trigger.components, kind, frag))];
    }
  }

  /** `buildTriggerIndex(frags)`. */
  method BuildTriggerIndex(frags: seq<Concept>) returns (index: TriggerIndex)
    ensures fresh(index)
    ensures index.Snapshot() == FileAll(EmptyIndex, Filings(frags))
  {
    index := new TriggerIndex();
    var i := 0;
    while i < |frags|
      invariant 0 <= i <= |frags|
      invariant index.Snapshot() == FileAll(EmptyIndex, Filings(frags[..i]))
    {
      assert frags[..i + 1][..i] == frags[..i];
      ghost var fs := Filings(frags[..i]);
      assert Filings(frags[..i + 1]) == fs + (if FilingOf(frags[i]).Some? then [FilingOf(frags[i]).value] else []);
      var parts := FragParts(frags[i]);
      if parts.Some? {
        var (trigger, componentType, component) := parts.value;
        var kind := KindOf(Key(componentType));
        if kind.Some? {
          ghost var f := Filing(Key(trigger), kind.value, component);
          assert FilingOf(frags[i]) == Some(f);
          index.IndexTriggerFrag(trigger, kind.value, component);
          Snoc(fs, f);
        } else {
          assert FilingOf(frags[i]).None?;
          Snoc(fs, Filing("", Matches, FragPattern));
        }
      } else {
        assert FilingOf(frags[i]).None?;
        Snoc(fs, Filing("", Matches, FragPattern));
      }
      i := i + 1;
    }
    assert frags[..|frags|] == frags;
  }

  /**
   * `buildTriggerIndex` indexes exactly the triggers some well-shaped
   * fragment of a known type names; each component list is those
   * fragments' components in order, so a malformed concept or an unknown
   * type adds nothing, and a trigger with no `@matches` fragment is still
   * there with no clauses.
   */
  lemma BuildTriggerIndexMeaning(frags: seq<Concept>, n: string, k: Kind)
    ensures WellFormed(FileAll(EmptyIndex, Filings(frags)))
    ensures FileAll(EmptyIndex, Filings(frags)).triggers.Keys == NamesOf(Filings(frags))
    ensures ComponentsOf(FileAll(EmptyIndex, Filings(frags)), n, k) == Under(Filings(frags), n, k)
  {
    FileAllNames(EmptyIndex, Filings(frags));
    FileAllComponents(EmptyIndex, Filings(frags), n, k);
  }

  /** A concept files something exactly when it is one of the filings' sources, in order. */
  lemma {:induction false} FilingsMeaning(cs: seq<Concept>, f: Filing)
    ensures f in Filings(cs) <==> exists c :: c in cs && FilingOf(c) == Some(f)
    decreases |cs|
  {
    if |cs| > 0 {
      var init := cs[..|cs| - 1];
      FilingsMeaning(init, f);
      assert cs == init + [cs[|cs| - 1]];
      if exists c :: c in cs && FilingOf(c) == Some(f) {
        var c :| c in cs && FilingOf(c) == Some(f);
        if c in init {
        } else {
          assert c == cs[|cs| - 1];
        }
      }
    }
  }

  // Separating fragments.

  /** The names of `ComponentType`'s members, the list `separateTriggerFrags` tests against. */
  const MemberNames := ["matches", "adds", "notifies", "removes"]

  /** The values of `ComponentType`. */
  const MemberValues := ["@matches", "@adds", "@notifies", "@removes"]

  /** The test of `separateTriggerFrags`: shaped `t [type c]` with the key of `type` among `directives`. */
  predicate IsFrag(c: Concept, directives: seq<string>)
  {
    Nested(c).Some? && Key(Nested(c).value.1) in directives
  }

  /**
   * `separateTriggerFrags(concepts)`, with the list it tests component
   * types against: `MemberNames` as written, `MemberValues` corrected.
   */
  method SeparateTriggerFrags(concepts: seq<Concept>, directives: seq<string>) returns (frags: seq<Concept>, nonFrags: seq<Concept>)
    ensures frags == Keep(concepts, c => IsFrag(c, directives))
    ensures nonFrags == Keep(concepts, c => !IsFrag(c, directives))
  {
    frags := [];
    nonFrags := [];
    var i := 0;
    while i < |concepts|
      invariant 0 <= i <= |concepts|
      invariant frags == Keep(concepts[..i], c => IsFrag(c, directives))
      invariant nonFrags == Keep(concepts[..i], c => !IsFrag(c, directives))
    {
      assert concepts[..i + 1][..i] == concepts[..i];
      var parts := FragParts(concepts[i]);
      if parts.None? || Key(parts.value.1) !in directives {
        nonFrags := nonFrags + [concepts[i]];
      } else {
        frags := frags + [concepts[i]];
      }
      i := i + 1;
    }
    assert concepts[..|concepts|] == concepts;
  }

  /** Each concept lands in exactly one of the two lists, and together they are the input. */
  lemma SeparatePartition(concepts: seq<Concept>, directives: seq<string>)
    ensures multiset(Keep(concepts, c => IsFrag(c, directives))) + multiset(Keep(concepts, c => !IsFrag(c, directives)))
      == multiset(concepts)
    ensures forall c :: c in concepts ==> (c in Keep(concepts, c => IsFrag(c, directives)) <==> c !in Keep(concepts, c => !IsFrag(c, directives)))
  {
    KeepSplit(concepts, c => IsFrag(c, directives), c => !IsFrag(c, directives));
  }

  /**
   * As written, `separateTriggerFrags` takes a concept for a fragment only
   * when its type key is a member name such as `matches`, a type
   * `buildTriggerIndex` does not know: none of its fragments files
   * anything, and a real fragment `t [@matches r]` is left among the
   * other concepts.
   */
  lemma MemberNamesFileNothing(concepts: seq<Concept>)
    ensures forall c :: IsFrag(c, MemberNames) ==> FilingOf(c).None?
    ensures Filings(Keep(concepts, c => IsFrag(c, MemberNames))) == []
  {
    forall c | IsFrag(c, MemberNames)
      ensures FilingOf(c).None?
    {
      NameKeyUnknown(Key(Nested(c).value.1));
    }
    FilingsNone(Keep(concepts, c => IsFrag(c, MemberNames)));
  }

  /** Every concept `buildTriggerIndex` would file is left among the non-fragments. */
  lemma FragsLeftBehind(concepts: seq<Concept>, c: Concept)
    requires c in concepts && FilingOf(c).Some?
    ensures c in Keep(concepts, c => !IsFrag(c, MemberNames))
  {
    if IsFrag(c, MemberNames) {
      NameKeyUnknown(Key(Nested(c).value.1));
    }
  }

  lemma NameKeyUnknown(k: string)
    requires k in MemberNames
    ensures KindOf(k).None?
  {
  }

  /** A fragment `t [@matches r]` from the test suite's shape. */
  lemma MatchesFragSkipped()
    ensures var c := Compound([Atom("t"), Compound([Atom("@matches"), Atom("r")])]);
      FilingOf(c) == Some(Filing("t", Matches, Atom("r"))) && !IsFrag(c, MemberNames) && IsFrag(c, MemberValues)
  {
    var c := Compound([Atom("t"), Compound([Atom("@matches"), Atom("r")])]);
    assert Nested(c) == Some((Atom("t"), Atom("@matches"), Atom("r")));
    assert "@matches" !in MemberNames;
  }

  /**
   * Tested against the values of `ComponentType`, the fragments are
   * exactly the concepts `buildTriggerIndex` files, so the index of the
   * fragments alone is the index of all the concepts.
   */
  lemma MemberValuesSeparateFilings(concepts: seq<Concept>)
    ensures forall c :: IsFrag(c, MemberValues) <==> FilingOf(c).Some?
    ensures Filings(Keep(concepts, c => IsFrag(c, MemberValues))) == Filings(concepts)
    ensures Filings(Keep(concepts, c => !IsFrag(c, MemberValues))) == []
  {
    forall c
      ensures IsFrag(c, MemberValues) <==> FilingOf(c).Some?
    {
      if Nested(c).Some? {
        var k := Key(Nested(c).value.1);
        assert k in MemberValues <==> KindOf(k).Some?;
      }
    }
    FilingsKeep(concepts, c => IsFrag(c, MemberValues));
    FilingsNone(Keep(concepts, c => !IsFrag(c, MemberValues)));
  }

  lemma {:induction false} FilingsKeep(cs: seq<Concept>, keep: Concept -> bool)
    requires forall c :: keep(c) <==> FilingOf(c).Some?
    ensures Filings(Keep(cs, keep)) == Filings(cs)
    decreases |cs|
  {
    if |cs| > 0 {
      var init := cs[..|cs| - 1];
      var last := cs[|cs| - 1];
      FilingsKeep(init, keep);
      assert Keep(cs, keep) == Keep(init, keep) + (if keep(last) then [last] else []);
      assert Filings(cs) == Filings(init) + (if FilingOf(last).Some? then [FilingOf(last).value] else []);
      if keep(last) {
        var k := Keep(init, keep) + [last];
        assert k[..|k| - 1] == Keep(init, keep);
        assert Filings(k) == Filings(Keep(init, keep)) + [FilingOf(last).value];
        assert Filings(Keep(cs, keep)) == Filings(cs);
      } else {
        assert FilingOf(last).None?;
        assert Filings(cs) == Filings(init);
        assert Keep(cs, keep) == Keep(init, keep);
      }
    }
  }

  lemma {:induction false} FilingsNone(cs: seq<Concept>)
    requires forall c :: c in cs ==> FilingOf(c).None?
    ensures Filings(cs) == []
    decreases |cs|
  {
    if |cs| > 0 {
      assert cs[|cs| - 1] in cs;
      assert forall c :: c in cs[..|cs| - 1] ==> c in cs;
      FilingsNone(cs[..|cs| - 1]);
    }
  }

  // Matching a batch of concepts.

  /** `variablesContainVariables(variables)`: every value is a variable, vacuously so for no bindings. */
  predicate AllVariables(variables: Bindings)
  {
    forall k :: k in variables ==> IsVariable(variables[k])
  }

  /** `isFullMatch(partial)`. */
  predicate IsFullMatch(p: Partial)
  {
    |p.rules| == |p.trigger.components.matches| && !AllVariables(p.variables)
  }

  /**
   * The empty bindings contain only variables, so a partial that binds
   * nothing is never a full match; a partial with as many clauses as its
   * trigger is full once one value is not a variable.
   */
  lemma FullMatchCases(p: Partial)
    ensures AllVariables(map[])
    ensures p.variables == map[] ==> !IsFullMatch(p)
    ensures IsFullMatch(p) <==>
      |p.rules| == |p.trigger.components.matches| && exists k :: k in p.variables && !IsVariable(p.variables[k])
  {
  }

  /** What `variableDictsAreComplimentary(a, b)` answers, with `same` standing for `===` on the values. */
  predicate Complimentary(a: Bindings, b: Bindings, same: (Concept, Concept) -> bool)
  {
    (forall k :: k in a && k in b ==> same(a[k], b[k])) && exists k :: k in a && k in b
  }

  /** `variableDictsAreComplimentary(a, b)`: the keys of `a` in any order, counting the shared ones. */
  method VariableDictsAreComplimentary(a: Bindings, b: Bindings, same: (Concept, Concept) -> bool) returns (r: bool)
    ensures r == Complimentary(a, b, same)
  {
    var sharedKeys := 0;
    var rest := a.Keys;
    while rest != {}
      invariant rest <= a.Keys
      invariant forall k :: k in a && k !in rest && k in b ==> same(a[k], b[k])
      invariant sharedKeys > 0 <==> exists k :: k in a && k !in rest && k in b
      decreases |rest|
    {
      var key :| key in rest;
      if key in b {
        if !same(a[key], b[key]) {
          return false;
        }
        sharedKeys := sharedKeys + 1;
      }
      rest := rest - {key};
    }
    r := sharedKeys > 0;
  }

  /**
   * When `same` implies equal values, complimentary bindings agree on every
   * shared name, so merging them in either order gives the same bindings;
   * for a symmetric `same` the test itself is symmetric.
   */
  lemma ComplimentaryMerge(a: Bindings, b: Bindings, same: (Concept, Concept) -> bool)
    requires forall x, y :: same(x, y) ==> x == y
    ensures Complimentary(a, b, same) ==> a + b == b + a
    ensures (forall x, y :: same(x, y) == same(y, x)) ==> Complimentary(a, b, same) == Complimentary(b, a, same)
  {
    if Complimentary(a, b, same) {
      forall k | k in a && k in b
        ensures a[k] == b[k]
      {
        assert same(a[k], b[k]);
      }
    }
  }

  /** Which partials a new partial is merged with. */
  datatype Pass =
    /** As written: the list it was just pushed onto, itself included. */
    WithItself
    /** Corrected: the partials that were there before it. */
  | OthersOnly

  /** The state of `extractTriggerMatches`: the full matches so far and `partialIndex`, with its names in insertion order. */
  datatype Found = Found(matches: seq<TriggerMatch>, names: seq<string>, partials: map<string, seq<Partial>>)

  const NothingFound := Found([], [], map[])

  /**
   * The inner `forEach`: the new partial merged with each complimentary one
   * of `others`, in order; the merges that are full become matches, the
   * others new partials.
   */
  function Merge(t: Trigger, rule: Concept, variables: Bindings, others: seq<Partial>, same: (Concept, Concept) -> bool)
    : (seq<TriggerMatch>, seq<Partial>)
    decreases |others|
  {
    if |others| == 0 then ([], [])
    else
      var (ms, ps) := Merge(t, rule, variables, others[..|others| - 1], same);
      var other := others[|others| - 1];
      if !Complimentary(variables, other.variables, same) then (ms, ps)
      else
        var merged := Partial(t, other.variables + variables, other.rules + [rule]);
        if IsFullMatch(merged) then (ms + [TriggerMatch(t, merged.variables)], ps) else (ms, ps + [merged])
  }

  /** One clause `rule` of trigger `t` tried against `concept`. */
  function Consider(f: Found, concept: Concept, t: Trigger, rule: Concept, same: (Concept, Concept) -> bool, pass: Pass): Found
  {
    match Match(concept, rule)
    case None => f
    case Some(variables) =>
      var listed := t.name in f.partials;
      var names := if listed then f.names else f.names + [t.name];
      var list := if listed then f.partials[t.name] else [];
      var partial := Partial(t, variables, [rule]);
      if IsFullMatch(partial) then
        Found(f.matches + [TriggerMatch(t, variables)], names, f.partials[t.name := list])
      else
        var pushed := list + [partial];
        var (ms, ps) := Merge(t, rule, variables, if pass == WithItself then pushed else list, same);
        Found(f.matches + ms, names, f.partials[t.name := pushed + ps])
  }

  /** The loop over one trigger's clauses. */
  function OverRules(f: Found, concept: Concept, t: Trigger, rules: seq<Concept>, same: (Concept, Concept) -> bool, pass: Pass): Found
    decreases |rules|
  {
    if |rules| == 0 then f
    else Consider(OverRules(f, concept, t, rules[..|rules| - 1], same, pass), concept, t, rules[|rules| - 1], same, pass)
  }

  /** The loop over the triggers for one concept. */
  function OverTriggers(f: Found, concept: Concept, ts: seq<Trigger>, same: (Concept, Concept) -> bool, pass: Pass): Found
    decreases |ts|
  {
    if |ts| == 0 then f
    else
      var t := ts[|ts| - 1];
      OverRules(OverTriggers(f, concept, ts[..|ts| - 1], same, pass), concept, t, t.components.matches, same, pass)
  }

  /** The loop over the concepts. */
  function OverConcepts(f: Found, ts: seq<Trigger>, cs: seq<Concept>, same: (Concept, Concept) -> bool, pass: Pass): Found
    decreases |cs|
  {
    if |cs| == 0 then f
    else OverTriggers(OverConcepts(f, ts, cs[..|cs| - 1], same, pass), cs[|cs| - 1], ts, same, pass)
  }

  /** `Object.values(partialIndex).flat()`. */
  function Flat(names: seq<string>, partials: map<string, seq<Partial>>): seq<Partial>
    decreases |names|
  {
    if |names| == 0 then []
    else
      var n := names[|names| - 1];
      Flat(names[..|names| - 1], partials) + (if n in partials then partials[n] else [])
  }

  /** The full matches and the partials `extractTriggerMatches(triggers, concepts)` returns. */
  function Extracted(triggers: seq<Trigger>, concepts: seq<Concept>, same: (Concept, Concept) -> bool, pass: Pass)
    : (seq<TriggerMatch>, seq<Partial>)
  {
    var f := OverConcepts(NothingFound, triggers, concepts, same, pass);
    (f.matches, Flat(f.names, f.partials))
  }

  /** The inner `forEach` over the first `count` partials of `list`, pushing its new partials onto `list`. */
  method MergeInto(t: Trigger, rule: Concept, variables: Bindings, list: seq<Partial>, count: nat, same: (Concept, Concept) -> bool)
    returns (fullMatches: seq<TriggerMatch>, grown: seq<Partial>)
    requires count <= |list|
    ensures fullMatches == Merge(t, rule, variables, list[..count], same).0
    ensures grown == list + Merge(t, rule, variables, list[..count], same).1
  {
    fullMatches := [];
    grown := list;
    ghost var others := list[..count];
    for m := 0 to count
      invariant fullMatches == Merge(t, rule, variables, others[..m], same).0
      invariant grown == list + Merge(t, rule, variables, others[..m], same).1
    {
      assert others[..m + 1][..m] == others[..m];
      var otherPartial := grown[m];
      assert otherPartial == others[m];
      var isComplimentary := VariableDictsAreComplimentary(variables, otherPartial.variables, same);
      if isComplimentary {
        var mergedPartial := Partial(t, otherPartial.variables + variables, otherPartial.rules + [rule]);
        if IsFullMatch(mergedPartial) {
          fullMatches := fullMatches + [TriggerMatch(t, mergedPartial.variables)];
        } else {
          grown := grown + [mergedPartial];
        }
      }
    }
    assert others[..count] == others;
  }

  /** The body of the clause loop: `rule` of `t` against `concept`. */
  method ConsiderRule(f: Found, concept: Concept, t: Trigger, rule: Concept, same: (Concept, Concept) -> bool, pass: Pass)
    returns (r: Found)
    ensures r == Consider(f, concept, t, rule, same, pass)
  {
    var variables := MatchPattern(concept, rule);
    if variables.None? {
      return f;
    }
    var fullMatches := f.matches;
    var names := f.names;
    var triggerPartials := if t.name in f.partials then f.partials[t.name] else [];
    if t.name !in f.partials {
      names := names + [t.name];
    }
    var partial := Partial(t, variables.value, [rule]);
    if IsFullMatch(partial) {
      return Found(fullMatches + [TriggerMatch(t, variables.value)], names, f.partials[t.name := triggerPartials]);
    }
    triggerPartials := triggerPartials + [partial];
    // `forEach` visits the elements present when it starts.
    var count := if pass == WithItself then |triggerPartials| else |triggerPartials| - 1;
    ghost var list := triggerPartials[..|triggerPartials| - 1];
    assert triggerPartials[..count] == if pass == WithItself then triggerPartials else list;
    var merged;
    merged, triggerPartials := MergeInto(t, rule, variables.value, triggerPartials, count, same);
    fullMatches := fullMatches + merged;
    r := Found(fullMatches, names, f.partials[t.name := triggerPartials]);
  }

  /**
   * `extractTriggerMatches(triggers, concepts)`, merging each new partial
   * as `pass` says.
   */
  method ExtractTriggerMatches(triggers: seq<Trigger>, concepts: seq<Concept>, same: (Concept, Concept) -> bool, pass: Pass)
    returns (matches: seq<TriggerMatch>, partials: seq<Partial>)
    ensures (matches, partials) == Extracted(triggers, concepts, same, pass)
  {
    var found := NothingFound;
    for i := 0 to |concepts|
      invariant found == OverConcepts(NothingFound, triggers, concepts[..i], same, pass)
    {
      assert concepts[..i + 1][..i] == concepts[..i];
      var concept := concepts[i];
      ghost var before := found;
      for j := 0 to |triggers|
        invariant found == OverTriggers(before, concept, triggers[..j], same, pass)
      {
        assert triggers[..j + 1][..j] == triggers[..j];
        var trigger := triggers[j];
        var rules := trigger.components.matches;
        ghost var start := found;
        for k := 0 to |rules|
          invariant found == OverRules(start, concept, trigger, rules[..k], same, pass)
        {
          assert rules[..k + 1][..k] == rules[..k];
          found := ConsiderRule(found, concept, trigger, rules[k], same, pass);
        }
        assert rules[..|rules|] == rules;
      }
      assert triggers[..|triggers|] == triggers;
    }
    assert concepts[..|concepts|] == concepts;
    matches := found.matches;
    partials := Flat(found.names, found.partials);
  }

  /** Trying a clause only adds matches after the ones found so far. */
  lemma ConsiderGrows(f: Found, concept: Concept, t: Trigger, rule: Concept, same: (Concept, Concept) -> bool, pass: Pass)
    ensures f.matches <= Consider(f, concept, t, rule, same, pass).matches
  {
  }

  lemma {:induction false} RulesGrow(f: Found, concept: Concept, t: Trigger, rules: seq<Concept>, same: (Concept, Concept) -> bool, pass: Pass)
    ensures f.matches <= OverRules(f, concept, t, rules, same, pass).matches
    decreases |rules|
  {
    if |rules| > 0 {
      var init := rules[..|rules| - 1];
      var g := OverRules(f, concept, t, init, same, pass);
      RulesGrow(f, concept, t, init, same, pass);
      ConsiderGrows(g, concept, t, rules[|rules| - 1], same, pass);
      PrefixTransitive(f.matches, g.matches, OverRules(f, concept, t, rules, same, pass).matches);
    }
  }

  /** The matches found for the `j`-th trigger are kept to the end of the trigger loop. */
  lemma {:induction false} TriggersFrom(f: Found, concept: Concept, ts: seq<Trigger>, j: nat, same: (Concept, Concept) -> bool, pass: Pass)
    requires j < |ts|
    ensures OverRules(OverTriggers(f, concept, ts[..j], same, pass), concept, ts[j], ts[j].components.matches, same, pass).matches
      <= OverTriggers(f, concept, ts, same, pass).matches
    decreases |ts|
  {
    var init := ts[..|ts| - 1];
    if j < |ts| - 1 {
      assert init[..j] == ts[..j] && init[j] == ts[j];
      TriggersFrom(f, concept, init, j, same, pass);
      var g := OverTriggers(f, concept, init, same, pass);
      var t := ts[|ts| - 1];
      RulesGrow(g, concept, t, t.components.matches, same, pass);
      PrefixTransitive(
        OverRules(OverTriggers(f, concept, ts[..j], same, pass), concept, ts[j], ts[j].components.matches, same, pass).matches,
        g.matches, OverTriggers(f, concept, ts, same, pass).matches);
    }
  }

  lemma {:induction false} TriggersGrow(f: Found, concept: Concept, ts: seq<Trigger>, same: (Concept, Concept) -> bool, pass: Pass)
    ensures f.matches <= OverTriggers(f, concept, ts, same, pass).matches
    decreases |ts|
  {
    if |ts| > 0 {
      var init := ts[..|ts| - 1];
      var g := OverTriggers(f, concept, init, same, pass);
      var t := ts[|ts| - 1];
      TriggersGrow(f, concept, init, same, pass);
      RulesGrow(g, concept, t, t.components.matches, same, pass);
      PrefixTransitive(f.matches, g.matches, OverTriggers(f, concept, ts, same, pass).matches);
    }
  }

  /** The matches found for the `i`-th concept are kept to the end of the concept loop. */
  lemma {:induction false} ConceptsFrom(f: Found, ts: seq<Trigger>, cs: seq<Concept>, i: nat, same: (Concept, Concept) -> bool, pass: Pass)
    requires i < |cs|
    ensures OverTriggers(OverConcepts(f, ts, cs[..i], same, pass), cs[i], ts, same, pass).matches
      <= OverConcepts(f, ts, cs, same, pass).matches
    decreases |cs|
  {
    var init := cs[..|cs| - 1];
    if i < |cs| - 1 {
      assert init[..i] == cs[..i] && init[i] == cs[i];
      ConceptsFrom(f, ts, init, i, same, pass);
      var g := OverConcepts(f, ts, init, same, pass);
      TriggersGrow(g, cs[|cs| - 1], ts, same, pass);
      PrefixTransitive(
        OverTriggers(OverConcepts(f, ts, cs[..i], same, pass), cs[i], ts, same, pass).matches,
        g.matches, OverConcepts(f, ts, cs, same, pass).matches);
    }
  }

  /**
   * A trigger with one clause fires, with the clause's bindings, for every
   * concept the clause matches with some value that is not a variable.
   */
  lemma SingleClauseFullMatch(triggers: seq<Trigger>, concepts: seq<Concept>, same: (Concept, Concept) -> bool, pass: Pass,
                              i: nat, j: nat, variables: Bindings)
    requires i < |concepts| && j < |triggers|
    requires |triggers[j].components.matches| == 1
    requires Match(concepts[i], triggers[j].components.matches[0]) == Some(variables)
    requires !AllVariables(variables)
    ensures TriggerMatch(triggers[j], variables) in Extracted(triggers, concepts, same, pass).0
  {
    var t := triggers[j];
    var rules := t.components.matches;
    var f := OverTriggers(OverConcepts(NothingFound, triggers, concepts[..i], same, pass), concepts[i], triggers[..j], same, pass);
    assert rules[..|rules| - 1] == [];
    assert OverRules(f, concepts[i], t, rules[..|rules| - 1], same, pass) == f;
    var g := OverRules(f, concepts[i], t, rules, same, pass);
    assert g == Consider(f, concepts[i], t, rules[0], same, pass);
    assert TriggerMatch(t, variables) in g.matches;
    TriggersFrom(OverConcepts(NothingFound, triggers, concepts[..i], same, pass), concepts[i], triggers, j, same, pass);
    var h := OverTriggers(OverConcepts(NothingFound, triggers, concepts[..i], same, pass), concepts[i], triggers, same, pass);
    ConceptsFrom(NothingFound, triggers, concepts, i, same, pass);
    PrefixTransitive(g.matches, h.matches, OverConcepts(NothingFound, triggers, concepts, same, pass).matches);
  }

  /** One trigger tried against one concept is its clause loop. */
  lemma SingleExtracted(t: Trigger, c: Concept, same: (Concept, Concept) -> bool, pass: Pass)
    ensures Extracted([t], [c], same, pass).0 == OverRules(NothingFound, c, t, t.components.matches, same, pass).matches
  {
    assert [c][..0] == [] && [t][..0] == [];
    assert OverConcepts(NothingFound, [t], [c], same, pass) == OverTriggers(NothingFound, c, [t], same, pass);
  }

  // A two-clause trigger and a concept that matches only its first clause.
  const Sings := Compound([Atom("$p"), Atom("sings")])
  const Dances := Compound([Atom("$p"), Atom("dances")])
  const AnnSings := Compound([Atom("ann"), Atom("sings")])
  const SingerDancer := Trigger("t", Components([Sings, Dances], [], [], []))

  lemma AnnSingsMatches()
    ensures Match(AnnSings, Sings) == Some(map["$p" := Atom("ann")])
    ensures Match(AnnSings, Dances).None?
    ensures !AllVariables(map["$p" := Atom("ann")])
  {
    var v := map["$p" := Atom("ann")];
    assert IsPattern(Sings) by { assert IsVariable(Parts(Sings)[0]); }
    assert IsPattern(Dances) by { assert IsVariable(Parts(Dances)[0]); }
    assert [Atom("ann"), Atom("sings")][..1] == [Atom("ann")] && [Atom("ann")][..0] == [];
    assert [Atom("$p"), Atom("sings")][..1] == [Atom("$p")] && [Atom("$p")][..0] == [];
    assert [Atom("$p"), Atom("dances")][..1] == [Atom("$p")];
    assert MatchParts([Atom("ann")], [Atom("$p")]) == Some(map[] + v);
    assert map[] + v == v && v + map[] == v;
    assert Key(Atom("sings")) != Key(Atom("dances"));
    assert !IsVariable(v["$p"]);
  }

  /** The clause loop for the example: the second clause changes nothing. */
  lemma SingerDancerLoop(same: (Concept, Concept) -> bool, pass: Pass)
    ensures Extracted([SingerDancer], [AnnSings], same, pass).0
      == Consider(NothingFound, AnnSings, SingerDancer, Sings, same, pass).matches
  {
    SingleExtracted(SingerDancer, AnnSings, same, pass);
    AnnSingsMatches();
    assert [Sings, Dances][..1] == [Sings] && [Sings][..0] == [];
    assert OverRules(NothingFound, AnnSings, SingerDancer, [], same, pass) == NothingFound;
    var f := OverRules(NothingFound, AnnSings, SingerDancer, [Sings], same, pass);
    assert f == Consider(NothingFound, AnnSings, SingerDancer, Sings, same, pass);
  }

  /** Merging with a single partial. */
  lemma MergeOne(t: Trigger, rule: Concept, variables: Bindings, other: Partial, same: (Concept, Concept) -> bool)
    ensures
      var merged := Partial(t, other.variables + variables, other.rules + [rule]);
      Merge(t, rule, variables, [other], same)
      == if !Complimentary(variables, other.variables, same) then ([], [])
         else if IsFullMatch(merged) then ([TriggerMatch(t, merged.variables)], [])
         else ([], [merged])
  {
    var others := [other];
    assert others[..|others| - 1] == [] && others[|others| - 1] == other;
    assert Merge(t, rule, variables, [], same) == ([], []);
    var noMatches: seq<TriggerMatch> := [];
    var noPartials: seq<Partial> := [];
    assert noMatches + [TriggerMatch(t, other.variables + variables)] == [TriggerMatch(t, other.variables + variables)];
    assert noPartials + [Partial(t, other.variables + variables, other.rules + [rule])]
      == [Partial(t, other.variables + variables, other.rules + [rule])];
  }

  /**
   * As written, a new partial is merged with itself: a two-clause trigger
   * fires on a single concept that matches only its first clause, with
   * that clause's bindings. Merging with the partials before it, it does
   * not fire.
   */
  lemma SelfMergeCompletes(same: (Concept, Concept) -> bool)
    requires forall x :: same(x, x)
    ensures Match(AnnSings, Dances).None?
    ensures Extracted([SingerDancer], [AnnSings], same, WithItself).0 == [TriggerMatch(SingerDancer, map["$p" := Atom("ann")])]
    ensures Extracted([SingerDancer], [AnnSings], same, OthersOnly).0 == []
  {
    var v := map["$p" := Atom("ann")];
    AnnSingsMatches();
    SingerDancerLoop(same, WithItself);
    SingerDancerLoop(same, OthersOnly);
    var p1 := Partial(SingerDancer, v, [Sings]);
    assert Complimentary(v, v, same) by { assert "$p" in v; }
    assert v + v == v;
    MergeOne(SingerDancer, Sings, v, p1, same);
    assert p1.rules + [Sings] == [Sings, Sings] && p1.variables + v == v;
    assert IsFullMatch(Partial(SingerDancer, v, [Sings, Sings]));
    assert Merge(SingerDancer, Sings, v, [p1], same) == ([TriggerMatch(SingerDancer, v)], []);
  }

  /** How many of `rules` the concept matches. */
  function MatchedCount(c: Concept, rules: seq<Concept>): (n: nat)
    ensures n <= |rules|
    decreases |rules|
  {
    if |rules| == 0 then 0
    else MatchedCount(c, rules[..|rules| - 1]) + (if Match(c, rules[|rules| - 1]).Some? then 1 else 0)
  }

  /** A concept that matches as many of the rules as there are matches every one of them. */
  lemma {:induction false} AllMatched(c: Concept, rules: seq<Concept>)
    requires MatchedCount(c, rules) == |rules|
    ensures forall r :: r in rules ==> Match(c, r).Some?
    decreases |rules|
  {
    if |rules| > 0 {
      var init := rules[..|rules| - 1];
      assert MatchedCount(c, init) <= |init|;
      AllMatched(c, init);
      assert rules == init + [rules[|rules| - 1]];
    }
  }

  /** The partials indexed under a name. */
  function PartialsOf(f: Found, name: string): seq<Partial>
  {
    if name in f.partials then f.partials[name] else []
  }

  /** No partial of `t` has more than `bound` clauses, and `t` has been matched only if it has no more than `bound` clauses. */
  predicate Bounded(f: Found, t: Trigger, bound: nat)
  {
    && (forall p :: p in PartialsOf(f, t.name) ==> |p.rules| <= bound)
    && (forall m :: m in f.matches ==> |t.components.matches| <= bound)
  }

  /** A merge adds one clause to the partial it merges with. */
  lemma {:induction false} MergeBound(t: Trigger, rule: Concept, variables: Bindings, others: seq<Partial>,
                                      same: (Concept, Concept) -> bool, bound: nat)
    requires forall p :: p in others ==> |p.rules| <= bound
    ensures forall p :: p in Merge(t, rule, variables, others, same).1 ==> |p.rules| <= bound + 1
    ensures forall m :: m in Merge(t, rule, variables, others, same).0 ==> |t.components.matches| <= bound + 1
    decreases |others|
  {
    if |others| > 0 {
      var init := others[..|others| - 1];
      assert forall p :: p in init ==> p in others;
      MergeBound(t, rule, variables, init, same, bound);
      assert others[|others| - 1] in others;
    }
  }

  /** Corrected, each clause a concept matches adds at most one clause to the partials of its trigger. */
  lemma ConsiderBound(f: Found, c: Concept, t: Trigger, rules: seq<Concept>, k: nat, same: (Concept, Concept) -> bool)
    requires k < |rules|
    requires Bounded(f, t, MatchedCount(c, rules[..k]))
    ensures Bounded(Consider(f, c, t, rules[k], same, OthersOnly), t, MatchedCount(c, rules[..k + 1]))
  {
    assert rules[..k + 1][..k] == rules[..k];
    var bound := MatchedCount(c, rules[..k]);
    var g := Consider(f, c, t, rules[k], same, OthersOnly);
    match Match(c, rules[k])
    case None =>
      assert g == f;
    case Some(variables) =>
      assert MatchedCount(c, rules[..k + 1]) == bound + 1;
      var list := PartialsOf(f, t.name);
      var partial := Partial(t, variables, [rules[k]]);
      if !IsFullMatch(partial) {
        var (ms, ps) := Merge(t, rules[k], variables, list, same);
        MergeBound(t, rules[k], variables, list, same, bound);
        assert g.matches == f.matches + ms;
        assert PartialsOf(g, t.name) == list + [partial] + ps;
      }
  }

  lemma {:induction false} RulesBound(c: Concept, t: Trigger, k: nat, same: (Concept, Concept) -> bool)
    requires k <= |t.components.matches|
    ensures
      var rules := t.components.matches;
      Bounded(OverRules(NothingFound, c, t, rules[..k], same, OthersOnly), t, MatchedCount(c, rules[..k]))
  {
    var rules := t.components.matches;
    if k > 0 {
      RulesBound(c, t, k - 1, same);
      assert rules[..k][..k - 1] == rules[..k - 1] && rules[..k][k - 1] == rules[k - 1];
      ConsiderBound(OverRules(NothingFound, c, t, rules[..k - 1], same, OthersOnly), c, t, rules, k - 1, same);
    }
  }

  /**
   * Corrected, a trigger fires on a single concept only when the concept
   * matches every one of its clauses.
   */
  lemma OneConceptFullMatch(t: Trigger, c: Concept, same: (Concept, Concept) -> bool)
    ensures forall m :: m in Extracted([t], [c], same, OthersOnly).0 ==>
      forall r :: r in t.components.matches ==> Match(c, r).Some?
  {
    var rules := t.components.matches;
    assert rules[..|rules|] == rules;
    SingleExtracted(t, c, same, OthersOnly);
    RulesBound(c, t, |rules|, same);
    if |Extracted([t], [c], same, OthersOnly).0| > 0 {
      assert Extracted([t], [c], same, OthersOnly).0[0] in Extracted([t], [c], same, OthersOnly).0;
      AllMatched(c, rules);
    }
  }
}
