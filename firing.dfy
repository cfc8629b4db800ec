/**
 * `addConceptsWithTriggers`: new concepts are stored, new trigger
 * definitions are checked against the known triggers and joined to them,
 * the triggers fire, and what they add is added the same way, one nesting
 * level deeper, before notifications go out and removals run. A trigger's
 * own components are stored last.
 */
module Firing {
  import opened Wrappers
  import opened Concepts
  import opened Store
  import opened Folds
  import opened Triggers
  import opened TriggerComponents
  import opened Triggered
  import TriggerQueries
  import Additions
  import Removal
  import Unification
  import Keys


  /** Where a notification goes: the caller's `processNotification`, or `processNotificationWithFetch`. */
  datatype Sink = Caller | Fetch

  datatype Delivery = Delivery(notification: Notification, sink: Sink)

  /**
   * What a run changes: the store, the trigger list it pushes into, the
   * concepts it hands to `onConceptAdded`, and the notifications it hands
   * to a sink.
   */
  datatype World = World(data: Data, triggers: seq<Trigger>, announced: seq<Concept>, delivered: seq<Delivery>)

  /** A `TriggerResults`, without the storage handles and callbacks its `params` echo. */
  datatype Results = Results(newConcepts: seq<Concept>, newTriggers: seq<Trigger>, changes: Changes, recursion: Option<Results>)

  datatype Ran = Ran(result: Result<Option<Results>>, world: World)

  datatype Processed = Processed(result: Result<Results>, world: World)

  /** Whether the nested call receives the caller's `processNotification`; as written it does not. */
  datatype Forwarding = AsWritten | Forwarded

  /** How many more nesting levels may add concepts. */
  datatype Fuel = Empty | More(rest: Fuel)

  const Exhausted := "Trigger recursion exceeds the depth bound"

  function AlreadyExists(name: string): string
  {
    "Trigger \"" + name + "\" already exists"
  }

  /**
   * Whether `organized.triggers[name]` is truthy: for the name of a new
   * trigger, and for every name the object literal inherits from
   * `Object.prototype`.
   */
  predicate Taken(ix: Index, name: string)
  {
    name in ix.triggers || name in Unification.Inherited
  }

  /** The `forEach` over the known triggers: the first whose name is taken. */
  function Duplicate(all: seq<Trigger>, ix: Index): Option<string>
  {
    if |all| == 0 then None
    else if Taken(ix, all[0].name) then Some(all[0].name)
    else Duplicate(all[1..], ix)
  }

  /** A known trigger whose name is taken, with none taken before it, is the one reported. */
  lemma {:induction false} DuplicateIsFirst(all: seq<Trigger>, ix: Index, i: nat)
    requires FirstTaken(all, ix, i)
    ensures Duplicate(all, ix) == Some(all[i].name)
    decreases |all|
  {
    if i > 0 {
      assert !Taken(ix, all[0].name);
      assert FirstTaken(all[1..], ix, i - 1) by {
        assert forall j :: 0 <= j < i - 1 ==> all[1..][j] == all[j + 1];
      }
      DuplicateIsFirst(all[1..], ix, i - 1);
    }
  }

  /** With no name taken, nothing is reported. */
  lemma {:induction false} NoDuplicate(all: seq<Trigger>, ix: Index)
    requires forall i :: 0 <= i < |all| ==> !Taken(ix, all[i].name)
    ensures Duplicate(all, ix) == None
    decreases |all|
  {
    if |all| > 0 {
      assert forall i :: 0 <= i < |all[1..]| ==> all[1..][i] == all[i + 1];
      NoDuplicate(all[1..], ix);
    }
  }

  /** What is reported is the name of the first known trigger whose name is taken. */
  lemma {:induction false} DuplicateFound(all: seq<Trigger>, ix: Index)
    requires Duplicate(all, ix).Some?
    ensures exists i: nat :: FirstTaken(all, ix, i) && all[i].name == Duplicate(all, ix).value
    decreases |all|
  {
    if Taken(ix, all[0].name) {
      assert FirstTaken(all, ix, 0);
    } else {
      DuplicateFound(all[1..], ix);
      var i: nat :| FirstTaken(all[1..], ix, i) && all[1..][i].name == Duplicate(all[1..], ix).value;
      assert forall j :: 0 <= j < i ==> all[1..][j] == all[j + 1];
      assert FirstTaken(all, ix, i + 1);
    }
  }

  /** The `i`-th known trigger is the first whose name is taken. */
  predicate FirstTaken(all: seq<Trigger>, ix: Index, i: nat)
  {
    i < |all| && Taken(ix, all[i].name) && forall j :: 0 <= j < i ==> !Taken(ix, all[j].name)
  }

  /** `processNotification` called on each notification in turn. */
  function Deliveries(ns: seq<Notification>, sink: Sink): (ds: seq<Delivery>)
    ensures |ds| == |ns|
    ensures forall i :: 0 <= i < |ns| ==> ds[i] == Delivery(ns[i], sink)
  {
    seq(|ns|, i requires 0 <= i < |ns| => Delivery(ns[i], sink))
  }

  /** The sink the nested call uses. */
  function NestedSink(sink: Sink, fw: Forwarding): Sink
  {
    if fw == Forwarded then sink else Fetch
  }

  function ConceptMatches(e: Engine, data: Data, triggers: seq<Trigger>): Concept -> Result<seq<TriggerMatch>>
  {
    (c: Concept) => ForConcept(e, data, c, triggers)
  }

  function TriggerMatches(e: Engine, data: Data): Trigger -> Result<seq<TriggerMatch>>
  {
    (t: Trigger) => ForTrigger(e, data, t)
  }

  /** The two loops of `processTriggers`: the matches of every new concept against all triggers, then those of every new trigger. */
  function AllMatches(e: Engine, data: Data, triggers: seq<Trigger>, newConcepts: seq<Concept>, newTriggers: seq<Trigger>): Result<seq<TriggerMatch>>
  {
    match FlatMap(newConcepts, ConceptMatches(e, data, triggers))
    case Err(m) => Err(m)
    case Ok(m1) =>
      match FlatMap(newTriggers, TriggerMatches(e, data))
      case Err(m) => Err(m)
      case Ok(m2) => Ok(m1 + m2)
  }

  /**
   * `addConceptsWithTriggers(params)` on a world, with `given` telling
   * whether `params.triggers` was passed and at most `fuel` nesting
   * levels that add concepts.
   */
  function AddWithTriggers(e: Engine, w: World, concepts: seq<Concept>, given: bool, sink: Sink, fw: Forwarding, fuel: Fuel): Ran
    decreases fuel, 3
  {
    var loaded := if given then Ok(w.triggers) else e.load(w.data);
    match loaded
    case Err(m) => Ran(Err(m), w)
    case Ok(all) => AddLoaded(e, w.(triggers := all), concepts, sink, fw, fuel)
  }

  /** With all triggers known: the empty input, the depth bound and the duplicate check. */
  function AddLoaded(e: Engine, w: World, concepts: seq<Concept>, sink: Sink, fw: Forwarding, fuel: Fuel): Ran
    decreases fuel, 2
  {
    if |concepts| == 0 then Ran(Ok(None), w)
    else if fuel.Empty? then Ran(Err(Exhausted), w)
    else
      match Duplicate(w.triggers, Separated(concepts).triggers)
      case Some(name) => Ran(Err(AlreadyExists(name)), w)
      case None => AddChecked(e, w, concepts, sink, fw, fuel.rest)
  }

  /**
   * Past the checks: push the new triggers, store and announce the plain
   * concepts, process unless there is nothing to process, then store the
   * components.
   */
  function AddChecked(e: Engine, w: World, concepts: seq<Concept>, sink: Sink, fw: Forwarding, fuel: Fuel): (r: Ran)
    ensures Triggers.WellFormed(Separated(concepts).triggers)
    decreases fuel, 6
  {
    SeparatedTriggers(concepts);
    var o := Separated(concepts);
    var newTriggers := Values(o.triggers);
    var added := e.add(w.data, o.concepts);
    Added(e, w.(data := added.data, triggers := w.triggers + newTriggers), added.result, newTriggers, o.components, sink, fw, fuel)
  }

  /** Once the plain concepts are stored: announce them, process unless there is nothing to process, store the components. */
  function Added(e: Engine, w: World, added: Result<seq<Concept>>, newTriggers: seq<Trigger>, components: seq<Concept>, sink: Sink, fw: Forwarding, fuel: Fuel): Ran
    decreases fuel, 5
  {
    match added
    case Err(m) => Ran(Err(m), w)
    case Ok(newConcepts) =>
      var w3 := w.(announced := w.announced + newConcepts);
      if |w3.triggers| + |newConcepts| == 0 then
        Ran(Ok(Some(Results(newConcepts, newTriggers, NoChanges, None))), w3)
      else
        StoreComponents(e, Process(e, w3, newConcepts, newTriggers, sink, fw, fuel), components)
  }

  /** After processing: the components are stored and announced; they change neither the trigger list nor the deliveries. */
  function StoreComponents(e: Engine, p: Processed, components: seq<Concept>): (r: Ran)
    ensures r.world.triggers == p.world.triggers && r.world.delivered == p.world.delivered
    ensures r.result.Ok? ==> p.result.Ok? && r.result == Ok(Some(p.result.value))
  {
    match p.result
    case Err(m) => Ran(Err(m), p.world)
    case Ok(results) =>
      var stored := e.add(p.world.data, components);
      var w := p.world.(data := stored.data);
      match stored.result
      case Err(m) => Ran(Err(m), w)
      case Ok(newComponents) => Ran(Ok(Some(results)), w.(announced := w.announced + newComponents))
  }

  /** `processTriggers(params)`. */
  function Process(e: Engine, w: World, newConcepts: seq<Concept>, newTriggers: seq<Trigger>, sink: Sink, fw: Forwarding, fuel: Fuel): Processed
    decreases fuel, 4
  {
    match AllMatches(e, w.data, w.triggers, newConcepts, newTriggers)
    case Err(m) => Processed(Err(m), w)
    case Ok(ms) =>
      match TriggeredChanges(e, ms)
      case Err(m) => Processed(Err(m), w)
      case Ok(ch) =>
        var nested := AddWithTriggers(e, w, ch.toAdd, true, NestedSink(sink, fw), fw, fuel);
        Notify(e, nested, newConcepts, newTriggers, ch, sink)
  }

  /** After the nested call: this level's notifications go to `sink`, then its removals run. */
  function Notify(e: Engine, nested: Ran, newConcepts: seq<Concept>, newTriggers: seq<Trigger>, ch: Changes, sink: Sink): (p: Processed)
    ensures p.world.triggers == nested.world.triggers
    ensures p.world.delivered == nested.world.delivered + (if nested.result.Ok? then Deliveries(ch.notifications, sink) else [])
    ensures p.result.Ok? ==> p.result.value.changes == ch
  {
    match nested.result
    case Err(m) => Processed(Err(m), nested.world)
    case Ok(recursion) =>
      var w2 := nested.world.(delivered := nested.world.delivered + Deliveries(ch.notifications, sink));
      var removed := e.remove(w2.data, ch.toRemove);
      var w3 := w2.(data := removed.data);
      match removed.result
      case Err(m) => Processed(Err(m), w3)
      case Ok(_) => Processed(Ok(Results(newConcepts, newTriggers, ch, recursion)), w3)
  }

  // What a run promises.

  /** No concepts: nothing is stored, announced or delivered, and the result is `null`. */
  lemma EmptyIsNull(e: Engine, w: World, given: bool, sink: Sink, fw: Forwarding, fuel: Fuel)
    requires given || e.load(w.data).Ok?
    ensures var r := AddWithTriggers(e, w, [], given, sink, fw, fuel);
      && r.result == Ok(None)
      && r.world == w.(triggers := if given then w.triggers else e.load(w.data).value)
  {
  }

  /**
   * A new trigger named like a known one throws, naming the first known
   * trigger concerned, before anything is stored, pushed, announced or
   * delivered.
   */
  lemma DuplicateThrows(e: Engine, w: World, concepts: seq<Concept>, given: bool, sink: Sink, fw: Forwarding, fuel: Fuel, i: nat)
    requires given
    requires |concepts| > 0 && fuel.More?
    requires FirstTaken(w.triggers, Separated(concepts).triggers, i)
    ensures var r := AddWithTriggers(e, w, concepts, given, sink, fw, fuel);
      r.result == Err(AlreadyExists(w.triggers[i].name)) && r.world == w
  {
    DuplicateIsFirst(w.triggers, Separated(concepts).triggers, i);
  }

  /**
   * A known trigger named `constructor` throws as a duplicate although no
   * new trigger takes its name, since every object literal inherits one.
   */
  lemma InheritedNameThrows(e: Engine, w: World, concepts: seq<Concept>, sink: Sink, fw: Forwarding, fuel: Fuel)
    requires |concepts| > 0 && fuel.More?
    requires |w.triggers| > 0 && w.triggers[0].name == "constructor"
    ensures var r := AddWithTriggers(e, w, concepts, true, sink, fw, fuel);
      r.result == Err(AlreadyExists("constructor")) && r.world == w
  {
    assert FirstTaken(w.triggers, Separated(concepts).triggers, 0);
    DuplicateThrows(e, w, concepts, true, sink, fw, fuel, 0);
  }

  /**
   * A trigger's components are stored only after processing: past the
   * checks, `processTriggers` reads the store with the plain concepts alone
   * added (`SeparatedPartition`: none of them is a component, and every
   * component of the call is kept for the final `addConcepts`).
   */
  lemma ComponentsAfterProcessing(e: Engine, w: World, concepts: seq<Concept>, sink: Sink, fw: Forwarding, rest: Fuel)
    requires |concepts| > 0 && Duplicate(w.triggers, Separated(concepts).triggers).None?
    ensures Triggers.WellFormed(Separated(concepts).triggers)
    ensures var o := Separated(concepts);
      var added := e.add(w.data, o.concepts);
      added.result.Ok? && |w.triggers| + |Values(o.triggers)| + |added.result.value| > 0 ==>
        AddLoaded(e, w, concepts, sink, fw, More(rest)) ==
          StoreComponents(e, Process(e, World(added.data, w.triggers + Values(o.triggers), w.announced + added.result.value, w.delivered),
                                     added.result.value, Values(o.triggers), sink, fw, rest), o.components)
  {
    SeparatedTriggers(concepts);
    var o := Separated(concepts);
    var added := e.add(w.data, o.concepts);
    if added.result.Ok? && |w.triggers| + |Values(o.triggers)| + |added.result.value| > 0 {
      var w2 := World(added.data, w.triggers + Values(o.triggers), w.announced, w.delivered);
      var ran := Added(e, w2, added.result, Values(o.triggers), o.components, sink, fw, rest);
      LoadedPassed(e, w, concepts, o, sink, fw, More(rest), rest, ran);
    }
  }

  /** Once processing succeeds, the final `addConcepts` leaves every component of the call stored. */
  lemma ComponentsStored(bound: nat, p: Processed, components: seq<Concept>)
    requires Additions.ReadBack(components)
    ensures var r := StoreComponents(StoreEngine(bound), p, components);
      r.result.Ok? ==> forall c :: c in components ==> Keys.ConceptStorageKey(c) in r.world.data
  {
    Additions.AddedWereNew(p.world.data, components);
  }

  /**
   * The trigger list is only ever extended: a run with the caller's list
   * keeps it as a prefix, and a run that gets past the checks has the
   * known triggers followed by the new ones as a prefix.
   */
  lemma {:induction false} RunExtends(e: Engine, w: World, concepts: seq<Concept>, given: bool, sink: Sink, fw: Forwarding, fuel: Fuel)
    ensures var r := AddWithTriggers(e, w, concepts, given, sink, fw, fuel);
      given ==> w.triggers <= r.world.triggers
    ensures Triggers.WellFormed(Separated(concepts).triggers)
    ensures var r := AddWithTriggers(e, w, concepts, given, sink, fw, fuel);
      r.result.Ok? && r.result.value.Some? ==>
        var all := if given then w.triggers else e.load(w.data).value;
        all + Values(Separated(concepts).triggers) <= r.world.triggers
    decreases fuel, 3
  {
    SeparatedTriggers(concepts);
    var loaded := if given then Ok(w.triggers) else e.load(w.data);
    if loaded.Ok? {
      LoadedExtends(e, w.(triggers := loaded.value), concepts, sink, fw, fuel);
    }
  }

  lemma {:induction false} LoadedExtends(e: Engine, w: World, concepts: seq<Concept>, sink: Sink, fw: Forwarding, fuel: Fuel)
    ensures var r := AddLoaded(e, w, concepts, sink, fw, fuel);
      w.triggers <= r.world.triggers
    ensures Triggers.WellFormed(Separated(concepts).triggers)
    ensures var r := AddLoaded(e, w, concepts, sink, fw, fuel);
      r.result.Ok? && r.result.value.Some? ==> w.triggers + Values(Separated(concepts).triggers) <= r.world.triggers
    decreases fuel, 2
  {
    SeparatedTriggers(concepts);
    if |concepts| > 0 && fuel.More? && Duplicate(w.triggers, Separated(concepts).triggers).None? {
      CheckedExtends(e, w, concepts, sink, fw, fuel.rest);
      PrefixTransitive(w.triggers, w.triggers + Values(Separated(concepts).triggers), AddChecked(e, w, concepts, sink, fw, fuel.rest).world.triggers);
    }
  }

  lemma {:induction false} CheckedExtends(e: Engine, w: World, concepts: seq<Concept>, sink: Sink, fw: Forwarding, fuel: Fuel)
    ensures var r := AddChecked(e, w, concepts, sink, fw, fuel);
      w.triggers + Values(Separated(concepts).triggers) <= r.world.triggers
    decreases fuel, 6
  {
    SeparatedTriggers(concepts);
    var o := Separated(concepts);
    var added := e.add(w.data, o.concepts);
    var w2 := w.(data := added.data, triggers := w.triggers + Values(o.triggers));
    AddedExtends(e, w2, added.result, Values(o.triggers), o.components, sink, fw, fuel);
  }

  lemma {:induction false} AddedExtends(e: Engine, w: World, added: Result<seq<Concept>>, newTriggers: seq<Trigger>, components: seq<Concept>, sink: Sink, fw: Forwarding, fuel: Fuel)
    ensures w.triggers <= Added(e, w, added, newTriggers, components, sink, fw, fuel).world.triggers
    decreases fuel, 5
  {
    if added.Ok? {
      var w3 := w.(announced := w.announced + added.value);
      if |w3.triggers| + |added.value| != 0 {
        ProcessExtends(e, w3, added.value, newTriggers, sink, fw, fuel);
      }
    }
  }

  lemma {:induction false} ProcessExtends(e: Engine, w: World, newConcepts: seq<Concept>, newTriggers: seq<Trigger>, sink: Sink, fw: Forwarding, fuel: Fuel)
    ensures w.triggers <= Process(e, w, newConcepts, newTriggers, sink, fw, fuel).world.triggers
    decreases fuel, 4
  {
    var ms := AllMatches(e, w.data, w.triggers, newConcepts, newTriggers);
    if ms.Ok? && TriggeredChanges(e, ms.value).Ok? {
      var ch := TriggeredChanges(e, ms.value).value;
      RunExtends(e, w, ch.toAdd, true, NestedSink(sink, fw), fw, fuel);
    }
  }

  /**
   * Processing is skipped only when there are no triggers at all and no
   * new concepts; then there are no components either, so skipping their
   * storage loses nothing.
   */
  lemma SkipLosesNothing(concepts: seq<Concept>, all: seq<Trigger>)
    requires |all| + |Separated(concepts).triggers.names| == 0
    ensures Separated(concepts).components == []
  {
    NoComponentsNoTriggers(concepts);
  }

  /** Every delivery of the list went to `sink`. */
  predicate AllTo(ds: seq<Delivery>, sink: Sink)
  {
    forall i :: 0 <= i < |ds| ==> ds[i].sink == sink
  }

  /** `ds` extends `before` with deliveries to `sink` only. */
  predicate ExtendsTo(before: seq<Delivery>, ds: seq<Delivery>, sink: Sink)
  {
    before <= ds && AllTo(ds[|before|..], sink)
  }

  lemma ExtendsToAppend(a: seq<Delivery>, b: seq<Delivery>, own: seq<Delivery>, sink: Sink)
    requires ExtendsTo(a, b, sink) && AllTo(own, sink)
    ensures ExtendsTo(a, b + own, sink)
  {
    assert (b + own)[|a|..] == b[|a|..] + own;
  }

  /**
   * When the nested call gets the same sink (it is forwarded, or it is
   * `fetch` anyway), a run only appends deliveries, every one of them to
   * that sink, at every nesting level.
   */
  lemma {:induction false} SinkKept(e: Engine, w: World, concepts: seq<Concept>, given: bool, sink: Sink, fw: Forwarding, fuel: Fuel)
    requires NestedSink(sink, fw) == sink
    ensures ExtendsTo(w.delivered, AddWithTriggers(e, w, concepts, given, sink, fw, fuel).world.delivered, sink)
    decreases fuel, 3
  {
    var loaded := if given then Ok(w.triggers) else e.load(w.data);
    if loaded.Ok? {
      LoadedSinkKept(e, w.(triggers := loaded.value), concepts, sink, fw, fuel);
    } else {
      assert w.delivered[|w.delivered|..] == [];
    }
  }

  lemma {:induction false} LoadedSinkKept(e: Engine, w: World, concepts: seq<Concept>, sink: Sink, fw: Forwarding, fuel: Fuel)
    requires NestedSink(sink, fw) == sink
    ensures ExtendsTo(w.delivered, AddLoaded(e, w, concepts, sink, fw, fuel).world.delivered, sink)
    decreases fuel, 2
  {
    if |concepts| > 0 && fuel.More? && Duplicate(w.triggers, Separated(concepts).triggers).None? {
      CheckedSinkKept(e, w, concepts, sink, fw, fuel.rest);
    } else {
      assert w.delivered[|w.delivered|..] == [];
    }
  }

  lemma {:induction false} CheckedSinkKept(e: Engine, w: World, concepts: seq<Concept>, sink: Sink, fw: Forwarding, fuel: Fuel)
    requires NestedSink(sink, fw) == sink
    ensures ExtendsTo(w.delivered, AddChecked(e, w, concepts, sink, fw, fuel).world.delivered, sink)
    decreases fuel, 6
  {
    SeparatedTriggers(concepts);
    var o := Separated(concepts);
    var added := e.add(w.data, o.concepts);
    AddedSinkKept(e, w.(data := added.data, triggers := w.triggers + Values(o.triggers)), added.result, Values(o.triggers), o.components, sink, fw, fuel);
  }

  lemma {:induction false} AddedSinkKept(e: Engine, w: World, added: Result<seq<Concept>>, newTriggers: seq<Trigger>, components: seq<Concept>, sink: Sink, fw: Forwarding, fuel: Fuel)
    requires NestedSink(sink, fw) == sink
    ensures ExtendsTo(w.delivered, Added(e, w, added, newTriggers, components, sink, fw, fuel).world.delivered, sink)
    decreases fuel, 5
  {
    if added.Ok? {
      var w3 := w.(announced := w.announced + added.value);
      if |w3.triggers| + |added.value| != 0 {
        ProcessSinkKept(e, w3, added.value, newTriggers, sink, fw, fuel);
        return;
      }
    }
    assert w.delivered[|w.delivered|..] == [];
  }

  lemma {:induction false} ProcessSinkKept(e: Engine, w: World, newConcepts: seq<Concept>, newTriggers: seq<Trigger>, sink: Sink, fw: Forwarding, fuel: Fuel)
    requires NestedSink(sink, fw) == sink
    ensures ExtendsTo(w.delivered, Process(e, w, newConcepts, newTriggers, sink, fw, fuel).world.delivered, sink)
    decreases fuel, 4
  {
    var ms := AllMatches(e, w.data, w.triggers, newConcepts, newTriggers);
    if ms.Ok? && TriggeredChanges(e, ms.value).Ok? {
      var ch := TriggeredChanges(e, ms.value).value;
      SinkKept(e, w, ch.toAdd, true, sink, fw, fuel);
      var nested := AddWithTriggers(e, w, ch.toAdd, true, sink, fw, fuel);
      ExtendsToAppend(w.delivered, nested.world.delivered, if nested.result.Ok? then Deliveries(ch.notifications, sink) else [], sink);
    } else {
      assert w.delivered[|w.delivered|..] == [];
    }
  }

  /**
   * As written, the nested call is not given `processNotification`, so
   * whatever sink the caller chose, every notification raised at a deeper
   * level goes to `fetch`; only this level's own notifications, which are
   * delivered last, reach the caller's sink.
   */
  lemma NestedDeliveriesFetch(e: Engine, w: World, newConcepts: seq<Concept>, newTriggers: seq<Trigger>, sink: Sink, fuel: Fuel)
    requires Process(e, w, newConcepts, newTriggers, sink, AsWritten, fuel).result.Ok?
    ensures var p := Process(e, w, newConcepts, newTriggers, sink, AsWritten, fuel);
      exists nested :: ExtendsTo(w.delivered, nested, Fetch)
        && p.world.delivered == nested + Deliveries(p.result.value.changes.notifications, sink)
  {
    var ms := AllMatches(e, w.data, w.triggers, newConcepts, newTriggers);
    var ch := TriggeredChanges(e, ms.value).value;
    SinkKept(e, w, ch.toAdd, true, Fetch, AsWritten, fuel);
    var nested := AddWithTriggers(e, w, ch.toAdd, true, Fetch, AsWritten, fuel);
    assert ExtendsTo(w.delivered, nested.world.delivered, Fetch);
  }

  /** With the sink forwarded, every notification of every level reaches the caller's sink. */
  lemma ForwardedDeliveries(e: Engine, w: World, concepts: seq<Concept>, given: bool, sink: Sink, fuel: Fuel)
    ensures ExtendsTo(w.delivered, AddWithTriggers(e, w, concepts, given, sink, Forwarded, fuel).world.delivered, sink)
  {
    SinkKept(e, w, concepts, given, sink, Forwarded, fuel);
  }

  // The running program: the shared trigger list and the two callbacks are objects it updates.

  /** The `allTriggers` array: loaded or passed in once, pushed into, and handed down to every nested call. */
  class TriggerList {
    var items: seq<Trigger>

    constructor (items: seq<Trigger>)
      ensures this.items == items
    {
      this.items := items;
    }

    /** `newTriggers.forEach((trigger) => allTriggers.push(trigger))`. */
    method PushAll(ts: seq<Trigger>)
      modifies this
      ensures items == old(items) + ts
    {
      for i := 0 to |ts|
        invariant items == old(items) + ts[..i]
      {
        assert ts[..i + 1] == ts[..i] + [ts[i]];
        items := items + [ts[i]];
      }
      assert ts[..|ts|] == ts;
    }
  }

  /** What the callbacks receive: `onConceptAdded` and `processNotification`. */
  class Log {
    var announced: seq<Concept>
    var delivered: seq<Delivery>

    constructor ()
      ensures announced == [] && delivered == []
    {
      announced := [];
      delivered := [];
    }

    /** `concepts.forEach(onConceptAdded)`. */
    method Announce(cs: seq<Concept>)
      modifies this
      ensures announced == old(announced) + cs && delivered == old(delivered)
    {
      for i := 0 to |cs|
        invariant announced == old(announced) + cs[..i] && delivered == old(delivered)
      {
        assert cs[..i + 1] == cs[..i] + [cs[i]];
        announced := announced + [cs[i]];
      }
      assert cs[..|cs|] == cs;
    }

    /** The notification loop: each notification handed to `sink` in turn. */
    method Deliver(ns: seq<Notification>, sink: Sink)
      modifies this
      ensures delivered == old(delivered) + Deliveries(ns, sink) && announced == old(announced)
    {
      for i := 0 to |ns|
        invariant delivered == old(delivered) + Deliveries(ns[..i], sink) && announced == old(announced)
      {
        assert Deliveries(ns[..i + 1], sink) == Deliveries(ns[..i], sink) + [Delivery(ns[i], sink)];
        delivered := delivered + [Delivery(ns[i], sink)];
      }
      assert ns[..|ns|] == ns;
    }
  }

  /** The three ways a run with a known trigger list stops before storing anything. */
  lemma LoadedStops(e: Engine, w: World, concepts: seq<Concept>, sink: Sink, fw: Forwarding, fuel: Fuel)
    ensures |concepts| == 0 ==> AddLoaded(e, w, concepts, sink, fw, fuel) == Ran(Ok(None), w)
    ensures |concepts| > 0 && fuel.Empty? ==> AddLoaded(e, w, concepts, sink, fw, fuel) == Ran(Err(Exhausted), w)
    ensures |concepts| > 0 && fuel.More? && Duplicate(w.triggers, Separated(concepts).triggers).Some? ==>
      AddLoaded(e, w, concepts, sink, fw, fuel) == Ran(Err(AlreadyExists(Duplicate(w.triggers, Separated(concepts).triggers).value)), w)
  {
  }

  /** Past the checks, a run is `Added` on the store with the plain concepts added and the trigger list extended. */
  lemma LoadedPassed(e: Engine, w: World, concepts: seq<Concept>, o: Organized, sink: Sink, fw: Forwarding, fuel: Fuel, rest: Fuel, ran: Ran)
    requires o == Separated(concepts)
    requires |concepts| > 0 && fuel == More(rest) && Duplicate(w.triggers, o.triggers).None?
    requires Triggers.WellFormed(o.triggers)
    requires ran == Added(e, World(e.add(w.data, o.concepts).data, w.triggers + Values(o.triggers), w.announced, w.delivered),
                   e.add(w.data, o.concepts).result, Values(o.triggers), o.components, sink, fw, rest)
    ensures ran == AddLoaded(e, w, concepts, sink, fw, fuel)
  {
    assert AddLoaded(e, w, concepts, sink, fw, fuel) == AddChecked(e, w, concepts, sink, fw, rest);
  }

  /** The duplicate check: the first known trigger whose name a new trigger takes. */
  method CheckDuplicates(all: seq<Trigger>, ix: Index) returns (r: Option<string>)
    ensures r == Duplicate(all, ix)
  {
    for i := 0 to |all|
      invariant forall j :: 0 <= j < i ==> !Taken(ix, all[j].name)
    {
      if all[i].name in ix.triggers || all[i].name in Unification.Inherited {
        assert FirstTaken(all, ix, i);
        DuplicateIsFirst(all, ix, i);
        return Some(all[i].name);
      }
    }
    NoDuplicate(all, ix);
    return None;
  }


  /** The two match loops of `processTriggers`. */
  method CollectMatches(store: Storage, triggers: seq<Trigger>, newConcepts: seq<Concept>, newTriggers: seq<Trigger>, bound: nat)
    returns (r: Result<seq<TriggerMatch>>)
    ensures r == AllMatches(StoreEngine(bound), store.data, triggers, newConcepts, newTriggers)
  {
    ghost var fc := ConceptMatches(StoreEngine(bound), store.data, triggers);
    var fromConcepts: seq<TriggerMatch> := [];
    for i := 0 to |newConcepts|
      invariant FlatMap(newConcepts[..i], fc) == Ok(fromConcepts)
    {
      FlatMapStep(newConcepts, fc, i);
      var ms := FindTriggerMatchesForConcept(store, newConcepts[i], triggers, bound);
      if ms.Err? {
        FlatMapFirstError(newConcepts, fc, i);
        return Err(ms.msg);
      }
      fromConcepts := fromConcepts + ms.value;
    }
    assert newConcepts[..|newConcepts|] == newConcepts;
    ghost var ft := TriggerMatches(StoreEngine(bound), store.data);
    var fromTriggers: seq<TriggerMatch> := [];
    for i := 0 to |newTriggers|
      invariant FlatMap(newTriggers[..i], ft) == Ok(fromTriggers)
    {
      FlatMapStep(newTriggers, ft, i);
      var ms := FindTriggerMatchesForTrigger(store, newTriggers[i], bound);
      if ms.Err? {
        FlatMapFirstError(newTriggers, ft, i);
        return Err(ms.msg);
      }
      fromTriggers := fromTriggers + ms.value;
    }
    assert newTriggers[..|newTriggers|] == newTriggers;
    r := Ok(fromConcepts + fromTriggers);
  }

  /** `processTriggers`, with `sink` standing for `processNotification`. */
  method ProcessTriggers(store: Storage, all: TriggerList, log: Log, newConcepts: seq<Concept>, newTriggers: seq<Trigger>,
                         sink: Sink, fw: Forwarding, bound: nat, fuel: Fuel)
    returns (r: Result<Results>)
    modifies store, all, log
    ensures Processed(r, World(store.data, all.items, log.announced, log.delivered))
      == Process(StoreEngine(bound), World(old(store.data), old(all.items), old(log.announced), old(log.delivered)),
                 newConcepts, newTriggers, sink, fw, fuel)
    decreases fuel, 4
  {
    var ms := CollectMatches(store, all.items, newConcepts, newTriggers, bound);
    if ms.Err? {
      return Err(ms.msg);
    }
    var changes := TriggeredChanges(StoreEngine(bound), ms.value);
    if changes.Err? {
      return Err(changes.msg);
    }
    ghost var before := World(store.data, all.items, log.announced, log.delivered);
    var recursion, _ := AddConceptsWithTriggers(store, all, log, changes.value.toAdd, NestedSink(sink, fw), fw, bound, fuel);
    ghost var nested := Ran(recursion, World(store.data, all.items, log.announced, log.delivered));
    assert nested == AddWithTriggers(StoreEngine(bound), before, changes.value.toAdd, true, NestedSink(sink, fw), fw, fuel);
    if recursion.Err? {
      return Err(recursion.msg);
    }
    log.Deliver(changes.value.notifications, sink);
    var removed := Removal.RemoveConcepts(store, changes.value.toRemove, bound);
    if removed.Err? {
      return Err(removed.msg);
    }
    r := Ok(Results(newConcepts, newTriggers, changes.value, recursion.value));
  }

  /**
   * `addConceptsWithTriggers`, with `triggers` the caller's list or
   * `null`; `list` is the trigger list the run used.
   */
  method AddConceptsWithTriggers(store: Storage, triggers: TriggerList?, log: Log, concepts: seq<Concept>,
                                 sink: Sink, fw: Forwarding, bound: nat, fuel: Fuel)
    returns (r: Result<Option<Results>>, list: TriggerList)
    modifies store, triggers, log
    ensures triggers != null ==> list == triggers
    ensures Ran(r, World(store.data, list.items, log.announced, log.delivered))
      == AddWithTriggers(StoreEngine(bound),
                         World(old(store.data), if triggers == null then [] else old(triggers.items), old(log.announced), old(log.delivered)),
                         concepts, triggers != null, sink, fw, fuel)
    decreases fuel, 3
  {
    if triggers == null {
      var loaded := TriggerQueries.GetAllTriggers(store, bound);
      if loaded.Err? {
        list := new TriggerList([]);
        return Err(loaded.msg), list;
      }
      list := new TriggerList(loaded.value);
    } else {
      list := triggers;
    }
    r := AddToList(store, list, log, concepts, sink, fw, bound, fuel);
  }

  /** `addConceptsWithTriggers` once the trigger list is known: the empty input, the depth bound and the duplicate check. */
  method AddToList(store: Storage, list: TriggerList, log: Log, concepts: seq<Concept>,
                   sink: Sink, fw: Forwarding, bound: nat, fuel: Fuel)
    returns (r: Result<Option<Results>>)
    modifies store, list, log
    ensures Ran(r, World(store.data, list.items, log.announced, log.delivered))
      == AddLoaded(StoreEngine(bound), World(old(store.data), old(list.items), old(log.announced), old(log.delivered)), concepts, sink, fw, fuel)
    decreases fuel, 2
  {
    var organized := SeparateTriggers(concepts);
    if |concepts| == 0 {
      LoadedStops(StoreEngine(bound), World(store.data, list.items, log.announced, log.delivered), concepts, sink, fw, fuel);
      return Ok(None);
    }
    if fuel.Empty? {
      LoadedStops(StoreEngine(bound), World(store.data, list.items, log.announced, log.delivered), concepts, sink, fw, fuel);
      return Err(Exhausted);
    }
    var duplicate := CheckDuplicates(list.items, organized.triggers);
    ghost var w := World(store.data, list.items, log.announced, log.delivered);
    if duplicate.Some? {
      LoadedStops(StoreEngine(bound), w, concepts, sink, fw, fuel);
      return Err(AlreadyExists(duplicate.value));
    }
    SeparatedTriggers(concepts);
    var rest := fuel.rest;
    r := StoreAndProcess(store, list, log, organized, sink, fw, bound, rest);
    LoadedPassed(StoreEngine(bound), w, concepts, organized, sink, fw, fuel, rest, Ran(r, World(store.data, list.items, log.announced, log.delivered)));
  }

  /** The part of `addConceptsWithTriggers` past its checks; `fuel` is what the nested level gets. */
  method StoreAndProcess(store: Storage, list: TriggerList, log: Log, organized: Organized,
                         sink: Sink, fw: Forwarding, bound: nat, fuel: Fuel)
    returns (r: Result<Option<Results>>)
    requires Triggers.WellFormed(organized.triggers)
    modifies store, list, log
    ensures Ran(r, World(store.data, list.items, log.announced, log.delivered))
      == Added(StoreEngine(bound),
               World(StoreEngine(bound).add(old(store.data), organized.concepts).data, old(list.items) + Values(organized.triggers), old(log.announced), old(log.delivered)),
               StoreEngine(bound).add(old(store.data), organized.concepts).result, Values(organized.triggers), organized.components, sink, fw, fuel)
    decreases fuel, 7
  {
    var newTriggers := Values(organized.triggers);
    list.PushAll(newTriggers);
    var newConcepts := Additions.AddConcepts(store, organized.concepts);
    if newConcepts.Err? {
      return Err(newConcepts.msg);
    }
    r := ProcessAndStore(store, list, log, newConcepts.value, newTriggers, organized.components, sink, fw, bound, fuel);
  }

  /** Announcing the stored concepts, processing, and storing the components. */
  method ProcessAndStore(store: Storage, list: TriggerList, log: Log, newConcepts: seq<Concept>, newTriggers: seq<Trigger>,
                         components: seq<Concept>, sink: Sink, fw: Forwarding, bound: nat, fuel: Fuel)
    returns (r: Result<Option<Results>>)
    modifies store, list, log
    ensures Ran(r, World(store.data, list.items, log.announced, log.delivered))
      == Added(StoreEngine(bound), World(old(store.data), old(list.items), old(log.announced), old(log.delivered)),
               Ok(newConcepts), newTriggers, components, sink, fw, fuel)
    decreases fuel, 6
  {
    log.Announce(newConcepts);
    if |list.items| + |newConcepts| == 0 {
      return Ok(Some(Results(newConcepts, newTriggers, NoChanges, None)));
    }
    var result := ProcessTriggers(store, list, log, newConcepts, newTriggers, sink, fw, bound, fuel);
    if result.Err? {
      return Err(result.msg);
    }
    var newComponents := Additions.AddConcepts(store, components);
    if newComponents.Err? {
      return Err(newComponents.msg);
    }
    log.Announce(newComponents.value);
    r := Ok(Some(result.value));
  }
}
