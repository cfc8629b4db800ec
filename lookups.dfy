// The read-only space queries (apps/api/src/apis/space/queries): looking a
// concept up, finding the stored ones among many, filtering out the stored
// ones, reading a mask's match counter, listing concepts, and listing the
// concepts that contain a given one.

module Lookups {
  import opened Wrappers
  import opened Strings
  import opened Concepts
  import opened Plugins
  import opened Expansion
  import opened Interpolation
  import opened Keys
  import opened Store
  import opened Folds
  import ConceptMasks

  // getConcept.

  /**
   * `getConcept(storage, source)`: the source (a concept's key, or any text)
   * is parsed, and the parsed concept is returned when its storage key is
   * present; `Ok(None)` is `null` and an `Err` what `parseConcept` throws.
   */
  function GetConcept(data: Data, source: string): (r: Result<Option<Concept>>)
    ensures r.Err? <==> ParseConcept(source, AllPlugins).Err?
  {
    match ParseConcept(source, AllPlugins)
    case Err(m) => Err(m)
    case Ok(c) => Ok(if ConceptStorageKey(c) in data then Some(c) else None)
  }

  /** A concept that parses back from its key is found iff its `concept:` key is stored. */
  lemma GetConceptStored(data: Data, c: Concept)
    requires ParsesBack(c)
    ensures GetConcept(data, Key(c)) == (if ConceptStorageKey(c) in data then Ok(Some(c)) else Ok(None))
  {
  }

  /**
   * The source is parsed before the lookup, so any text that parses to `c`
   * (a set compound written in another order, say) finds what `c`'s own key
   * finds.
   */
  lemma GetConceptReparsed(data: Data, source: string, c: Concept)
    requires ParseConcept(source, AllPlugins) == Ok(c)
    requires ParsesBack(c)
    ensures GetConcept(data, source) == GetConcept(data, Key(c))
    ensures GetConcept(data, source).value.Some? <==> ConceptStorageKey(c) in data
  {
  }

  // findAll.

  /** Whether a concept's storage key is present (`present`) or absent (`!present`). */
  function StoredTest(data: Data, present: bool): Concept -> bool
  {
    (c: Concept) => (ConceptStorageKey(c) in data) == present
  }

  /** The concepts of `cs` whose storage key is present (`present`) or absent (`!present`), in order. */
  function Stored(data: Data, cs: seq<Concept>, present: bool): (r: seq<Concept>)
    ensures forall x :: x in r <==> x in cs && (ConceptStorageKey(x) in data <==> present)
    ensures |r| <= |cs|
  {
    Keep(cs, StoredTest(data, present))
  }

  /** The concepts of `cs` whose key is not in `keys`, in order: `filter(c => !keys.has(c.key))`. */
  function KeyNotIn(cs: seq<Concept>, keys: set<string>): (r: seq<Concept>)
    ensures forall x :: x in r <==> x in cs && Key(x) !in keys
  {
    Keep(cs, (c: Concept) => Key(c) !in keys)
  }

  /** Keeping some of a list of concepts with distinct keys leaves their keys distinct. */
  lemma KeepDistinct(cs: seq<Concept>, keep: Concept -> bool)
    requires DistinctKeys(cs)
    ensures DistinctKeys(Keep(cs, keep))
  {
    var w := Keep(cs, keep);
    forall i, j | 0 <= i < j < |w|
      ensures Key(w[i]) != Key(w[j])
    {
      KeepOrder(cs, keep, i, j);
    }
  }

  lemma StoredDistinct(data: Data, cs: seq<Concept>, present: bool)
    requires DistinctKeys(cs)
    ensures DistinctKeys(Stored(data, cs, present))
  {
    KeepDistinct(cs, StoredTest(data, present));
  }

  /** The step of `findAll`'s `for … of` loop: a concept looked up by its key. */
  function Lookup(data: Data): Concept -> Result<Option<Concept>>
  {
    (c: Concept) => GetConcept(data, Key(c))
  }

  /** The `for … of` loop of `findAll`: each concept looked up by its key, the found ones kept in order. */
  function FindIn(data: Data, cs: seq<Concept>): Result<seq<Concept>>
  {
    Collect(cs, Lookup(data))
  }

  /** `findAll(storage, source)`. */
  function FindAllOf(data: Data, source: Source): Result<seq<Concept>>
  {
    match ToConcepts(source)
    case Err(m) => Err(m)
    case Ok(cs) => FindIn(data, cs)
  }

  /** `findAll`: the loop over `toConcepts(source)`; the store is only read. */
  method FindAll(store: Storage, source: Source) returns (r: Result<seq<Concept>>)
    ensures r == FindAllOf(store.data, source)
  {
    var concepts := ToConcepts(source);
    if concepts.Err? {
      return Err(concepts.msg);
    }
    var cs := concepts.value;
    var read := Lookup(store.data);
    var results: seq<Concept> := [];
    var i := 0;
    while i < |cs|
      invariant 0 <= i <= |cs|
      invariant Collect(cs[..i], read) == Ok(results)
    {
      var fetched := read(cs[i]);
      if fetched.Err? {
        CollectFirstError(cs, read, i);
        return Err(fetched.msg);
      }
      CollectStep(cs, read, i);
      if fetched.value.Some? {
        results := results + [fetched.value.value];
      }
      i := i + 1;
    }
    assert cs[..i] == cs;
    r := Ok(results);
  }

  /** A concept that parses back from its key is looked up as itself when stored, and as `null` otherwise. */
  lemma LookupStored(data: Data, cs: seq<Concept>)
    requires forall c :: c in cs ==> ParsesBack(c)
    ensures forall c :: c in cs ==> Lookup(data)(c) == (if StoredTest(data, true)(c) then Ok(Some(c)) else Ok(None))
  {
    forall c | c in cs
      ensures Lookup(data)(c) == (if StoredTest(data, true)(c) then Ok(Some(c)) else Ok(None))
    {
      GetConceptStored(data, c);
    }
  }

  /**
   * For concepts that parse back from their keys, `findAll` returns exactly
   * the stored ones, in input order.
   */
  lemma FindInStored(data: Data, cs: seq<Concept>)
    requires forall c :: c in cs ==> ParsesBack(c)
    ensures FindIn(data, cs) == Ok(Stored(data, cs, true))
  {
    LookupStored(data, cs);
    CollectKeep(cs, Lookup(data), StoredTest(data, true));
  }

  /**
   * `findAll` of parsed-back concepts: the distinct inputs that are stored,
   * in input order, never more than there are distinct inputs.
   */
  lemma FindAllStored(data: Data, source: Source)
    requires ToConcepts(source).Ok?
    requires forall c :: c in ToConcepts(source).value ==> ParsesBack(c)
    ensures FindAllOf(data, source) == Ok(Stored(data, ToConcepts(source).value, true))
    ensures DistinctKeys(FindAllOf(data, source).value)
    ensures |FindAllOf(data, source).value| <= |ToConcepts(source).value|
  {
    ToConceptsFacts(source);
    FindInStored(data, ToConcepts(source).value);
    StoredDistinct(data, ToConcepts(source).value, true);
  }

  // filterNew.

  /** `filterNew(storage, source)`: the concepts of the source whose key `findAll` does not return. */
  function FilterNewOf(data: Data, source: Source): Result<seq<Concept>>
  {
    match ToConcepts(source)
    case Err(m) => Err(m)
    case Ok(cs) =>
      match FindIn(data, UniqueByKey(cs))
      case Err(m) => Err(m)
      case Ok(existing) => Ok(KeyNotIn(cs, KeySet(existing)))
  }

  /** `filterNew`: `findAll` over the source's concepts, then the ones whose key it did not find. */
  method FilterNew(store: Storage, source: Source) returns (r: Result<seq<Concept>>)
    ensures r == FilterNewOf(store.data, source)
  {
    var concepts := ToConcepts(source);
    if concepts.Err? {
      return Err(concepts.msg);
    }
    var existing := FindAll(store, SourceConcepts(concepts.value));
    if existing.Err? {
      return Err(existing.msg);
    }
    r := Ok(KeyNotIn(concepts.value, KeySet(existing.value)));
  }

  /**
   * For concepts that parse back, `filterNew` returns exactly the distinct
   * inputs that are not stored, in input order: together with `findAll` it
   * splits the input in two.
   */
  lemma FilterNewUnstored(data: Data, source: Source)
    requires ToConcepts(source).Ok?
    requires forall c :: c in ToConcepts(source).value ==> ParsesBack(c)
    ensures FilterNewOf(data, source) == Ok(Stored(data, ToConcepts(source).value, false))
    ensures DistinctKeys(FilterNewOf(data, source).value)
    ensures FindAllOf(data, source).Ok?
    ensures forall c :: c in ToConcepts(source).value ==>
      (c in FilterNewOf(data, source).value <==> c !in FindAllOf(data, source).value)
  {
    var cs := ToConcepts(source).value;
    ToConceptsFacts(source);
    FilterNewIn(data, cs);
    FindInStored(data, cs);
    StoredDistinct(data, cs, false);
    assert FindAllOf(data, source) == Ok(Stored(data, cs, true));
    assert FilterNewOf(data, source) == Ok(Stored(data, cs, false));
    StoredSplit(data, cs);
  }

  /** Every concept is in exactly one of the stored and the unstored ones. */
  lemma StoredSplit(data: Data, cs: seq<Concept>)
    ensures forall c :: c in cs ==> (c in Stored(data, cs, false) <==> c !in Stored(data, cs, true))
  {
  }

  /** The filter step of `filterNew` over concepts with distinct keys that parse back. */
  lemma FilterNewIn(data: Data, cs: seq<Concept>)
    requires DistinctKeys(cs)
    requires forall c :: c in cs ==> ParsesBack(c)
    ensures FindIn(data, UniqueByKey(cs)) == Ok(Stored(data, cs, true))
    ensures KeyNotIn(cs, KeySet(Stored(data, cs, true))) == Stored(data, cs, false)
  {
    UniqueByKeyOfDistinct(cs);
    FindInStored(data, cs);
    var existing := Stored(data, cs, true);
    forall c | c in cs
      ensures Key(c) in KeySet(existing) <==> ConceptStorageKey(c) in data
    {
      if Key(c) in KeySet(existing) {
        var j :| 0 <= j < |existing| && Key(existing[j]) == Key(c);
        assert existing[j] in existing;
        assert ConceptStorageKey(existing[j]) == ConceptStorageKey(c);
      }
      if ConceptStorageKey(c) in data {
        assert c in existing;
        var j :| 0 <= j < |existing| && existing[j] == c;
      }
    }
    KeyNotInStored(data, cs, KeySet(existing));
  }

  lemma KeyNotInStored(data: Data, cs: seq<Concept>, keys: set<string>)
    requires forall c :: c in cs ==> (Key(c) in keys <==> ConceptStorageKey(c) in data)
    ensures KeyNotIn(cs, keys) == Stored(data, cs, false)
  {
    KeepAgree(cs, (c: Concept) => Key(c) !in keys, StoredTest(data, false));
  }

  // getMaskMatchCount.

  /** A stored value read as a number: `count || 0`, with `true` counting as 1. */
  function Number(v: Value): int
  {
    match v
    case Count(n) => n
    case Flag(b) => if b then 1 else 0
  }

  const CountTag := "mask/matchCount:"

  /** `getMaskMatchCount(storage, pattern)`: the counter stored under the pattern's mask, 0 when missing. */
  function GetMaskMatchCount(data: Data, pattern: Concept): int
  {
    var key := MaskMatchCountKey(ConceptMasks.Mask(pattern));
    if key in data then Number(data[key]) else 0
  }

  /** With no `mask/matchCount:` key stored at all, every count reads as 0. */
  lemma NoCountersReadZero(data: Data, pattern: Concept)
    requires forall k :: k in data ==> !HasPrefix(k, CountTag)
    ensures GetMaskMatchCount(data, pattern) == 0
  {
    var key := MaskMatchCountKey(ConceptMasks.Mask(pattern));
    assert key[..|CountTag|] == CountTag;
  }

  /** Patterns equal up to a one-to-one renaming of variables read the same counter. */
  lemma CountRenameInvariant(data: Data, p: Concept, f: string -> string)
    requires ConceptMasks.Shaped(p)
    requires ConceptMasks.NamesVariables(f) && ConceptMasks.Injective(f)
    ensures GetMaskMatchCount(data, ConceptMasks.Rename(p, f)) == GetMaskMatchCount(data, p)
  {
    ConceptMasks.MaskRenameInvariant(p, f);
  }

  // getAllConcepts.

  const ConceptPrefix := "concept:"

  /** A `startKey`/`endKey` bound: a missing or empty key does not restrict the listing. */
  function Bound(key: string): Option<string>
  {
    if key == "" then None else Some(ConceptPrefix + EncodeConceptKey(key))
  }

  /** The concept a listed storage key holds: `parseConcept(decodeConceptKey(sk.split(':')[1]))`. */
  function ReadStorageKey(sk: string): Result<Concept>
  {
    match StorageKeyConcept(sk)
    case Err(m) => Err(m)
    case Ok(k) => ParseConcept(k, AllPlugins)
  }

  /** The concepts of the listed keys, in listing order; the first key that does not read back aborts. */
  function ReadAll(keys: seq<string>): (r: Result<seq<Concept>>)
    ensures r.Ok? ==> |r.value| == |keys| && forall i :: 0 <= i < |keys| ==> ReadStorageKey(keys[i]) == Ok(r.value[i])
  {
    ReadEach(keys, ReadStorageKey)
  }

  /** The keys `getAllConcepts` lists. */
  function ConceptWindow(data: Data, startKey: string, endKey: string, limit: nat): seq<string>
  {
    Window(data, ConceptPrefix, Bound(startKey), Bound(endKey), limit)
  }

  /** `getAllConcepts(storage, { startKey, endKey, limit })`. */
  function AllConceptsOf(data: Data, startKey: string, endKey: string, limit: nat): Result<seq<Concept>>
  {
    ReadAll(ConceptWindow(data, startKey, endKey, limit))
  }

  /** `getAllConcepts`: the `forEach` over the listed keys. */
  method GetAllConcepts(store: Storage, startKey: string, endKey: string, limit: nat) returns (r: Result<seq<Concept>>)
    ensures r == AllConceptsOf(store.data, startKey, endKey, limit)
  {
    var keys := Window(store.data, ConceptPrefix, Bound(startKey), Bound(endKey), limit);
    var concepts: seq<Concept> := [];
    var i := 0;
    while i < |keys|
      invariant 0 <= i <= |keys|
      invariant ReadEach(keys[..i], ReadStorageKey) == Ok(concepts)
    {
      var c := ReadStorageKey(keys[i]);
      if c.Err? {
        ReadEachFirstError(keys, ReadStorageKey, i);
        return Err(c.msg);
      }
      ReadEachStep(keys, ReadStorageKey, i);
      concepts := concepts + [c.value];
      i := i + 1;
    }
    assert keys[..i] == keys;
    r := Ok(concepts);
  }

  /** Listing fails exactly when some listed key does not read back. */
  lemma ReadAllError(keys: seq<string>)
    ensures ReadAll(keys).Err? <==> exists i :: 0 <= i < |keys| && ReadStorageKey(keys[i]).Err?
  {
    if ReadAll(keys).Err? {
      ReadEachErrorWitness(keys, ReadStorageKey);
    }
    if exists i :: 0 <= i < |keys| && ReadStorageKey(keys[i]).Err? {
      var i :| 0 <= i < |keys| && ReadStorageKey(keys[i]).Err?;
      ReadEachErrorAt(keys, ReadStorageKey, i);
    }
  }

  /**
   * `getAllConcepts` lists at most `limit` concepts, each read from a stored
   * `concept:` key in the window; a stored concept whose key is in the window
   * and parses back is among them.
   */
  lemma AllConceptsListed(data: Data, startKey: string, endKey: string, limit: nat, c: Concept)
    requires AllConceptsOf(data, startKey, endKey, limit).Ok?
    requires ParsesBack(c)
    ensures |AllConceptsOf(data, startKey, endKey, limit).value| <= limit
    ensures forall x :: x in AllConceptsOf(data, startKey, endKey, limit).value ==>
      exists k :: k in data && HasPrefix(k, ConceptPrefix) && ReadStorageKey(k) == Ok(x)
    ensures ConceptStorageKey(c) in ConceptWindow(data, startKey, endKey, limit) ==>
      c in AllConceptsOf(data, startKey, endKey, limit).value
  {
    var keys := ConceptWindow(data, startKey, endKey, limit);
    var cs := AllConceptsOf(data, startKey, endKey, limit).value;
    assert |cs| == |keys|;
    ListedRead(keys, cs);
    if ConceptStorageKey(c) in keys {
      var i :| 0 <= i < |keys| && keys[i] == ConceptStorageKey(c);
      StorageKeyRead(c);
      assert ReadStorageKey(keys[i]) == Ok(c);
      assert cs[i] == c;
    }
  }

  lemma ListedRead(keys: seq<string>, cs: seq<Concept>)
    requires |cs| == |keys| && forall i :: 0 <= i < |keys| ==> ReadStorageKey(keys[i]) == Ok(cs[i])
    ensures forall x :: x in cs ==> exists k :: k in keys && ReadStorageKey(k) == Ok(x)
  {
    forall x | x in cs
      ensures exists k :: k in keys && ReadStorageKey(k) == Ok(x)
    {
      var i :| 0 <= i < |cs| && cs[i] == x;
      assert keys[i] in keys;
    }
  }

  // getContexts.

  /** The step of `getContexts`' loop: the container a containment key names, or `None` for a key that reads as `null`. */
  function ReadContainer(key: string): Result<Option<Concept>>
  {
    match ParseContainmentKey(key)
    case Err(m) => Err(m)
    case Ok(None) => Ok(None)
    case Ok(Some(entry)) => Ok(Some(entry.container))
  }

  /** `getContexts(storage, concept)`: the containers of the keys listed under the concept's containment prefix. */
  function ContextsOf(data: Data, concept: Concept): Result<seq<Concept>>
  {
    Collect(Listing(data, ContainmentPrefixKey(concept)), ReadContainer)
  }

  /** `getContexts`: the loop over the keys listed under the concept's containment prefix; the store is only read. */
  method GetContexts(store: Storage, concept: Concept) returns (r: Result<seq<Concept>>)
    ensures r == ContextsOf(store.data, concept)
  {
    var keys := store.List(ContainmentPrefixKey(concept));
    var contexts: seq<Concept> := [];
    var i := 0;
    while i < |keys|
      invariant 0 <= i <= |keys|
      invariant Collect(keys[..i], ReadContainer) == Ok(contexts)
    {
      var entry := ReadContainer(keys[i]);
      if entry.Err? {
        CollectFirstError(keys, ReadContainer, i);
        return Err(entry.msg);
      }
      CollectStep(keys, ReadContainer, i);
      if entry.value.Some? {
        contexts := contexts + [entry.value.value];
      }
      i := i + 1;
    }
    assert keys[..i] == keys;
    r := Ok(contexts);
  }

  /**
   * `getContexts` finds every stored container: if `container` holds `concept`
   * at position `i` and its containment key is stored, `container` is
   * returned.
   */
  lemma ContextsFound(data: Data, concept: Concept, container: Concept, i: nat)
    requires i < |Parts(container)| && Key(Parts(container)[i]) == Key(concept)
    requires ParsesBack(Parts(container)[i]) && ParsesBack(container)
    requires ContainmentKeys(container)[i] in data
    requires ContextsOf(data, concept).Ok?
    ensures container in ContextsOf(data, concept).value
  {
    var keys := Listing(data, ContainmentPrefixKey(concept));
    var k := ContainmentKeys(container)[i];
    ContainmentPrefixExact(container, i, concept);
    assert k in keys;
    var j :| 0 <= j < |keys| && keys[j] == k;
    ContainmentKeyRoundTrip(container, i);
    assert ReadContainer(keys[j]) == Ok(Some(container));
    CollectMember(keys, ReadContainer, j, container);
  }

  /** Everything `getContexts` returns was read from a stored key under the concept's containment prefix. */
  lemma ContextsSound(data: Data, concept: Concept, x: Concept)
    requires ContextsOf(data, concept).Ok?
    requires x in ContextsOf(data, concept).value
    ensures exists k, entry: Containment ::
      k in data && HasPrefix(k, ContainmentPrefixKey(concept)) && ParseContainmentKey(k) == Ok(Some(entry)) && entry.container == x
  {
    var keys := Listing(data, ContainmentPrefixKey(concept));
    CollectSound(keys, ReadContainer, x);
    var i :| 0 <= i < |keys| && ReadContainer(keys[i]) == Ok(Some(x));
    var k := keys[i];
    assert k in keys;
    var entry := ParseContainmentKey(k).value.value;
    assert ParseContainmentKey(k) == Ok(Some(entry)) && entry.container == x;
  }
}
