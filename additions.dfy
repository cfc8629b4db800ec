// Adding concepts to a space (apps/api/src/apis/space/queries/addConcepts.ts
// and saveMasks.ts): the new concepts and their new sub-concepts are marked
// under their storage keys, then every mask-match key and every containment
// key of them is written.

module Additions {
  import opened Wrappers
  import opened Strings
  import opened Concepts
  import opened Interpolation
  import opened Keys
  import opened Store
  import opened Folds
  import opened Lookups
  import Masks = ConceptMasks

  // getConceptsDeepWithoutContainers.

  /** `x` is a transitive part of one of the parts of `c`. */
  predicate ProperSub(x: Concept, c: Concept)
  {
    exists j :: 0 <= j < |Parts(c)| && SubConcept(x, Parts(c)[j])
  }

  /** `subs.forEach(sub => map.set(sub.key, sub))` on the values of an insertion-ordered `Map`. */
  function SetAll(acc: seq<Concept>, subs: seq<Concept>): seq<Concept>
    decreases |subs|
  {
    if |subs| == 0 then acc else SetAll(SetByKey(acc, subs[0]), subs[1..])
  }

  /** The `forEach` over the top concepts, each adding `getConceptsDeep` of its parts. */
  function WithoutContainersFrom(acc: seq<Concept>, top: seq<Concept>): seq<Concept>
    decreases |top|
  {
    if |top| == 0 then acc else WithoutContainersFrom(SetAll(acc, ConceptsDeep(Parts(top[0]))), top[1..])
  }

  /** `getConceptsDeepWithoutContainers(top)`. */
  function DeepWithoutContainers(top: seq<Concept>): seq<Concept>
  {
    WithoutContainersFrom([], top)
  }

  /** The keys of the transitive parts of the top concepts. */
  function ProperKeys(top: seq<Concept>): set<string>
    decreases |top|
  {
    if |top| == 0 then {} else DeepKeysAll(Parts(top[0])) + ProperKeys(top[1..])
  }

  /** `getConceptsDeepWithoutContainers`: one `Map` filled by a loop over the top concepts and their deep parts. */
  method GetConceptsDeepWithoutContainers(top: seq<Concept>) returns (r: seq<Concept>)
    ensures r == DeepWithoutContainers(top)
  {
    r := [];
    var i := 0;
    while i < |top|
      invariant 0 <= i <= |top|
      invariant DeepWithoutContainers(top) == WithoutContainersFrom(r, top[i..])
    {
      assert top[i..][1..] == top[i + 1..];
      var subs := GetConceptsDeep(Parts(top[i]));
      ghost var before := r;
      var j := 0;
      while j < |subs|
        invariant 0 <= j <= |subs|
        invariant SetAll(before, subs) == SetAll(r, subs[j..])
      {
        assert subs[j..][1..] == subs[j + 1..];
        r := SetByKey(r, subs[j]);
        j := j + 1;
      }
      i := i + 1;
    }
  }

  lemma {:induction false} SetAllFacts(acc: seq<Concept>, subs: seq<Concept>)
    requires DistinctKeys(acc)
    ensures DistinctKeys(SetAll(acc, subs))
    ensures KeySet(SetAll(acc, subs)) == KeySet(acc) + KeySet(subs)
    ensures forall x :: x in SetAll(acc, subs) ==> x in acc || x in subs
    decreases |subs|
  {
    if |subs| > 0 {
      SetByKeyFacts(acc, subs[0]);
      SetAllFacts(SetByKey(acc, subs[0]), subs[1..]);
      assert KeySet(subs) == {Key(subs[0])} + KeySet(subs[1..]) by {
        forall k | k in KeySet(subs)
          ensures k in {Key(subs[0])} + KeySet(subs[1..])
        {
          var j :| 0 <= j < |subs| && Key(subs[j]) == k;
          if j > 0 {
            assert subs[1..][j - 1] == subs[j];
          }
        }
        forall k | k in KeySet(subs[1..])
          ensures k in KeySet(subs)
        {
          var j :| 0 <= j < |subs[1..]| && Key(subs[1..][j]) == k;
          assert subs[j + 1] == subs[1..][j];
        }
      }
      forall x | x in SetAll(acc, subs)
        ensures x in acc || x in subs
      {
        if x in subs[1..] {
          var j :| 0 <= j < |subs[1..]| && subs[1..][j] == x;
          assert subs[j + 1] == x;
        }
      }
    }
  }

  lemma {:induction false} WithoutContainersFromFacts(acc: seq<Concept>, top: seq<Concept>)
    requires DistinctKeys(acc)
    ensures DistinctKeys(WithoutContainersFrom(acc, top))
    ensures KeySet(WithoutContainersFrom(acc, top)) == KeySet(acc) + ProperKeys(top)
    ensures forall x :: x in WithoutContainersFrom(acc, top) ==> x in acc || exists i :: 0 <= i < |top| && ProperSub(x, top[i])
    decreases |top|
  {
    if |top| > 0 {
      var subs := ConceptsDeep(Parts(top[0]));
      ConceptsDeepFacts(Parts(top[0]));
      SetAllFacts(acc, subs);
      var next := SetAll(acc, subs);
      WithoutContainersFromFacts(next, top[1..]);
      forall x | x in WithoutContainersFrom(acc, top)
        ensures x in acc || exists i :: 0 <= i < |top| && ProperSub(x, top[i])
      {
        if x !in next {
          var i :| 0 <= i < |top[1..]| && ProperSub(x, top[1..][i]);
          assert top[i + 1] == top[1..][i];
        } else if x !in acc {
          assert x in subs;
          var j :| 0 <= j < |Parts(top[0])| && SubConcept(x, Parts(top[0])[j]);
          assert ProperSub(x, top[0]);
        }
      }
    }
  }

  /**
   * `getConceptsDeepWithoutContainers` holds each transitive part of the top
   * concepts once by key and nothing else: a top concept appears only when
   * it is itself a part of some top concept.
   */
  lemma DeepWithoutContainersFacts(top: seq<Concept>)
    ensures DistinctKeys(DeepWithoutContainers(top))
    ensures KeySet(DeepWithoutContainers(top)) == ProperKeys(top)
    ensures forall x :: x in DeepWithoutContainers(top) ==> exists i :: 0 <= i < |top| && ProperSub(x, top[i])
  {
    WithoutContainersFromFacts([], top);
  }

  /** Every transitive part of a top concept has its key in `ProperKeys`. */
  lemma {:induction false} ProperKeysMember(top: seq<Concept>, i: nat, y: Concept)
    requires i < |top| && ProperSub(y, top[i])
    ensures Key(y) in ProperKeys(top)
    decreases |top|
  {
    if i == 0 {
      var j :| 0 <= j < |Parts(top[0])| && SubConcept(y, Parts(top[0])[j]);
      DeepKeysSubConcept(y, Parts(top[0])[j]);
      DeepKeysAllMember(Parts(top[0]), j);
    } else {
      assert top[1..][i - 1] == top[i];
      ProperKeysMember(top[1..], i - 1, y);
    }
  }

  /** A part of a part is a part. */
  lemma {:induction false} SubConceptTrans(x: Concept, y: Concept, z: Concept)
    requires SubConcept(x, y) && SubConcept(y, z)
    ensures SubConcept(x, z)
    decreases z
  {
    if y != z {
      var i :| 0 <= i < |Parts(z)| && SubConcept(y, Parts(z)[i]);
      SubConceptTrans(x, y, Parts(z)[i]);
    }
  }

  // The keys written.

  /** `createConceptStorageKey` of each concept. */
  function StorageKeys(cs: seq<Concept>): (r: seq<string>)
    ensures |r| == |cs| && forall i :: 0 <= i < |cs| ==> r[i] == ConceptStorageKey(cs[i])
  {
    seq(|cs|, i requires 0 <= i < |cs| => ConceptStorageKey(cs[i]))
  }

  /** `flatMap(concept => createContainmentKeys({ concept }))`. */
  function ContainmentEntries(cs: seq<Concept>): seq<string>
    decreases |cs|
  {
    if |cs| == 0 then [] else ContainmentKeys(cs[0]) + ContainmentEntries(cs[1..])
  }

  /** The match key of each mask of `concept`, in order; the first mask that does not match aborts. */
  function MatchKeyOf(concept: Concept): Concept -> Result<string>
  {
    (mask: Concept) => MaskMatchKey(concept, mask)
  }

  /** `getConceptMasks(concept).map(mask => createMaskMatchKey({ concept, mask }))`. */
  function ConceptMaskKeys(concept: Concept): Result<seq<string>>
  {
    match Masks.ConceptMasks(concept)
    case Err(m) => Err(m)
    case Ok(masks) => ReadEach(masks, MatchKeyOf(concept))
  }

  /** The `flatMap` of `saveMasks`: all keys are computed, in order, before anything is written. */
  function MaskKeys(cs: seq<Concept>): Result<seq<string>>
    decreases |cs|
  {
    if |cs| == 0 then Ok([])
    else
      match ConceptMaskKeys(cs[0])
      case Err(m) => Err(m)
      case Ok(first) =>
        match MaskKeys(cs[1..])
        case Err(m) => Err(m)
        case Ok(rest) => Ok(first + rest)
  }

  // saveMasks and saveContainments.

  /**
   * `saveMasks(storage, concepts)`: every mask-match key of every concept is
   * marked, in batches of 128; when a key cannot be made nothing is written.
   */
  method SaveMasks(store: Storage, concepts: seq<Concept>) returns (r: Result<seq<Concept>>)
    modifies store
    ensures MaskKeys(concepts).Err? ==> r == Err(MaskKeys(concepts).msg) && store.data == old(store.data)
    ensures MaskKeys(concepts).Ok? ==>
      r == Ok(concepts) && store.data == old(store.data) + Assign(Marks(MaskKeys(concepts).value))
  {
    var keys := MaskKeys(concepts);
    if keys.Err? {
      return Err(keys.msg);
    }
    store.PutInBatches(128, Marks(keys.value));
    r := Ok(concepts);
  }

  /** `saveContainments(storage, concepts)`: every containment key of every concept is marked, in batches of 128. */
  method SaveContainments(store: Storage, concepts: seq<Concept>)
    modifies store
    ensures store.data == old(store.data) + Assign(Marks(ContainmentEntries(concepts)))
  {
    store.PutInBatches(128, Marks(ContainmentEntries(concepts)));
  }

  // addConcepts.

  /** The concepts `addConcepts` adds, all found before any write: the new inputs, then their new transitive parts. */
  function NewConcepts(data: Data, concepts: seq<Concept>): Result<seq<Concept>>
  {
    match FilterNewOf(data, SourceConcepts(concepts))
    case Err(m) => Err(m)
    case Ok(top) =>
      match FilterNewOf(data, SourceConcepts(DeepWithoutContainers(top)))
      case Err(m) => Err(m)
      case Ok(subs) => Ok(top + subs)
  }

  /** What a call returns, and the storage it leaves. */
  datatype Outcome = Outcome(result: Result<seq<Concept>>, data: Data)

  /**
   * `addConcepts(storage, concepts)`: the storage keys are written first, so
   * a failing `saveMasks` leaves them written but no mask or containment key.
   */
  function AddOutcome(data: Data, concepts: seq<Concept>): Outcome
  {
    match NewConcepts(data, concepts)
    case Err(m) => Outcome(Err(m), data)
    case Ok(added) =>
      var marked := data + Assign(Marks(StorageKeys(added)));
      match MaskKeys(added)
      case Err(m) => Outcome(Err(m), marked)
      case Ok(maskKeys) =>
        Outcome(Ok(added), marked + Assign(Marks(maskKeys)) + Assign(Marks(ContainmentEntries(added))))
  }

  /** `addConcepts`. */
  method AddConcepts(store: Storage, concepts: seq<Concept>) returns (r: Result<seq<Concept>>)
    modifies store
    ensures Outcome(r, store.data) == AddOutcome(old(store.data), concepts)
  {
    var top := FilterNew(store, SourceConcepts(concepts));
    if top.Err? {
      return Err(top.msg);
    }
    var deep := GetConceptsDeepWithoutContainers(top.value);
    var subs := FilterNew(store, SourceConcepts(deep));
    if subs.Err? {
      return Err(subs.msg);
    }
    var added := top.value + subs.value;
    assert NewConcepts(old(store.data), concepts) == Ok(added);
    store.PutInBatches(128, Marks(StorageKeys(added)));
    var saved := SaveMasks(store, added);
    if saved.Err? {
      return Err(saved.msg);
    }
    SaveContainments(store, added);
    r := Ok(added);
  }

  // What addConcepts promises.

  /** Every input and every transitive part of it reads back from its own key. */
  ghost predicate ReadBack(concepts: seq<Concept>)
  {
    forall c, x :: c in concepts && SubConcept(x, c) ==> ParsesBack(x)
  }

  /** The new inputs, deduplicated by key. */
  function NewTop(data: Data, concepts: seq<Concept>): seq<Concept>
  {
    Stored(data, UniqueByKey(concepts), false)
  }

  /** The new transitive parts of the new inputs. */
  function NewParts(data: Data, concepts: seq<Concept>): seq<Concept>
  {
    Stored(data, DeepWithoutContainers(NewTop(data, concepts)), false)
  }

  /** A part of one of `c`'s parts is a part of `c`. */
  lemma ProperSubIsSub(x: Concept, c: Concept)
    requires ProperSub(x, c)
    ensures SubConcept(x, c)
  {
  }

  /** For concepts that read back, the added concepts are the unstored inputs followed by their unstored parts. */
  lemma NewConceptsUnstored(data: Data, concepts: seq<Concept>)
    requires ReadBack(concepts)
    ensures NewConcepts(data, concepts) == Ok(NewTop(data, concepts) + NewParts(data, concepts))
    ensures DistinctKeys(NewTop(data, concepts)) && DistinctKeys(NewParts(data, concepts))
  {
    var unique := UniqueByKey(concepts);
    UniqueByKeyFacts(concepts);
    forall c | c in unique
      ensures ParsesBack(c)
    {
      assert SubConcept(c, c);
    }
    assert ToConcepts(SourceConcepts(concepts)) == Ok(unique);
    FilterNewUnstored(data, SourceConcepts(concepts));
    var top := NewTop(data, concepts);
    var deep := DeepWithoutContainers(top);
    DeepWithoutContainersFacts(top);
    UniqueByKeyOfDistinct(deep);
    forall x | x in deep
      ensures ParsesBack(x)
    {
      var i :| 0 <= i < |top| && ProperSub(x, top[i]);
      assert top[i] in top;
      var j :| 0 <= j < |concepts| && concepts[j] == top[i];
      ProperSubIsSub(x, top[i]);
      assert concepts[j] in concepts;
    }
    assert ToConcepts(SourceConcepts(deep)) == Ok(deep);
    FilterNewUnstored(data, SourceConcepts(deep));
  }

  /** Marking keys leaves every old key in place and adds exactly the marked ones. */
  lemma MarkedKeys(data: Data, keys: seq<string>)
    ensures forall k :: k in data + Assign(Marks(keys)) <==> k in data || k in keys
    ensures forall k :: k in keys ==> (data + Assign(Marks(keys)))[k] == Flag(true)
    ensures forall k :: k !in keys && k in data ==> (data + Assign(Marks(keys)))[k] == data[k]
  {
    MarksAssign(keys);
  }

  /** The storage keys are written even when `saveMasks` fails afterwards. */
  lemma AddedStored(data: Data, concepts: seq<Concept>)
    requires NewConcepts(data, concepts).Ok?
    ensures forall x :: x in NewConcepts(data, concepts).value ==> ConceptStorageKey(x) in AddOutcome(data, concepts).data
  {
    var added := NewConcepts(data, concepts).value;
    var marked := data + Assign(Marks(StorageKeys(added)));
    MarkedKeys(data, StorageKeys(added));
    forall x | x in added
      ensures ConceptStorageKey(x) in marked
    {
      var i :| 0 <= i < |added| && added[i] == x;
      assert StorageKeys(added)[i] == ConceptStorageKey(x);
    }
    if MaskKeys(added).Ok? {
      MarkedKeys(marked, MaskKeys(added).value);
      MarkedKeys(marked + Assign(Marks(MaskKeys(added).value)), ContainmentEntries(added));
    }
  }

  /**
   * Every concept `addConcepts` returns was absent before the call and is
   * stored after it; every input is stored after it.
   */
  lemma AddedWereNew(data: Data, concepts: seq<Concept>)
    requires ReadBack(concepts)
    ensures AddOutcome(data, concepts).result.Ok? ==> AddOutcome(data, concepts).result == NewConcepts(data, concepts)
    ensures NewConcepts(data, concepts).Ok?
    ensures forall x :: x in NewConcepts(data, concepts).value ==>
      ConceptStorageKey(x) !in data && ConceptStorageKey(x) in AddOutcome(data, concepts).data
    ensures forall c :: c in concepts ==> ConceptStorageKey(c) in AddOutcome(data, concepts).data
  {
    NewConceptsUnstored(data, concepts);
    AddedStored(data, concepts);
    AddKeepsKeys(data, concepts);
    var top := NewTop(data, concepts);
    UniqueByKeyFacts(concepts);
    forall c | c in concepts
      ensures ConceptStorageKey(c) in AddOutcome(data, concepts).data
    {
      var j :| 0 <= j < |concepts| && concepts[j] == c;
      assert Key(c) in KeySet(concepts);
      assert Key(c) in KeySet(UniqueByKey(concepts));
      var i :| 0 <= i < |UniqueByKey(concepts)| && Key(UniqueByKey(concepts)[i]) == Key(c);
      var u := UniqueByKey(concepts)[i];
      assert ConceptStorageKey(u) == ConceptStorageKey(c);
      if ConceptStorageKey(u) !in data {
        assert u in top;
      }
    }
  }

  /** No key is ever deleted. */
  lemma AddKeepsKeys(data: Data, concepts: seq<Concept>)
    ensures forall k :: k in data ==> k in AddOutcome(data, concepts).data
  {
    if NewConcepts(data, concepts).Ok? {
      var added := NewConcepts(data, concepts).value;
      var marked := data + Assign(Marks(StorageKeys(added)));
      MarkedKeys(data, StorageKeys(added));
      if MaskKeys(added).Ok? {
        MarkedKeys(marked, MaskKeys(added).value);
        MarkedKeys(marked + Assign(Marks(MaskKeys(added).value)), ContainmentEntries(added));
      }
    }
  }

  /** A key is stored afterwards if it was before, or if a new concept with the same key is added. */
  lemma StoredByKey(data: Data, concepts: seq<Concept>, y: Concept, xs: seq<Concept>)
    requires ReadBack(concepts)
    requires Key(y) in KeySet(xs)
    requires NewConcepts(data, concepts).Ok?
    requires forall x :: x in xs && ConceptStorageKey(x) !in data ==> x in NewConcepts(data, concepts).value
    ensures ConceptStorageKey(y) in AddOutcome(data, concepts).data
  {
    AddedWereNew(data, concepts);
    var i :| 0 <= i < |xs| && Key(xs[i]) == Key(y);
    assert ConceptStorageKey(xs[i]) == ConceptStorageKey(y);
    assert xs[i] in xs;
  }

  /** Every transitive part of every added concept is stored afterwards, whether it was new or not. */
  lemma AddedPartsStored(data: Data, concepts: seq<Concept>, x: Concept, y: Concept)
    requires ReadBack(concepts)
    requires NewConcepts(data, concepts).Ok? && x in NewConcepts(data, concepts).value
    requires ProperSub(y, x)
    ensures ConceptStorageKey(y) in AddOutcome(data, concepts).data
  {
    NewConceptsUnstored(data, concepts);
    var top, parts := NewTop(data, concepts), NewParts(data, concepts);
    var deep := DeepWithoutContainers(top);
    DeepWithoutContainersFacts(top);
    assert x in top + parts;
    ghost var t: Concept, ti: nat;
    if x in top {
      var i :| 0 <= i < |top| && top[i] == x;
      t, ti := x, i;
      assert ProperSub(y, top[ti]);
    } else {
      assert x in deep;
      var i :| 0 <= i < |top| && ProperSub(x, top[i]);
      var k :| 0 <= k < |Parts(top[i])| && SubConcept(x, Parts(top[i])[k]);
      ProperSubIsSub(y, x);
      SubConceptTrans(y, x, Parts(top[i])[k]);
      t, ti := top[i], i;
      assert ProperSub(y, top[ti]);
    }
    ProperKeysMember(top, ti, y);
    forall z | z in deep && ConceptStorageKey(z) !in data
      ensures z in NewConcepts(data, concepts).value
    {
      assert z in parts;
    }
    StoredByKey(data, concepts, y, deep);
  }

  /** Adding concepts that are all stored already returns `[]` and writes nothing. */
  lemma ReAddWritesNothing(data: Data, concepts: seq<Concept>)
    requires ReadBack(concepts)
    requires forall c :: c in concepts ==> ConceptStorageKey(c) in data
    ensures AddOutcome(data, concepts) == Outcome(Ok([]), data)
  {
    NewConceptsUnstored(data, concepts);
    NothingNew(data, concepts);
  }

  lemma NothingNew(data: Data, concepts: seq<Concept>)
    requires NewConcepts(data, concepts) == Ok(NewTop(data, concepts) + NewParts(data, concepts))
    requires forall c :: c in concepts ==> ConceptStorageKey(c) in data
    ensures AddOutcome(data, concepts) == Outcome(Ok([]), data)
  {
    NoneUnstored(data, concepts);
    AddingNone(data, concepts);
  }

  lemma NoneUnstored(data: Data, concepts: seq<Concept>)
    requires forall c :: c in concepts ==> ConceptStorageKey(c) in data
    ensures NewTop(data, concepts) + NewParts(data, concepts) == []
  {
    UniqueByKeyFacts(concepts);
    KeepNone(UniqueByKey(concepts), StoredTest(data, false));
    assert NewTop(data, concepts) == [];
    assert DeepWithoutContainers([]) == [];
    KeepNone([], StoredTest(data, false));
  }

  /** With nothing new, nothing is written. */
  lemma AddingNone(data: Data, concepts: seq<Concept>)
    requires NewConcepts(data, concepts) == Ok([])
    ensures AddOutcome(data, concepts) == Outcome(Ok([]), data)
  {
    MarksAssign([]);
    assert Assign(Marks(StorageKeys([]))) == map[];
    assert MaskKeys([]) == Ok([]);
    assert ContainmentEntries([]) == [];
    assert data + map[] == data;
  }

  /** Every key of `ContainmentEntries(cs)` is a containment key of one of `cs`, and each of those is there. */
  lemma {:induction false} ContainmentEntriesFacts(cs: seq<Concept>)
    ensures forall x, i :: x in cs && 0 <= i < |Parts(x)| ==> ContainmentKeys(x)[i] in ContainmentEntries(cs)
    ensures forall k :: k in ContainmentEntries(cs) ==> HasPrefix(k, ContainerTag + ":")
    decreases |cs|
  {
    if |cs| > 0 {
      ContainmentEntriesFacts(cs[1..]);
      forall x, i | x in cs && 0 <= i < |Parts(x)|
        ensures ContainmentKeys(x)[i] in ContainmentEntries(cs)
      {
        if x != cs[0] {
          assert x in cs[1..];
        }
      }
      forall k | k in ContainmentKeys(cs[0])
        ensures HasPrefix(k, ContainerTag + ":")
      {
        var i :| 0 <= i < |ContainmentKeys(cs[0])| && ContainmentKeys(cs[0])[i] == k;
        ContainmentKeyTagged(Parts(cs[0])[i], i, cs[0]);
      }
    }
  }

  lemma TagPrefix(tag: string, rest: string)
    ensures HasPrefix(tag + rest, tag)
  {
    assert (tag + rest)[..|tag|] == tag;
  }

  /** After a successful call each returned concept has a containment entry per part. */
  lemma ContainmentsWritten(data: Data, concepts: seq<Concept>)
    requires AddOutcome(data, concepts).result.Ok?
    ensures forall x, i :: x in AddOutcome(data, concepts).result.value && 0 <= i < |Parts(x)| ==>
      ContainmentKeys(x)[i] in AddOutcome(data, concepts).data
  {
    var added := NewConcepts(data, concepts).value;
    var marked := data + Assign(Marks(StorageKeys(added)));
    var masked := marked + Assign(Marks(MaskKeys(added).value));
    ContainmentEntriesFacts(added);
    MarkedKeys(masked, ContainmentEntries(added));
  }

  /** `MaskKeys` succeeds exactly when every concept's masks and match keys can be made, and then holds all of them. */
  lemma {:induction false} MaskKeysFacts(cs: seq<Concept>)
    ensures MaskKeys(cs).Ok? <==> forall x :: x in cs ==> ConceptMaskKeys(x).Ok?
    ensures MaskKeys(cs).Ok? ==> forall x, k :: x in cs && k in ConceptMaskKeys(x).value ==> k in MaskKeys(cs).value
    ensures MaskKeys(cs).Ok? ==> forall k :: k in MaskKeys(cs).value ==> exists x :: x in cs && k in ConceptMaskKeys(x).value
    decreases |cs|
  {
    if |cs| > 0 {
      MaskKeysFacts(cs[1..]);
      assert forall x :: x in cs <==> x == cs[0] || x in cs[1..];
    }
  }

  /** A match key is filed under the `mask/match:` tag. */
  lemma MatchKeyTagged(concept: Concept, mask: Concept)
    requires MaskMatchKey(concept, mask).Ok?
    ensures HasPrefix(MaskMatchKey(concept, mask).value, MatchTag + ":")
  {
    var tag, e := MatchTag + ":", EncodeConceptKey(Key(mask));
    TagPrefix(tag, e);
    PrefixExtend(tag + e, tag, "/");
    PrefixExtend(tag + e + "/", tag, VariableValueString(Matching.Match(concept, mask).value));
  }

  lemma ContainmentKeyTagged(part: Concept, index: nat, container: Concept)
    ensures HasPrefix(ContainmentKey(part, index, container), ContainerTag + ":")
  {
    var tag, e := ContainerTag + ":", EncodeConceptKey(Key(part));
    TagPrefix(tag, e);
    PrefixExtend(tag + e, tag, "/");
    PrefixExtend(tag + e + "/", tag, NatToString(index));
    PrefixExtend(tag + e + "/" + NatToString(index), tag, "/");
    PrefixExtend(tag + e + "/" + NatToString(index) + "/", tag, EncodeConceptKey(Key(container)));
  }

  lemma PrefixExtend(s: string, p: string, t: string)
    requires HasPrefix(s, p)
    ensures HasPrefix(s + t, p)
  {
    assert (s + t)[..|p|] == s[..|p|];
  }

  /** The match keys of one concept: one per mask, each under the `mask/match:` tag; a mask that does not match makes them fail. */
  lemma ConceptMaskKeysFacts(concept: Concept)
    ensures ConceptMaskKeys(concept).Ok? ==> Masks.ConceptMasks(concept).Ok?
    ensures ConceptMaskKeys(concept).Ok? ==>
      forall m :: m in Masks.ConceptMasks(concept).value ==>
        MaskMatchKey(concept, m).Ok? && MaskMatchKey(concept, m).value in ConceptMaskKeys(concept).value
    ensures ConceptMaskKeys(concept).Ok? ==> forall k :: k in ConceptMaskKeys(concept).value ==> HasPrefix(k, MatchTag + ":")
    ensures Masks.ConceptMasks(concept).Ok? && (exists m :: m in Masks.ConceptMasks(concept).value && MaskMatchKey(concept, m).Err?)
      ==> ConceptMaskKeys(concept).Err?
  {
    var masks := Masks.ConceptMasks(concept);
    if masks.Ok? {
      var read := MatchKeyOf(concept);
      assert ConceptMaskKeys(concept) == ReadEach(masks.value, read);
      if ReadEach(masks.value, read).Ok? {
        ReadEachMembers(masks.value, read);
        forall k | k in ReadEach(masks.value, read).value
          ensures HasPrefix(k, MatchTag + ":")
        {
          var m :| m in masks.value && read(m) == Ok(k);
          MatchKeyTagged(concept, m);
        }
      }
      if exists m :: m in masks.value && MaskMatchKey(concept, m).Err? {
        var m :| m in masks.value && MaskMatchKey(concept, m).Err?;
        var i :| 0 <= i < |masks.value| && masks.value[i] == m;
        ReadEachErrorAt(masks.value, read, i);
      }
    }
  }

  /**
   * After a successful call each returned concept has a mask-match entry per
   * mask; the call succeeds only when every such key can be made.
   */
  lemma MasksWritten(data: Data, concepts: seq<Concept>)
    requires AddOutcome(data, concepts).result.Ok?
    ensures forall x :: x in AddOutcome(data, concepts).result.value ==> Masks.ConceptMasks(x).Ok?
    ensures forall x, m :: x in AddOutcome(data, concepts).result.value && m in Masks.ConceptMasks(x).value ==>
      MaskMatchKey(x, m).Ok? && MaskMatchKey(x, m).value in AddOutcome(data, concepts).data
  {
    var added := NewConcepts(data, concepts).value;
    var marked := data + Assign(Marks(StorageKeys(added)));
    var maskKeys := MaskKeys(added).value;
    var masked := marked + Assign(Marks(maskKeys));
    MaskKeysFacts(added);
    MarkedKeys(marked, maskKeys);
    MarkedKeys(masked, ContainmentEntries(added));
    forall x | x in added
      ensures Masks.ConceptMasks(x).Ok?
      ensures forall m :: m in Masks.ConceptMasks(x).value ==> MaskMatchKey(x, m).Ok? && MaskMatchKey(x, m).value in AddOutcome(data, concepts).data
    {
      ConceptMaskKeysFacts(x);
    }
  }

  /** The tags of the keys `addConcepts` writes: concept storage, mask-match and containment keys. */
  predicate Tagged(k: string)
  {
    HasPrefix(k, StorageTag + ":") || HasPrefix(k, MatchTag + ":") || HasPrefix(k, ContainerTag + ":")
  }

  /** No mask counter carries one of the written tags. */
  lemma CounterNotTagged(k: string)
    ensures HasPrefix(k, CountTag) ==> !Tagged(k)
  {
    if HasPrefix(k, CountTag) {
      assert k[0] == 'm' && k[10] == 'C';
      assert (StorageTag + ":")[0] == 'c' && (ContainerTag + ":")[0] == 'c';
      assert (MatchTag + ":")[10] == ':';
    }
  }

  /** Marking tagged keys adds only tagged keys and leaves every counter alone. */
  lemma MarkTagged(d: Data, keys: seq<string>)
    requires forall k :: k in keys ==> Tagged(k)
    ensures forall k :: k in d ==> k in d + Assign(Marks(keys))
    ensures forall k :: k in d + Assign(Marks(keys)) && k !in d ==> Tagged(k)
    ensures forall k :: HasPrefix(k, CountTag) ==>
      (k in d + Assign(Marks(keys)) <==> k in d) && (k in d ==> (d + Assign(Marks(keys)))[k] == d[k])
  {
    MarkedKeys(d, keys);
    forall k | HasPrefix(k, CountTag)
      ensures k !in keys
    {
      CounterNotTagged(k);
    }
  }

  lemma StorageKeysTagged(cs: seq<Concept>)
    ensures forall k :: k in StorageKeys(cs) ==> Tagged(k)
  {
    forall k | k in StorageKeys(cs)
      ensures Tagged(k)
    {
      var i :| 0 <= i < |cs| && StorageKeys(cs)[i] == k;
      TagPrefix(StorageTag + ":", EncodeConceptKey(Key(cs[i])));
    }
  }

  /**
   * `addConcepts` deletes nothing, writes only concept storage, mask-match
   * and containment keys, and leaves every mask counter as it was.
   */
  lemma AddFrame(data: Data, concepts: seq<Concept>)
    ensures forall k :: k in data ==> k in AddOutcome(data, concepts).data
    ensures forall k :: k in AddOutcome(data, concepts).data && k !in data ==> Tagged(k)
    ensures forall k :: HasPrefix(k, CountTag) ==>
      (k in AddOutcome(data, concepts).data <==> k in data)
      && (k in data ==> AddOutcome(data, concepts).data[k] == data[k])
    ensures AddOutcome(data, concepts).result.Err? && NewConcepts(data, concepts).Err? ==> AddOutcome(data, concepts).data == data
  {
    if NewConcepts(data, concepts).Ok? {
      var added := NewConcepts(data, concepts).value;
      StorageKeysTagged(added);
      MarkTagged(data, StorageKeys(added));
      var marked := data + Assign(Marks(StorageKeys(added)));
      if MaskKeys(added).Ok? {
        var maskKeys := MaskKeys(added).value;
        MaskKeysFacts(added);
        forall k | k in maskKeys
          ensures Tagged(k)
        {
          var x :| x in added && k in ConceptMaskKeys(x).value;
          ConceptMaskKeysFacts(x);
        }
        MarkTagged(marked, maskKeys);
        ContainmentEntriesFacts(added);
        MarkTagged(marked + Assign(Marks(maskKeys)), ContainmentEntries(added));
      }
    }
  }

  /** Two concepts that read back from the same key are the same concept. */
  lemma ParsesBackUnique(a: Concept, b: Concept)
    requires ParsesBack(a) && ParsesBack(b) && Key(a) == Key(b)
    ensures a == b
  {
  }

  /**
   * A new input that is also a part of another new input is returned twice:
   * once among the inputs, once among the parts, as the second `filterNew`
   * runs before anything is written.
   */
  lemma AddedTwice(data: Data, concepts: seq<Concept>, x: Concept, t: Concept)
    requires ReadBack(concepts)
    requires x in concepts && t in concepts && ProperSub(x, t)
    requires ConceptStorageKey(x) !in data && ConceptStorageKey(t) !in data
    ensures NewConcepts(data, concepts).Ok?
    ensures var added := NewConcepts(data, concepts).value;
      exists i, j :: 0 <= i < j < |added| && Key(added[i]) == Key(x) && Key(added[j]) == Key(x)
  {
    NewConceptsUnstored(data, concepts);
    var i := NewInputAt(data, concepts, x);
    var ti := NewInputAt(data, concepts, t);
    TwiceAmongNew(data, concepts, x, i, ti);
  }

  lemma TwiceAmongNew(data: Data, concepts: seq<Concept>, x: Concept, i: nat, ti: nat)
    requires i < |NewTop(data, concepts)| && NewTop(data, concepts)[i] == x
    requires ti < |NewTop(data, concepts)| && ProperSub(x, NewTop(data, concepts)[ti])
    requires ConceptStorageKey(x) !in data
    ensures var added := NewTop(data, concepts) + NewParts(data, concepts);
      exists i, j :: 0 <= i < j < |added| && Key(added[i]) == Key(x) && Key(added[j]) == Key(x)
  {
    var top, parts := NewTop(data, concepts), NewParts(data, concepts);
    var j := NewPartAt(top, data, ti, x);
    assert Key(parts[j]) == Key(x);
    AppendAt(top, parts, i, j);
  }

  lemma AppendAt(a: seq<Concept>, b: seq<Concept>, i: nat, j: nat)
    requires i < |a| && j < |b|
    ensures i < |a| + j < |a + b| && (a + b)[i] == a[i] && (a + b)[|a| + j] == b[j]
  {
  }

  /** A new input is among the new top concepts. */
  lemma NewInputAt(data: Data, concepts: seq<Concept>, x: Concept) returns (i: nat)
    requires ReadBack(concepts)
    requires x in concepts && ConceptStorageKey(x) !in data
    ensures i < |NewTop(data, concepts)| && NewTop(data, concepts)[i] == x
  {
    var unique := UniqueByKey(concepts);
    UniqueByKeyFacts(concepts);
    var xi :| 0 <= xi < |concepts| && concepts[xi] == x;
    assert Key(x) in KeySet(concepts);
    var a :| 0 <= a < |unique| && Key(unique[a]) == Key(x);
    var u := unique[a];
    assert u in concepts;
    assert ConceptStorageKey(u) == ConceptStorageKey(x);
    assert u in NewTop(data, concepts);
    i :| 0 <= i < |NewTop(data, concepts)| && NewTop(data, concepts)[i] == u;
    assert SubConcept(u, u) && SubConcept(x, x);
    ParsesBackUnique(u, x);
  }

  /** A part of a new top concept whose key is new is among the new parts. */
  lemma NewPartAt(top: seq<Concept>, data: Data, ti: nat, x: Concept) returns (j: nat)
    requires ti < |top| && ProperSub(x, top[ti]) && ConceptStorageKey(x) !in data
    ensures j < |Stored(data, DeepWithoutContainers(top), false)|
    ensures Key(Stored(data, DeepWithoutContainers(top), false)[j]) == Key(x)
  {
    var deep := DeepWithoutContainers(top);
    DeepWithoutContainersFacts(top);
    ProperKeysMember(top, ti, x);
    assert Key(x) in KeySet(deep);
    var z :| 0 <= z < |deep| && Key(deep[z]) == Key(x);
    assert ConceptStorageKey(deep[z]) == ConceptStorageKey(x);
    var parts := Stored(data, deep, false);
    assert deep[z] in parts;
    j :| 0 <= j < |parts| && parts[j] == deep[z];
  }
}
