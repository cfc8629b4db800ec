// Removing concepts from a space (apps/api/src/apis/space/queries/removeConcepts.ts):
// the concepts, and every container found through the containment index,
// transitively, lose their storage key, their mask-match keys and their own
// part-to-container containment keys, and the mask counters that exist drop
// by the number of match keys collected for their mask, all in one
// transaction.

module Removal {
  import opened Wrappers
  import opened Strings
  import opened Concepts
  import opened Keys
  import opened Store
  import opened Folds
  import opened Lookups
  import opened Additions
  import Masks = ConceptMasks

  import opened Cascade

  // getKeysToUpdate.

  /** The containment relation `getContexts` reads from `data`. */
  function Containers(data: Data): Concept -> Result<seq<Concept>>
  {
    (c: Concept) => ContextsOf(data, c)
  }

  /**
   * The concepts `getKeysToUpdate` visits, in order: each input, then,
   * depth first, every container found through the containment index. A
   * concept whose masks or match keys cannot be made stops the walk before
   * its containers are read.
   */
  function Visited(data: Data, concepts: seq<Concept>, fuel: nat): Result<seq<Concept>>
  {
    WalkAll(Containers(data), ConceptMaskKeys, concepts, fuel)
  }

  /** The `keys` object: concept, containment and mask-match keys, and the per-counter deltas. */
  datatype KeysToUpdate = KeysToUpdate(concept: seq<string>, containment: seq<string>, mask: seq<string>,
                                       maskCount: map<string, nat>)

  const NoKeys := KeysToUpdate([], [], [], map[])

  /** `maskCount.set(k, (maskCount.get(k) || 0) + 1)`. */
  function Bump(m: map<string, nat>, k: string): map<string, nat>
  {
    m[k := (if k in m then m[k] else 0) + 1]
  }

  /** The counters after bumping each key in turn. */
  function Tally(m: map<string, nat>, ks: seq<string>): map<string, nat>
    decreases |ks|
  {
    if |ks| == 0 then m else Tally(Bump(m, ks[0]), ks[1..])
  }

  /** The counter key of each mask. */
  function CountKeys(masks: seq<Concept>): (r: seq<string>)
    ensures |r| == |masks| && forall i :: 0 <= i < |masks| ==> r[i] == MaskMatchCountKey(masks[i])
  {
    seq(|masks|, i requires 0 <= i < |masks| => MaskMatchCountKey(masks[i]))
  }

  /** The counter keys one concept bumps: one per mask. */
  function CountKeysOf(c: Concept): seq<string>
  {
    match Masks.ConceptMasks(c)
    case Err(_) => []
    case Ok(masks) => CountKeys(masks)
  }

  /** The counter keys of several concepts, in order. */
  function CountEntries(cs: seq<Concept>): seq<string>
    decreases |cs|
  {
    if |cs| == 0 then [] else CountKeysOf(cs[0]) + CountEntries(cs[1..])
  }

  /** What visiting one concept adds to `keys`; it fails exactly when the concept's match keys cannot be made. */
  function AddOne(acc: KeysToUpdate, c: Concept): (r: Result<KeysToUpdate>)
    ensures r.Ok? <==> ConceptMaskKeys(c).Ok?
  {
    match ConceptMaskKeys(c)
    case Err(m) => Err(m)
    case Ok(matchKeys) =>
      Ok(KeysToUpdate(acc.concept + [ConceptStorageKey(c)], acc.containment + ContainmentKeys(c),
                      acc.mask + matchKeys, Tally(acc.maskCount, CountKeysOf(c))))
  }

  /** The keys after a walk, or the walk's failure. */
  function Accumulate(acc: KeysToUpdate, walk: Result<seq<Concept>>): Result<KeysToUpdate>
  {
    match walk
    case Err(m) => Err(m)
    case Ok(vs) => Fold(AddOne, acc, vs)
  }

  /** `getKeysToUpdate(storage, concepts)`. */
  function KeysToUpdateOf(data: Data, concepts: seq<Concept>, fuel: nat): Result<KeysToUpdate>
  {
    Accumulate(NoKeys, Visited(data, concepts, fuel))
  }

  /**
   * `recurse(concept)` with the `keys` object passed along: the storage key,
   * one match key and one counter bump per mask, the containment keys, then
   * the containers. The store is only read.
   */
  method Recurse(store: Storage, c: Concept, fuel: nat, keys: KeysToUpdate) returns (r: Result<KeysToUpdate>)
    ensures r == Accumulate(keys, Walk(Containers(store.data), ConceptMaskKeys, c, fuel))
    decreases fuel, 1
  {
    WalkFails(Containers(store.data), c, fuel, keys);
    if fuel == 0 {
      return Err(DepthExceeded);
    }
    var next := Visit(c, keys);
    if next.Err? {
      return Err(next.msg);
    }
    var depth := fuel - 1;
    r := Climb(store, c, depth, next.value);
    WalkAccumulate(Containers(store.data), c, fuel, depth, keys, next.value);
  }

  /** The rest of `recurse(concept)` once the concept's own keys are in: `getContexts`, then each container. */
  method Climb(store: Storage, c: Concept, depth: nat, next: KeysToUpdate) returns (r: Result<KeysToUpdate>)
    ensures r == Climbed(Containers(store.data), c, depth, next)
    decreases depth, 3
  {
    var contexts := GetContexts(store, c);
    ghost var up := Containers(store.data);
    assert up(c) == contexts;
    if contexts.Err? {
      return Err(contexts.msg);
    }
    r := RecurseAll(store, contexts.value, depth, next);
  }

  /** The keys of `c` itself: its storage key, one match key and one counter bump per mask, its containment keys. */
  method Visit(c: Concept, keys: KeysToUpdate) returns (r: Result<KeysToUpdate>)
    ensures r == AddOne(keys, c)
  {
    var concept := keys.concept + [ConceptStorageKey(c)];
    var masks := Masks.ConceptMasks(c);
    if masks.Err? {
      return Err(masks.msg);
    }
    var ms := masks.value;
    ghost var read := MatchKeyOf(c);
    var matchKeys: seq<string> := [];
    var maskCount := keys.maskCount;
    var i := 0;
    while i < |ms|
      invariant 0 <= i <= |ms|
      invariant ReadEach(ms[..i], read) == Ok(matchKeys)
      invariant maskCount == Tally(keys.maskCount, CountKeys(ms[..i]))
    {
      var matchKey := MaskMatchKey(c, ms[i]);
      if matchKey.Err? {
        ReadEachFirstError(ms, read, i);
        return Err(matchKey.msg);
      }
      ReadEachStep(ms, read, i);
      CountKeysStep(keys.maskCount, ms, i);
      matchKeys := matchKeys + [matchKey.value];
      maskCount := Bump(maskCount, MaskMatchCountKey(ms[i]));
      i := i + 1;
    }
    assert ms[..i] == ms;
    var mask := keys.mask + matchKeys;
    r := Ok(KeysToUpdate(concept, keys.containment + ContainmentKeys(c), mask, maskCount));
  }

  /** `for (const c of cs) await recurse(c)`. */
  method RecurseAll(store: Storage, cs: seq<Concept>, fuel: nat, keys: KeysToUpdate) returns (r: Result<KeysToUpdate>)
    ensures r == Accumulate(keys, WalkAll(Containers(store.data), ConceptMaskKeys, cs, fuel))
    decreases fuel, 2
  {
    ghost var up := Containers(store.data);
    var acc := keys;
    ghost var visited: seq<Concept> := [];
    var j := 0;
    while j < |cs|
      invariant 0 <= j <= |cs|
      invariant WalkAll(up, ConceptMaskKeys, cs[..j], fuel) == Ok(visited)
      invariant Fold(AddOne, keys, visited) == Ok(acc)
    {
      var step := Recurse(store, cs[j], fuel, acc);
      if step.Err? {
        WalkStepError(up, cs, fuel, j, acc);
        WalkAllPrefixError(up, ConceptMaskKeys, cs, fuel, j + 1);
        return Err(step.msg);
      }
      ghost var w := WalkStepOk(up, cs, fuel, j, acc);
      FoldAppend(AddOne, keys, visited, w);
      visited := visited + w;
      acc := step.value;
      j := j + 1;
    }
    assert cs[..j] == cs;
    r := Ok(acc);
  }

  /** `getKeysToUpdate(storage, concepts)`; the store is only read. */
  method GetKeysToUpdate(store: Storage, concepts: seq<Concept>, fuel: nat) returns (r: Result<KeysToUpdate>)
    ensures r == KeysToUpdateOf(store.data, concepts, fuel)
  {
    r := RecurseAll(store, concepts, fuel, NoKeys);
  }

  // The keys' properties.

  lemma CountKeysStep(m: map<string, nat>, ms: seq<Concept>, i: nat)
    requires i < |ms|
    ensures Tally(m, CountKeys(ms[..i + 1])) == Bump(Tally(m, CountKeys(ms[..i])), MaskMatchCountKey(ms[i]))
  {
    MapSnoc(MaskMatchCountKey, ms, i, CountKeys(ms[..i + 1]), CountKeys(ms[..i]));
    TallyAppend(m, CountKeys(ms[..i]), [MaskMatchCountKey(ms[i])]);
  }

  lemma {:induction false} TallyAppend(m: map<string, nat>, a: seq<string>, b: seq<string>)
    ensures Tally(m, a + b) == Tally(Tally(m, a), b)
    decreases |a|
  {
    if |a| > 0 {
      assert (a + b)[0] == a[0] && (a + b)[1..] == a[1..] + b;
      TallyAppend(Bump(m, a[0]), a[1..], b);
    } else {
      assert a + b == b;
    }
  }

  /** Each counter ends at its starting value plus the number of times its key was bumped; no other counter appears. */
  lemma {:induction false} TallyCounts(m: map<string, nat>, ks: seq<string>)
    ensures forall k :: k in Tally(m, ks) <==> k in m || k in ks
    ensures forall k :: k in Tally(m, ks) ==> Tally(m, ks)[k] == (if k in m then m[k] else 0) + multiset(ks)[k]
    decreases |ks|
  {
    if |ks| > 0 {
      TallyCounts(Bump(m, ks[0]), ks[1..]);
      assert ks == [ks[0]] + ks[1..];
      assert forall k :: k in ks <==> k == ks[0] || k in ks[1..];
      assert forall k :: multiset(ks)[k] == multiset([ks[0]])[k] + multiset(ks[1..])[k];
    }
  }

  /** The keys after the containers of `c` are walked, or the failure to read them or walk them. */
  function Climbed(up: Concept -> Result<seq<Concept>>, c: Concept, depth: nat, next: KeysToUpdate): Result<KeysToUpdate>
  {
    match up(c)
    case Err(m) => Err(m)
    case Ok(xs) => Accumulate(next, WalkAll(up, ConceptMaskKeys, xs, depth))
  }

  /** Visiting `c` adds its own keys, then those of its containers' walk. */
  lemma WalkAccumulate(up: Concept -> Result<seq<Concept>>, c: Concept, fuel: nat, depth: nat, keys: KeysToUpdate, next: KeysToUpdate)
    requires fuel == depth + 1 && AddOne(keys, c) == Ok(next)
    ensures Climbed(up, c, depth, next) == Accumulate(keys, Walk(up, ConceptMaskKeys, c, fuel))
  {
    if up(c).Ok? {
      WalkStep(up, ConceptMaskKeys, c, fuel, depth);
      var rest := WalkAll(up, ConceptMaskKeys, up(c).value, depth);
      if rest.Ok? {
        assert ([c] + rest.value)[0] == c && ([c] + rest.value)[1..] == rest.value;
      }
    }
  }

  /** A walk that stops at its first concept makes `getKeysToUpdate` fail with the same error. */
  lemma WalkFails(up: Concept -> Result<seq<Concept>>, c: Concept, fuel: nat, keys: KeysToUpdate)
    ensures fuel == 0 ==> Accumulate(keys, Walk(up, ConceptMaskKeys, c, fuel)) == Err(DepthExceeded)
    ensures fuel > 0 && AddOne(keys, c).Err? ==> Accumulate(keys, Walk(up, ConceptMaskKeys, c, fuel)) == Err(AddOne(keys, c).msg)
    ensures fuel > 0 && AddOne(keys, c).Ok? && up(c).Err? ==> Accumulate(keys, Walk(up, ConceptMaskKeys, c, fuel)) == Err(up(c).msg)
  {
  }

  /** Keys can be made for every concept a successful walk visits. */
  lemma WalkKeysOk(up: Concept -> Result<seq<Concept>>, c: Concept, fuel: nat, acc: KeysToUpdate)
    requires Walk(up, ConceptMaskKeys, c, fuel).Ok?
    ensures Fold(AddOne, acc, Walk(up, ConceptMaskKeys, c, fuel).value).Ok?
  {
    var vs := Walk(up, ConceptMaskKeys, c, fuel).value;
    WalkFacts(up, ConceptMaskKeys, c, fuel);
    forall a, v | v in vs
      ensures AddOne(a, v).Ok?
    {
    }
    FoldOk(AddOne, acc, vs);
  }

  /** One more concept of a walk that the keys follow: the walk of it succeeds. */
  lemma WalkStepOk(up: Concept -> Result<seq<Concept>>, cs: seq<Concept>, fuel: nat, j: nat, acc: KeysToUpdate)
    returns (w: seq<Concept>)
    requires j < |cs| && WalkAll(up, ConceptMaskKeys, cs[..j], fuel).Ok?
    requires Accumulate(acc, Walk(up, ConceptMaskKeys, cs[j], fuel)).Ok?
    ensures Walk(up, ConceptMaskKeys, cs[j], fuel) == Ok(w)
    ensures WalkAll(up, ConceptMaskKeys, cs[..j + 1], fuel) == Ok(WalkAll(up, ConceptMaskKeys, cs[..j], fuel).value + w)
  {
    assert cs[..j + 1][..j] == cs[..j] && cs[..j + 1][j] == cs[j];
    w := Walk(up, ConceptMaskKeys, cs[j], fuel).value;
  }

  /** A walk that fails on one concept, after the earlier ones succeeded, fails with that concept's error. */
  lemma WalkStepError(up: Concept -> Result<seq<Concept>>, cs: seq<Concept>, fuel: nat, j: nat, acc: KeysToUpdate)
    requires j < |cs| && WalkAll(up, ConceptMaskKeys, cs[..j], fuel).Ok?
    requires Accumulate(acc, Walk(up, ConceptMaskKeys, cs[j], fuel)).Err?
    ensures WalkAll(up, ConceptMaskKeys, cs[..j + 1], fuel) == Err(Accumulate(acc, Walk(up, ConceptMaskKeys, cs[j], fuel)).msg)
  {
    assert cs[..j + 1][..j] == cs[..j] && cs[..j + 1][j] == cs[j];
    if Walk(up, ConceptMaskKeys, cs[j], fuel).Ok? {
      WalkKeysOk(up, cs[j], fuel, acc);
    }
  }

  /**
   * The keys of a successful walk: the storage key, the containment keys and
   * the match keys of every visited concept, in visiting order, and for each
   * counter the number of masks naming it.
   */
  lemma {:induction false} AddFacts(acc: KeysToUpdate, vs: seq<Concept>)
    requires Fold(AddOne, acc, vs).Ok?
    ensures MaskKeys(vs).Ok?
    ensures Fold(AddOne, acc, vs).value == KeysToUpdate(acc.concept + StorageKeys(vs), acc.containment + ContainmentEntries(vs),
                                                        acc.mask + MaskKeys(vs).value, Tally(acc.maskCount, CountEntries(vs)))
    decreases |vs|
  {
    if |vs| == 0 {
      assert StorageKeys(vs) == [];
    } else {
      var c, rest := vs[0], vs[1..];
      var next := AddOne(acc, c).value;
      AddFacts(next, rest);
      KeysCons(vs);
      TallyAppend(acc.maskCount, CountKeysOf(c), CountEntries(rest));
      Associative(acc.concept, [ConceptStorageKey(c)], StorageKeys(rest));
      Associative(acc.containment, ContainmentKeys(c), ContainmentEntries(rest));
      Associative(acc.mask, ConceptMaskKeys(c).value, MaskKeys(rest).value);
    }
  }

  /** The keys of a non-empty sequence of concepts: the first one's, then the rest's. */
  lemma StorageKeysCons(vs: seq<Concept>)
    requires |vs| > 0
    ensures StorageKeys(vs) == [ConceptStorageKey(vs[0])] + StorageKeys(vs[1..])
  {
    MapCons(ConceptStorageKey, vs, StorageKeys(vs), StorageKeys(vs[1..]));
  }

  lemma KeysCons(vs: seq<Concept>)
    requires |vs| > 0 && ConceptMaskKeys(vs[0]).Ok? && MaskKeys(vs[1..]).Ok?
    ensures StorageKeys(vs) == [ConceptStorageKey(vs[0])] + StorageKeys(vs[1..])
    ensures ContainmentEntries(vs) == ContainmentKeys(vs[0]) + ContainmentEntries(vs[1..])
    ensures MaskKeys(vs) == Ok(ConceptMaskKeys(vs[0]).value + MaskKeys(vs[1..]).value)
    ensures CountEntries(vs) == CountKeysOf(vs[0]) + CountEntries(vs[1..])
  {
    StorageKeysCons(vs);
  }

  /**
   * `getKeysToUpdate` succeeds exactly when the walk does, and then holds the
   * keys of the visited concepts.
   */
  lemma KeysOfVisited(data: Data, concepts: seq<Concept>, fuel: nat)
    ensures KeysToUpdateOf(data, concepts, fuel).Ok? <==> Visited(data, concepts, fuel).Ok?
    ensures Visited(data, concepts, fuel).Ok? ==>
      var vs := Visited(data, concepts, fuel).value;
      MaskKeys(vs).Ok?
      && KeysToUpdateOf(data, concepts, fuel).value
         == KeysToUpdate(StorageKeys(vs), ContainmentEntries(vs), MaskKeys(vs).value, Tally(map[], CountEntries(vs)))
  {
    var up := Containers(data);
    if WalkAll(up, ConceptMaskKeys, concepts, fuel).Ok? {
      var vs := WalkAll(up, ConceptMaskKeys, concepts, fuel).value;
      WalkAllFacts(up, ConceptMaskKeys, concepts, fuel);
      forall a, v | v in vs
        ensures AddOne(a, v).Ok?
      {
      }
      FoldOk(AddOne, NoKeys, vs);
      AddFacts(NoKeys, vs);
      assert [] + StorageKeys(vs) == StorageKeys(vs);
      assert [] + ContainmentEntries(vs) == ContainmentEntries(vs);
      assert [] + MaskKeys(vs).value == MaskKeys(vs).value;
    }
  }

  /**
   * The cascade: every input is visited, and so is every container reachable
   * from one through the containment index; only those are.
   */
  lemma VisitedReach(data: Data, concepts: seq<Concept>, fuel: nat)
    requires Visited(data, concepts, fuel).Ok?
    ensures forall c :: c in concepts ==> c in Visited(data, concepts, fuel).value
    ensures forall c, x, n: nat :: c in concepts && Reaches(Containers(data), c, x, n) ==> x in Visited(data, concepts, fuel).value
    ensures forall v :: v in Visited(data, concepts, fuel).value ==> ReachedFrom(Containers(data), concepts, v)
  {
    WalkAllReach(Containers(data), ConceptMaskKeys, concepts, fuel);
  }

  // decrementMaskMatchCounts and the transaction.

  /** The counters that exist, each lowered by its delta; `true` reads as 1. */
  function Decremented(data: Data, deltas: map<string, nat>): (r: Data)
    ensures forall k :: k in r <==> k in deltas && k in data
  {
    map k | k in deltas && k in data :: Count(Number(data[k]) - deltas[k])
  }

  /** `decrementMaskMatchCounts(storage, deltas)`: only counters that exist are rewritten. */
  method DecrementMaskMatchCounts(store: Storage, deltas: map<string, nat>)
    modifies store
    ensures store.data == old(store.data) + Decremented(old(store.data), deltas)
  {
    var values := store.GetMany(deltas.Keys);
    var updated: Data := map[];
    var todo := values.Keys;
    while todo != {}
      invariant todo <= values.Keys
      invariant updated == map k | k in values && k !in todo :: Count(Number(values[k]) - deltas[k])
      decreases |todo|
    {
      var k :| k in todo;
      updated := updated[k := Count(Number(values[k]) - deltas[k])];
      todo := todo - {k};
    }
    store.PutMap(updated);
  }

  /** `data` without the given keys. */
  function Without(data: Data, keys: seq<string>): (r: Data)
    ensures forall k :: k in r <==> k in data && k !in keys
  {
    map k | k in data && k !in keys :: data[k]
  }

  /** The number of the keys present: what `delete` returns. */
  function Present(data: Data, keys: seq<string>): nat
  {
    |set k | k in keys && k in data|
  }

  datatype Removed = Removed(result: Result<nat>, data: Data)

  /**
   * `removeConcepts`: the keys are collected first; the transaction deletes
   * the mask-match keys, then the containment keys, then rewrites the
   * counters, then deletes the concept keys and returns how many were there.
   */
  function RemoveOutcome(data: Data, concepts: seq<Concept>, fuel: nat): Removed
  {
    match KeysToUpdateOf(data, concepts, fuel)
    case Err(m) => Removed(Err(m), data)
    case Ok(keys) => Transaction(data, keys)
  }

  /** The transaction of `removeConcepts` once the keys are collected. */
  function Transaction(data: Data, keys: KeysToUpdate): Removed
  {
    var unmasked := Without(data, keys.mask);
    var unlinked := Without(unmasked, keys.containment);
    var counted := unlinked + Decremented(unlinked, keys.maskCount);
    Removed(Ok(Present(counted, keys.concept)), Without(counted, keys.concept))
  }

  /** `removeConcepts`, without the blob data it also deletes. */
  method RemoveConcepts(store: Storage, concepts: seq<Concept>, fuel: nat) returns (r: Result<nat>)
    modifies store
    ensures Removed(r, store.data) == RemoveOutcome(old(store.data), concepts, fuel)
  {
    var keys := GetKeysToUpdate(store, concepts, fuel);
    if keys.Err? {
      return Err(keys.msg);
    }
    var k := keys.value;
    var _ := store.Delete(k.mask);
    var _ := store.Delete(k.containment);
    DecrementMaskMatchCounts(store, k.maskCount);
    var count := store.Delete(k.concept);
    r := Ok(count);
  }

  // What removeConcepts promises.

  /** A concept storage key is neither a match key, nor a containment key, nor a counter. */
  lemma StorageKeyApart(k: string)
    requires HasPrefix(k, StorageTag + ":")
    ensures !HasPrefix(k, MatchTag + ":") && !HasPrefix(k, ContainerTag + ":") && !HasPrefix(k, CountTag)
  {
    assert k[0] == 'c' && k[7] == ':';
    assert (MatchTag + ":")[0] == 'm' && CountTag[0] == 'm' && (ContainerTag + ":")[7] == '/';
  }

  /** A counter is neither a match key nor a containment key. */
  lemma CounterApart(k: string)
    requires HasPrefix(k, CountTag)
    ensures !HasPrefix(k, MatchTag + ":") && !HasPrefix(k, ContainerTag + ":")
  {
    assert k[0] == 'm' && k[10] == 'C';
    assert (MatchTag + ":")[10] == ':' && (ContainerTag + ":")[0] == 'c';
  }

  /** Every key of the lists carries its list's tag, and every counter key the counter tag. */
  lemma KeysTagged(vs: seq<Concept>)
    requires MaskKeys(vs).Ok?
    ensures forall k :: k in StorageKeys(vs) ==> HasPrefix(k, StorageTag + ":")
    ensures forall k :: k in MaskKeys(vs).value ==> HasPrefix(k, MatchTag + ":")
    ensures forall k :: k in ContainmentEntries(vs) ==> HasPrefix(k, ContainerTag + ":")
    ensures forall k :: k in Tally(map[], CountEntries(vs)) ==> HasPrefix(k, CountTag)
  {
    forall k | k in StorageKeys(vs)
      ensures HasPrefix(k, StorageTag + ":")
    {
      var i :| 0 <= i < |vs| && StorageKeys(vs)[i] == k;
      TagPrefix(StorageTag + ":", EncodeConceptKey(Key(vs[i])));
    }
    MaskKeysFacts(vs);
    forall k | k in MaskKeys(vs).value
      ensures HasPrefix(k, MatchTag + ":")
    {
      var x :| x in vs && k in ConceptMaskKeys(x).value;
      ConceptMaskKeysFacts(x);
    }
    ContainmentEntriesFacts(vs);
    TallyCounts(map[], CountEntries(vs));
    CountEntriesTagged(vs);
  }

  lemma {:induction false} CountEntriesTagged(vs: seq<Concept>)
    ensures forall k :: k in CountEntries(vs) ==> HasPrefix(k, CountTag)
    decreases |vs|
  {
    if |vs| > 0 {
      CountEntriesTagged(vs[1..]);
      forall k | k in CountKeysOf(vs[0])
        ensures HasPrefix(k, CountTag)
      {
        var masks := Masks.ConceptMasks(vs[0]).value;
        var i :| 0 <= i < |masks| && CountKeys(masks)[i] == k;
        TagPrefix(CountTag, EncodeConceptKey(Key(masks[i])));
      }
    }
  }

  /** Each list holds only keys of its own kind, and the deltas only counter keys. */
  ghost predicate KeysApart(keys: KeysToUpdate)
  {
    (forall k :: k in keys.concept ==> HasPrefix(k, StorageTag + ":"))
    && (forall k :: k in keys.mask ==> HasPrefix(k, MatchTag + ":"))
    && (forall k :: k in keys.containment ==> HasPrefix(k, ContainerTag + ":"))
    && (forall k :: k in keys.maskCount ==> HasPrefix(k, CountTag))
  }

  /**
   * The transaction: no key of the lists is left, no key is created, every
   * other key keeps its value except that an existing counter drops by its
   * delta, and the count is the number of concept keys that were stored.
   */
  lemma TransactionEffect(data: Data, keys: KeysToUpdate)
    requires KeysApart(keys)
    ensures var after := Transaction(data, keys).data;
      (forall k :: k in keys.concept || k in keys.mask || k in keys.containment ==> k !in after)
      && (forall k :: k in after ==> k in data)
      && (forall k :: k in data && k !in keys.concept && k !in keys.mask && k !in keys.containment ==>
            k in after && after[k] == if k in keys.maskCount then Count(Number(data[k]) - keys.maskCount[k]) else data[k])
      && Transaction(data, keys).result == Ok(Present(data, keys.concept))
  {
    var unmasked := Without(data, keys.mask);
    var unlinked := Without(unmasked, keys.containment);
    var counted := unlinked + Decremented(unlinked, keys.maskCount);
    forall k | k in keys.concept
      ensures k in counted <==> k in data
    {
      StorageKeyApart(k);
    }
    assert (set k | k in keys.concept && k in counted) == (set k | k in keys.concept && k in data);
    forall k | k in keys.maskCount
      ensures k !in keys.mask && k !in keys.containment
    {
      CounterApart(k);
    }
  }

  /** The keys `getKeysToUpdate` collects are apart. */
  lemma CollectedApart(data: Data, concepts: seq<Concept>, fuel: nat)
    requires KeysToUpdateOf(data, concepts, fuel).Ok?
    ensures KeysApart(KeysToUpdateOf(data, concepts, fuel).value)
  {
    KeysOfVisited(data, concepts, fuel);
    KeysTagged(Visited(data, concepts, fuel).value);
  }

  /** `removeConcepts` as a whole: the transaction's effect on the keys `getKeysToUpdate` collects. */
  lemma RemoveEffect(data: Data, concepts: seq<Concept>, fuel: nat)
    requires RemoveOutcome(data, concepts, fuel).result.Ok?
    ensures var keys := KeysToUpdateOf(data, concepts, fuel).value;
      var after := RemoveOutcome(data, concepts, fuel).data;
      (forall k :: k in keys.concept || k in keys.mask || k in keys.containment ==> k !in after)
      && (forall k :: k in after ==> k in data)
      && (forall k :: k in data && k !in keys.concept && k !in keys.mask && k !in keys.containment ==>
            k in after && after[k] == if k in keys.maskCount then Count(Number(data[k]) - keys.maskCount[k]) else data[k])
      && RemoveOutcome(data, concepts, fuel).result.value == Present(data, keys.concept)
  {
    CollectedApart(data, concepts, fuel);
    TransactionEffect(data, KeysToUpdateOf(data, concepts, fuel).value);
  }

  /** A failed removal writes nothing. */
  lemma RemoveErrorWritesNothing(data: Data, concepts: seq<Concept>, fuel: nat)
    requires RemoveOutcome(data, concepts, fuel).result.Err?
    ensures RemoveOutcome(data, concepts, fuel).data == data
    ensures KeysToUpdateOf(data, concepts, fuel).Err?
  {
  }

  /**
   * Every visited concept loses its storage key, each of its match keys and
   * each of its part-to-container containment keys.
   */
  lemma RemovedConceptGone(data: Data, concepts: seq<Concept>, fuel: nat, x: Concept)
    requires RemoveOutcome(data, concepts, fuel).result.Ok?
    requires x in Visited(data, concepts, fuel).value
    ensures ConceptMaskKeys(x).Ok?
    ensures var after := RemoveOutcome(data, concepts, fuel).data;
      ConceptStorageKey(x) !in after
      && (forall k :: k in ConceptMaskKeys(x).value ==> k !in after)
      && (forall i :: 0 <= i < |Parts(x)| ==> ContainmentKey(Parts(x)[i], i, x) !in after)
  {
    var vs := Visited(data, concepts, fuel).value;
    KeysOfVisited(data, concepts, fuel);
    RemoveEffect(data, concepts, fuel);
    WalkAllFacts(Containers(data), ConceptMaskKeys, concepts, fuel);
    var i :| 0 <= i < |vs| && vs[i] == x;
    assert StorageKeys(vs)[i] == ConceptStorageKey(x);
    MaskKeysFacts(vs);
    ContainmentEntriesFacts(vs);
    forall j | 0 <= j < |Parts(x)|
      ensures ContainmentKey(Parts(x)[j], j, x) in ContainmentEntries(vs)
    {
      assert ContainmentKeys(x)[j] == ContainmentKey(Parts(x)[j], j, x);
    }
  }

  /**
   * A part of a removed concept that is not itself visited stays stored: it
   * only loses the containment edge to its container.
   */
  lemma PartsRemain(data: Data, concepts: seq<Concept>, fuel: nat, x: Concept, i: nat)
    requires RemoveOutcome(data, concepts, fuel).result.Ok?
    requires x in Visited(data, concepts, fuel).value && i < |Parts(x)|
    requires ConceptStorageKey(Parts(x)[i]) in data
    requires ConceptStorageKey(Parts(x)[i]) !in StorageKeys(Visited(data, concepts, fuel).value)
    ensures ConceptStorageKey(Parts(x)[i]) in RemoveOutcome(data, concepts, fuel).data
    ensures ContainmentKey(Parts(x)[i], i, x) !in RemoveOutcome(data, concepts, fuel).data
  {
    var vs := Visited(data, concepts, fuel).value;
    var p := Parts(x)[i];
    KeysOfVisited(data, concepts, fuel);
    KeysTagged(vs);
    RemoveEffect(data, concepts, fuel);
    RemovedConceptGone(data, concepts, fuel, x);
    TagPrefix(StorageTag + ":", EncodeConceptKey(Key(p)));
    StorageKeyApart(ConceptStorageKey(p));
  }

  /**
   * The counters: each counter that existed drops by the number of collected
   * masks naming it; a counter that did not exist is not created.
   */
  lemma CountersDropped(data: Data, concepts: seq<Concept>, fuel: nat, k: string)
    requires RemoveOutcome(data, concepts, fuel).result.Ok?
    requires HasPrefix(k, CountTag)
    ensures var vs := Visited(data, concepts, fuel).value;
      var after := RemoveOutcome(data, concepts, fuel).data;
      (k !in data ==> k !in after)
      && (k in data ==>
            k in after
            && after[k] == if k in CountEntries(vs) then Count(Number(data[k]) - multiset(CountEntries(vs))[k]) else data[k])
  {
    var keys := KeysToUpdateOf(data, concepts, fuel).value;
    assert RemoveOutcome(data, concepts, fuel) == Transaction(data, keys);
    KeysOfVisited(data, concepts, fuel);
    CollectedApart(data, concepts, fuel);
    var vs := Visited(data, concepts, fuel).value;
    assert keys.maskCount == Tally(map[], CountEntries(vs));
    TransactionCounter(data, keys, CountEntries(vs), k);
  }

  /** The transaction on one counter, when the deltas tally `ks`. */
  lemma TransactionCounter(data: Data, keys: KeysToUpdate, ks: seq<string>, k: string)
    requires KeysApart(keys) && keys.maskCount == Tally(map[], ks) && HasPrefix(k, CountTag)
    ensures var after := Transaction(data, keys).data;
      (k !in data ==> k !in after)
      && (k in data ==>
            k in after
            && after[k] == if k in ks then Count(Number(data[k]) - multiset(ks)[k]) else data[k])
  {
    TransactionEffect(data, keys);
    TallyCounts(map[], ks);
    StorageKeyNotCounter(k);
    CounterApart(k);
  }

  lemma StorageKeyNotCounter(k: string)
    requires HasPrefix(k, CountTag)
    ensures !HasPrefix(k, StorageTag + ":")
  {
    if HasPrefix(k, StorageTag + ":") {
      StorageKeyApart(k);
    }
  }
}
