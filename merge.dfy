/**
 * `merge(...objects)`: a deep merge of JSON-like objects. Later values
 * replace earlier ones, except that two plain objects under the same key
 * are merged in turn; arrays are replaced, never concatenated.
 */
module DeepMerge {
  import opened Wrappers

  /** A JSON-like value; a number is kept as an integer, which `merge` never looks into. */
  datatype Json = Null | Bool(b: bool) | Num(n: int) | Str(s: string) | Arr(items: seq<Json>) | Obj(fields: map<string, Json>)

  /** `Object.keys(null)` throws. */
  const NullError := "Cannot convert undefined or null to object"

  /** `typeof x === 'object' && !Array.isArray(x)`: a plain object, or `null`. */
  predicate Nests(x: Json)
  {
    x.Obj? || x.Null?
  }

  /** What `result[key]` becomes when `object[key]` is `v`. */
  ghost function Replaced(acc: map<string, Json>, k: string, v: Json): Result<Json>
    decreases v, 2
  {
    if k in acc && Nests(acc[k]) && Nests(v) then Merged(acc[k], v) else Ok(v)
  }

  /**
   * `merge(a, b)` as the recursive step calls it. It starts from `{}`, to which
   * every key of `a` is new and simply copied, so it merges `b` into the
   * entries of `a`; a `null` on either side throws.
   */
  ghost function Merged(a: Json, b: Json): Result<Json>
    requires Nests(a) && Nests(b)
    decreases b, 1
  {
    if a.Null? || b.Null? then Err(NullError)
    else
      match MergeInto(a.fields, b)
      case Err(m) => Err(m)
      case Ok(fields) => Ok(Obj(fields))
  }

  /** One step of the `reduce`: every key of `obj` written into `acc`. */
  ghost function MergeInto(acc: map<string, Json>, obj: Json): Result<map<string, Json>>
    requires obj.Obj?
    decreases obj, 0
  {
    if exists k :: k in obj.fields && Replaced(acc, k, obj.fields[k]).Err? then Err(NullError)
    else Ok(map k | k in acc.Keys + obj.fields.Keys :: if k in obj.fields then Replaced(acc, k, obj.fields[k]).value else acc[k])
  }

  /** `merge(...objects)`: the `reduce` from `{}`. */
  ghost function MergeAll(objects: seq<map<string, Json>>): Result<map<string, Json>>
  {
    if |objects| == 0 then Ok(map[])
    else
      match MergeAll(objects[..|objects| - 1])
      case Err(m) => Err(m)
      case Ok(acc) => MergeInto(acc, Obj(objects[|objects| - 1]))
  }

  /** The keys of the inputs, together. */
  ghost function AllKeys(objects: seq<map<string, Json>>): set<string>
  {
    if |objects| == 0 then {} else AllKeys(objects[..|objects| - 1]) + objects[|objects| - 1].Keys
  }

  // What a merge promises.

  /** The result's keys are the union of the inputs' keys. */
  lemma {:induction false} MergeKeys(objects: seq<map<string, Json>>)
    requires MergeAll(objects).Ok?
    ensures MergeAll(objects).value.Keys == AllKeys(objects)
  {
    if |objects| > 0 {
      MergeKeys(objects[..|objects| - 1]);
    }
  }

  /** A key of the last object holds its value merged, or replaced, in the order the inputs come. */
  lemma LastObjectWins(objects: seq<map<string, Json>>, k: string)
    requires |objects| > 0 && MergeAll(objects).Ok? && k in objects[|objects| - 1]
    ensures var before := MergeAll(objects[..|objects| - 1]).value;
      MergeAll(objects).value[k] == Replaced(before, k, objects[|objects| - 1][k]).value
  {
  }

  /** A key the last object lacks keeps what the earlier objects gave it. */
  lemma EarlierKept(objects: seq<map<string, Json>>, k: string)
    requires |objects| > 0 && MergeAll(objects).Ok? && k !in objects[|objects| - 1]
    ensures MergeAll(objects).value.Keys >= MergeAll(objects[..|objects| - 1]).value.Keys
    ensures k in MergeAll(objects[..|objects| - 1]).value ==>
      MergeAll(objects).value[k] == MergeAll(objects[..|objects| - 1]).value[k]
  {
  }

  /** Two plain objects under one key are merged: the merged value has the keys of both. */
  lemma NestedObjectsMerged(acc: map<string, Json>, k: string, v: Json)
    requires k in acc && acc[k].Obj? && v.Obj? && Replaced(acc, k, v).Ok?
    ensures Replaced(acc, k, v).value.Obj?
    ensures Replaced(acc, k, v).value.fields.Keys == acc[k].fields.Keys + v.fields.Keys
  {
    MergeIntoKeys(acc[k].fields, v);
  }

  /** A step that does not throw keeps the old keys and adds the new ones. */
  lemma MergeIntoKeys(acc: map<string, Json>, obj: Json)
    requires obj.Obj? && MergeInto(acc, obj).Ok?
    ensures MergeInto(acc, obj).value.Keys == acc.Keys + obj.fields.Keys
  {
  }

  /** Anything but two plain objects is replaced by the later value; in particular an array replaces an array. */
  lemma OthersReplaced(acc: map<string, Json>, k: string, v: Json)
    requires !(k in acc && Nests(acc[k]) && Nests(v))
    ensures Replaced(acc, k, v) == Ok(v)
  {
  }

  lemma ArraysReplaced(acc: map<string, Json>, k: string, items: seq<Json>)
    requires k in acc && acc[k].Arr?
    ensures Replaced(acc, k, Arr(items)) == Ok(Arr(items))
  {
  }

  /** A `null` met by a plain object under the same key throws, whichever comes first. */
  lemma NullMeetsObjectThrows(acc: map<string, Json>, k: string, v: Json)
    requires k in acc && Nests(acc[k]) && Nests(v) && (acc[k].Null? || v.Null?)
    ensures Replaced(acc, k, v) == Err(NullError)
  {
  }

  /** `merge()` is `{}`, and merging one object copies it. */
  lemma MergeNoneOrOne(m: map<string, Json>)
    ensures MergeAll([]) == Ok(map[])
    ensures MergeAll([m]) == Ok(m)
  {
    assert [m][..0] == [];
    var empty: map<string, Json> := map[];
    assert forall k :: k in m ==> Replaced(empty, k, m[k]) == Ok(m[k]);
    assert !exists k :: k in m && Replaced(empty, k, m[k]).Err?;
    assert MergeInto(empty, Obj(m)).Ok?;
    assert MergeInto(empty, Obj(m)).value.Keys == m.Keys;
    assert MergeInto(empty, Obj(m)).value == m;
    assert MergeAll([m]) == MergeInto(empty, Obj(m));
  }

  // The running program: the `reduce` and the `forEach` over the keys are loops.

  /** `merge(...objects)`. */
  method Merge(objects: seq<map<string, Json>>) returns (r: Result<map<string, Json>>)
    ensures r == MergeAll(objects)
  {
    var result: map<string, Json> := map[];
    for i := 0 to |objects|
      invariant MergeAll(objects[..i]) == Ok(result)
    {
      assert objects[..i + 1][..i] == objects[..i];
      var next := MergeObject(result, Obj(objects[i]));
      if next.Err? {
        assert MergeAll(objects[..i + 1]) == next;
        MergePrefixError(objects, i + 1);
        return next;
      }
      result := next.value;
    }
    assert objects[..|objects|] == objects;
    return Ok(result);
  }

  /** Once a prefix of the inputs throws, the whole merge throws the same. */
  lemma {:induction false} MergePrefixError(objects: seq<map<string, Json>>, n: nat)
    requires n <= |objects| && MergeAll(objects[..n]).Err?
    ensures MergeAll(objects) == MergeAll(objects[..n])
    decreases |objects| - n
  {
    if n < |objects| {
      assert objects[..n + 1][..n] == objects[..n];
      MergePrefixError(objects, n + 1);
    } else {
      assert objects[..n] == objects;
    }
  }

  /** The `forEach` over the keys of `obj`, writing into a copy of `acc`. */
  method MergeObject(acc: map<string, Json>, obj: Json) returns (r: Result<map<string, Json>>)
    requires obj.Obj?
    ensures r == MergeInto(acc, obj)
    decreases obj, 0
  {
    var result := acc;
    var todo := obj.fields.Keys;
    while todo != {}
      invariant todo <= obj.fields.Keys
      invariant forall k :: k in obj.fields.Keys - todo ==> Replaced(acc, k, obj.fields[k]).Ok?
      invariant result == map k | k in acc.Keys + (obj.fields.Keys - todo) ::
        if k in obj.fields.Keys - todo then Replaced(acc, k, obj.fields[k]).value else acc[k]
      decreases todo
    {
      var k :| k in todo;
      var v := obj.fields[k];
      var value: Json;
      assert k in result <==> k in acc;
      assert k in acc ==> result[k] == acc[k];
      if k in result && Nests(result[k]) && Nests(v) {
        var merged := MergeValues(result[k], v);
        if merged.Err? {
          assert Replaced(acc, k, obj.fields[k]).Err?;
          return Err(NullError);
        }
        value := merged.value;
      } else {
        value := v;
      }
      result := result[k := value];
      todo := todo - {k};
    }
    assert obj.fields.Keys - todo == obj.fields.Keys;
    assert !exists k :: k in obj.fields && Replaced(acc, k, obj.fields[k]).Err?;
    assert result == map k | k in acc.Keys + obj.fields.Keys ::
      if k in obj.fields then Replaced(acc, k, obj.fields[k]).value else acc[k];
    return Ok(result);
  }

  /** `merge(result[key], object[key])`. */
  method MergeValues(a: Json, b: Json) returns (r: Result<Json>)
    requires Nests(a) && Nests(b)
    ensures r == Merged(a, b)
    decreases b, 1
  {
    if a.Null? || b.Null? {
      return Err(NullError);
    }
    var fields := MergeObject(a.fields, b);
    if fields.Err? {
      return Err(fields.msg);
    }
    return Ok(Obj(fields.value));
  }
}
