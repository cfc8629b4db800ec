// The space API's helpers (apps/api/src/apis/space/util.ts): batching a list
// for bulk storage writes, and turning resolver interpolations into a
// variable dictionary.

module SpaceUtil {
  import opened Wrappers
  import opened Concepts
  import opened Interpolation

  // batchProcess.

  /** The batches `batchProcess` hands out, in order: `items[i .. i + size]` for `i = 0, size, 2·size, …`. */
  function Batches<T>(items: seq<T>, size: nat): (r: seq<seq<T>>)
    requires size > 0
    decreases |items|
  {
    if |items| == 0 then []
    else if |items| <= size then [items]
    else [items[..size]] + Batches(items[size..], size)
  }

  /** `Math.ceil(n / size)` for a non-negative `n`. */
  function CeilDiv(n: nat, size: nat): nat
    requires size > 0
  {
    (n + size - 1) / size
  }

  /** The concatenation of a list of lists. */
  function Flatten<T>(xss: seq<seq<T>>): seq<T>
  {
    if |xss| == 0 then [] else xss[0] + Flatten(xss[1..])
  }

  lemma FlattenAppend<T>(a: seq<seq<T>>, b: seq<seq<T>>)
    ensures Flatten(a + b) == Flatten(a) + Flatten(b)
  {
    if |a| == 0 {
      assert a + b == b;
    } else {
      assert (a + b)[1..] == a[1..] + b;
      FlattenAppend(a[1..], b);
    }
  }

  /** Concatenating the batches gives back the items, in order. */
  lemma {:induction false} BatchesFlatten<T>(items: seq<T>, size: nat)
    requires size > 0
    ensures Flatten(Batches(items, size)) == items
    decreases |items|
  {
    if |items| > size {
      BatchesFlatten(items[size..], size);
      assert items[..size] + items[size..] == items;
    }
  }

  /** Every batch has between 1 and `size` items, and only the last may be shorter. */
  lemma {:induction false} BatchesSizes<T>(items: seq<T>, size: nat)
    requires size > 0
    ensures forall k :: 0 <= k < |Batches(items, size)| ==> 1 <= |Batches(items, size)[k]| <= size
    ensures forall k :: 0 <= k < |Batches(items, size)| - 1 ==> |Batches(items, size)[k]| == size
    decreases |items|
  {
    if |items| > size {
      var rest := Batches(items[size..], size);
      BatchesSizes(items[size..], size);
      assert forall k :: 1 <= k < |Batches(items, size)| ==> Batches(items, size)[k] == rest[k - 1];
    }
  }

  /** There are `ceil(n / size)` batches; none at all for no items. */
  lemma {:induction false} BatchesCount<T>(items: seq<T>, size: nat)
    requires size > 0
    ensures |Batches(items, size)| == CeilDiv(|items|, size)
    decreases |items|
  {
    var n := |items|;
    if n == 0 {
      assert Batches(items, size) == [];
    } else if n <= size {
      assert |Batches(items, size)| == 1;
      DivBetween(n + size - 1, size, 1);
    } else {
      var rest := items[size..];
      assert |Batches(items, size)| == 1 + |Batches(rest, size)|;
      BatchesCount(rest, size);
      assert |rest| + size - 1 == n - 1;
      DivAddDivisor(n - 1, size);
      assert n + size - 1 == (n - 1) + size;
    }
  }

  lemma DivAddDivisor(a: nat, d: nat)
    requires d > 0
    ensures (a + d) / d == a / d + 1
  {
    var q, r := a / d, a % d;
    assert a == q * d + r;
    assert a + d == (q + 1) * d + r;
    DivBetween(a + d, d, q + 1);
  }

  lemma DivBetween(a: nat, d: nat, q: nat)
    requires d > 0
    requires q * d <= a < q * d + d
    ensures a / d == q
  {
    var p, r := a / d, a % d;
    assert a == p * d + r && 0 <= r < d;
    assert (p + 1) * d == p * d + d && (q + 1) * d == q * d + d;
    MulLt(p, q + 1, d);
    MulLt(q, p + 1, d);
  }

  lemma MulLt(x: nat, y: nat, d: nat)
    ensures x * d < y * d ==> x < y
  {
    if x >= y {
      var t := x - y;
      assert x * d == y * d + t * d;
    }
  }

  lemma DropSlice<T>(items: seq<T>, d: nat, a: nat, b: nat)
    requires d <= |items| && a <= b <= |items| - d
    ensures items[d..][a..b] == items[d + a..d + b]
  {
  }

  lemma MulStep(k: nat, size: nat)
    requires k > 0
    ensures k * size == (k - 1) * size + size && (k + 1) * size == k * size + size
  {
  }

  /** The offset `batchProcess` passes with the `k`th batch: `k · size`. */
  lemma {:induction false} BatchStart<T>(items: seq<T>, size: nat, k: nat)
    requires size > 0
    requires k < |Batches(items, size)|
    ensures k * size < |items|
    ensures Batches(items, size)[k] == items[k * size .. if (k + 1) * size <= |items| then (k + 1) * size else |items|]
    decreases |items|
  {
    if k == 0 {
      assert Batches(items, size)[0] == items[..if size <= |items| then size else |items|];
    } else {
      var rest := items[size..];
      BatchStart(rest, size, k - 1);
      var lo, hi := (k - 1) * size, k * size;
      MulStep(k, size);
      var top := if hi + size <= |items| then hi + size else |items|;
      assert Batches(items, size)[k] == Batches(rest, size)[k - 1];
      assert Batches(rest, size)[k - 1] == rest[lo..top - size];
      DropSlice(items, size, lo, top - size);
    }
  }

  /**
   * `batchProcess(size, items, process)`: `process` is called once per batch,
   * with the batch, its start offset and the number of batches, and the
   * results are kept in call order. A zero `size` never advances the loop,
   * so it is excluded.
   */
  method BatchProcess<T, R>(size: nat, items: seq<T>, process: (seq<T>, nat, nat) -> R) returns (results: seq<R>)
    requires size > 0
    ensures |results| == |Batches(items, size)|
    ensures forall k :: 0 <= k < |results| ==> results[k] == process(Batches(items, size)[k], k * size, CeilDiv(|items|, size))
  {
    var total := CeilDiv(|items|, size);
    var all := Batches(items, size);
    results := [];
    var i := 0;
    ghost var k := 0;
    while i < |items|
      invariant i == k * size
      invariant k <= |all|
      invariant |results| == k
      invariant forall j :: 0 <= j < k ==> results[j] == process(all[j], j * size, total)
      invariant i < |items| ==> all[k..] == Batches(items[i..], size)
      invariant i >= |items| ==> k == |all|
      decreases |items| - i
    {
      var end := if i + size <= |items| then i + size else |items|;
      var batch := items[i..end];
      assert batch == all[k] by {
        assert all[k..][0] == all[k];
      }
      var result := process(batch, i, total);
      results := results + [result];
      ghost var rest := items[i..];
      if |rest| > size {
        assert all[k + 1..] == all[k..][1..];
        assert rest[size..] == items[i + size..];
      } else {
        assert |all[k..]| == 1;
      }
      i := i + size;
      k := k + 1;
    }
  }

  // toVariableDict.

  /** A resolver's `{ key, value }` interpolation: a variable name and the sources of its values. */
  datatype Binding = Binding(key: string, value: seq<string>)

  /** `Object.fromEntries(bs.map(b => [b.key, f(b)]))`: a later duplicate key wins, and the first `f` that throws aborts. */
  function FromEntries<V>(bs: seq<Binding>, f: Binding -> Result<V>): (r: Result<map<string, V>>)
    decreases |bs|
  {
    if |bs| == 0 then Ok(map[])
    else
      var init: Result<map<string, V>> := FromEntries(bs[..|bs| - 1], f);
      var last: Result<V> := f(bs[|bs| - 1]);
      if init.Err? then Err(init.msg)
      else if last.Err? then Err(last.msg)
      else Ok(init.value[bs[|bs| - 1].key := last.value])
  }

  /** `toVariableDict`: each key maps to `toConcepts` of its value. */
  function ToVariableDict(interpolations: seq<Binding>): Result<map<string, seq<Concept>>>
  {
    FromEntries(interpolations, (b: Binding) => ToConcepts(SourceTexts(b.value)))
  }

  /** The key `k` is bound iff some entry names it. */
  lemma {:induction false} FromEntriesKeys<V>(bs: seq<Binding>, f: Binding -> Result<V>, k: string)
    requires FromEntries(bs, f).Ok?
    ensures k in FromEntries(bs, f).value <==> exists i :: 0 <= i < |bs| && bs[i].key == k
    decreases |bs|
  {
    if |bs| > 0 {
      var n := |bs|;
      var init := bs[..n - 1];
      FromEntriesKeys(init, f, k);
      assert forall i :: 0 <= i < n - 1 ==> init[i] == bs[i];
      if bs[n - 1].key != k {
        assert (exists i :: 0 <= i < n && bs[i].key == k) ==> (exists i :: 0 <= i < n - 1 && init[i].key == k);
      }
    }
  }

  /** A key is bound to `f` of the last entry naming it. */
  lemma {:induction false} FromEntriesLast<V>(bs: seq<Binding>, f: Binding -> Result<V>, i: nat)
    requires FromEntries(bs, f).Ok?
    requires i < |bs|
    requires forall j :: i < j < |bs| ==> bs[j].key != bs[i].key
    ensures bs[i].key in FromEntries(bs, f).value && Ok(FromEntries(bs, f).value[bs[i].key]) == f(bs[i])
    decreases |bs|
  {
    var n := |bs|;
    if i < n - 1 {
      var init := bs[..n - 1];
      assert init[i] == bs[i];
      FromEntriesLast(init, f, i);
    }
  }

  /** Any entry whose `f` fails makes the whole dictionary fail. */
  lemma {:induction false} FromEntriesError<V>(bs: seq<Binding>, f: Binding -> Result<V>, i: nat)
    requires i < |bs| && f(bs[i]).Err?
    ensures FromEntries(bs, f).Err?
    decreases |bs|
  {
    var n := |bs|;
    if i < n - 1 {
      assert bs[..n - 1][i] == bs[i];
      FromEntriesError(bs[..n - 1], f, i);
    }
  }

  /**
   * `toVariableDict` binds exactly the keys it is given, each to the concepts
   * of its last interpolation; a value that does not parse makes it fail.
   */
  lemma ToVariableDictEntries(interpolations: seq<Binding>, k: string)
    ensures ToVariableDict(interpolations).Ok? ==>
      (k in ToVariableDict(interpolations).value <==> exists i :: 0 <= i < |interpolations| && interpolations[i].key == k)
    ensures ToVariableDict(interpolations).Ok? ==>
      forall i :: 0 <= i < |interpolations| && interpolations[i].key == k
           && (forall j :: i < j < |interpolations| ==> interpolations[j].key != k)
           ==> Ok(ToVariableDict(interpolations).value[k]) == ToConcepts(SourceTexts(interpolations[i].value))
    ensures (exists i :: 0 <= i < |interpolations| && ToConcepts(SourceTexts(interpolations[i].value)).Err?)
            ==> ToVariableDict(interpolations).Err?
  {
    var f := (b: Binding) => ToConcepts(SourceTexts(b.value));
    if ToVariableDict(interpolations).Ok? {
      FromEntriesKeys(interpolations, f, k);
      forall i | 0 <= i < |interpolations| && interpolations[i].key == k
               && (forall j :: i < j < |interpolations| ==> interpolations[j].key != k)
        ensures Ok(ToVariableDict(interpolations).value[k]) == ToConcepts(SourceTexts(interpolations[i].value))
      {
        FromEntriesLast(interpolations, f, i);
      }
    }
    if exists i :: 0 <= i < |interpolations| && ToConcepts(SourceTexts(interpolations[i].value)).Err? {
      var i :| 0 <= i < |interpolations| && ToConcepts(SourceTexts(interpolations[i].value)).Err?;
      FromEntriesError(interpolations, f, i);
    }
  }
}
