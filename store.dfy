// The Durable Object storage the space queries run against: a string-keyed
// map read with `get` and `list({ prefix })`, written with `put` of a batch
// of entries, and cleared with `delete` of a list of keys. A transaction is a
// sequence of these calls.

module Store {
  import opened Wrappers
  import opened Strings
  import Keys

  /** A stored value: the `true` markers and the numeric mask-match counters. */
  datatype Value = Flag(b: bool) | Count(n: int)

  type Data = map<string, Value>

  /** `Object.fromEntries(entries)`: every key of the batch, bound to its last value. */
  function Assign(entries: seq<(string, Value)>): (m: Data)
    ensures forall k :: k in m <==> exists i :: 0 <= i < |entries| && entries[i].0 == k
    decreases |entries|
  {
    if |entries| == 0 then map[]
    else
      var init := entries[..|entries| - 1];
      var m := Assign(init)[entries[|entries| - 1].0 := entries[|entries| - 1].1];
      assert forall i :: 0 <= i < |init| ==> init[i] == entries[i];
      m
  }

  /** A key takes the value of the last entry that names it. */
  lemma {:induction false} AssignLast(entries: seq<(string, Value)>, i: nat)
    requires i < |entries|
    requires forall j :: i < j < |entries| ==> entries[j].0 != entries[i].0
    ensures Assign(entries)[entries[i].0] == entries[i].1
    decreases |entries|
  {
    var n := |entries|;
    if i < n - 1 {
      assert entries[..n - 1][i] == entries[i];
      AssignLast(entries[..n - 1], i);
    }
  }

  /** Two batches written one after the other write the same as one batch of both. */
  lemma {:induction false} AssignAppend(a: seq<(string, Value)>, b: seq<(string, Value)>)
    ensures Assign(a + b) == Assign(a) + Assign(b)
    decreases |b|
  {
    if |b| == 0 {
      assert a + b == a;
    } else {
      var n := |b|;
      assert (a + b)[..|a + b| - 1] == a + b[..n - 1];
      AssignAppend(a, b[..n - 1]);
    }
  }

  /** The `[key, true]` entries the add path writes. */
  function Marks(keys: seq<string>): (r: seq<(string, Value)>)
    ensures |r| == |keys|
    ensures forall i :: 0 <= i < |keys| ==> r[i] == (keys[i], Flag(true))
  {
    seq(|keys|, i requires 0 <= i < |keys| => (keys[i], Flag(true)))
  }

  /** Writing marks binds exactly the given keys, each to `true`. */
  lemma MarksAssign(keys: seq<string>)
    ensures Assign(Marks(keys)) == map k | k in keys :: Flag(true)
  {
    var m := Assign(Marks(keys));
    forall k | k in m
      ensures m[k] == Flag(true)
    {
      var r := Marks(keys);
      var i :| 0 <= i < |r| && r[i].0 == k;
      var last := Latest(r, k, i);
      AssignLast(r, last);
    }
  }

  /** The position of the last entry naming `k`, at or after `i`. */
  function Latest(entries: seq<(string, Value)>, k: string, i: nat): (j: nat)
    requires i < |entries| && entries[i].0 == k
    ensures i <= j < |entries| && entries[j].0 == k
    ensures forall l :: j < l < |entries| ==> entries[l].0 != k
    decreases |entries| - i
  {
    if exists l :: i < l < |entries| && entries[l].0 == k then
      var l :| i < l < |entries| && entries[l].0 == k;
      Latest(entries, k, l)
    else i
  }

  /** The keys of `data` starting with `prefix`, ascending: `storage.list({ prefix })`. */
  function Listing(data: Data, prefix: string): (r: seq<string>)
    ensures forall k :: k in r <==> k in data && HasPrefix(k, prefix)
    ensures forall i, j :: 0 <= i < j < |r| ==> Lt(r[i], r[j])
  {
    Keys.SortedNames(set k | k in data && HasPrefix(k, prefix))
  }

  /** The keys of `ks` for which `keep` holds, in order. */
  function Filter(ks: seq<string>, keep: string -> bool): (r: seq<string>)
    ensures forall k :: k in r <==> k in ks && keep(k)
    ensures |r| <= |ks|
  {
    if |ks| == 0 then []
    else (if keep(ks[0]) then [ks[0]] else []) + Filter(ks[1..], keep)
  }

  lemma {:induction false} FilterSorted(ks: seq<string>, keep: string -> bool)
    requires forall i, j :: 0 <= i < j < |ks| ==> Lt(ks[i], ks[j])
    ensures forall i, j :: 0 <= i < j < |Filter(ks, keep)| ==> Lt(Filter(ks, keep)[i], Filter(ks, keep)[j])
  {
    if |ks| > 0 {
      FilterSorted(ks[1..], keep);
      var rest := Filter(ks[1..], keep);
      forall j | 0 <= j < |rest|
        ensures Lt(ks[0], rest[j])
      {
        assert rest[j] in ks[1..];
      }
    }
  }

  /**
   * `storage.list({ prefix, start, end, limit })`: the listed keys from
   * `start` on (inclusive) and before `end` (exclusive), at most `limit` of
   * them; an absent bound does not restrict.
   */
  function Window(data: Data, prefix: string, start: Option<string>, end: Option<string>, limit: nat): (r: seq<string>)
    ensures |r| <= limit
    ensures forall k :: k in r ==>
      k in data && HasPrefix(k, prefix) && (start.Some? ==> Le(start.value, k)) && (end.Some? ==> Lt(k, end.value))
    ensures forall i, j :: 0 <= i < j < |r| ==> Lt(r[i], r[j])
  {
    var all := Listing(data, prefix);
    var inRange := Filter(all, k => (start.Some? ==> Le(start.value, k)) && (end.Some? ==> Lt(k, end.value)));
    FilterSorted(all, k => (start.Some? ==> Le(start.value, k)) && (end.Some? ==> Lt(k, end.value)));
    if |inRange| <= limit then inRange
    else
      assert forall k :: k in inRange[..limit] ==> k in inRange;
      inRange[..limit]
  }

  lemma UpdateTwice(d: Data, a: Data, b: Data)
    ensures (d + a) + b == d + (a + b)
  {
  }

  /** The storage of one space. */
  class Storage {
    var data: Data

    constructor(init: Data)
      ensures data == init
    {
      data := init;
    }

    /** `storage.get(key)`: `None` is `undefined`. */
    function Get(key: string): (r: Option<Value>)
      reads this
      ensures r.Some? <==> key in data
      ensures r.Some? ==> r.value == data[key]
    {
      if key in data then Some(data[key]) else None
    }

    /** `storage.get(keys)`: the entries of the keys that are present. */
    function GetMany(keys: set<string>): (r: Data)
      reads this
      ensures forall k :: k in r <==> k in keys && k in data
      ensures forall k :: k in r ==> r[k] == data[k]
    {
      map k | k in keys && k in data :: data[k]
    }

    /** `storage.list({ prefix })`. */
    function List(prefix: string): seq<string>
      reads this
    {
      Listing(data, prefix)
    }

    /** `storage.put(Object.fromEntries(entries))`. */
    method Put(entries: seq<(string, Value)>)
      modifies this
      ensures data == old(data) + Assign(entries)
    {
      data := data + Assign(entries);
    }

    /** `storage.put(Object.fromEntries(m))` of a `Map`. */
    method PutMap(m: Data)
      modifies this
      ensures data == old(data) + m
    {
      data := data + m;
    }

    /** `storage.delete(keys)`: the number returned counts the keys that were present. */
    method Delete(keys: seq<string>) returns (count: nat)
      modifies this
      ensures data == map k | k in old(data) && k !in keys :: old(data)[k]
      ensures count == |set k | k in keys && k in old(data)|
    {
      count := |set k | k in keys && k in data|;
      data := map k | k in data && k !in keys :: data[k];
    }

    /**
     * `batchProcess(size, entries, batch => storage.put(Object.fromEntries(batch)))`:
     * the entries written one batch at a time, which leaves the same data as
     * one write of them all.
     */
    method PutInBatches(size: nat, entries: seq<(string, Value)>)
      requires size > 0
      modifies this
      ensures data == old(data) + Assign(entries)
    {
      var i := 0;
      while i < |entries|
        invariant 0 <= i <= |entries|
        invariant data == old(data) + Assign(entries[..i])
        decreases |entries| - i
      {
        var end := if i + size <= |entries| then i + size else |entries|;
        ghost var before := data;
        Put(entries[i..end]);
        assert entries[..i] + entries[i..end] == entries[..end];
        AssignAppend(entries[..i], entries[i..end]);
        UpdateTwice(old(data), Assign(entries[..i]), Assign(entries[i..end]));
        i := end;
      }
      assert entries[..i] == entries;
    }
  }
}
