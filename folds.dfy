// The loop shapes the space queries share, with the per-item step left as a
// parameter: reading each item in turn and stopping at the first failure,
// and keeping the items a test accepts.

module Folds {
  import opened Wrappers
  import Cascade

  /** Each item read in turn, the `Some` values kept in order; the first read that fails aborts. */
  function Collect<T, A>(xs: seq<T>, read: T -> Result<Option<A>>): Result<seq<A>>
    decreases |xs|
  {
    if |xs| == 0 then Ok([])
    else
      var init: Result<seq<A>> := Collect(xs[..|xs| - 1], read);
      var last: Result<Option<A>> := read(xs[|xs| - 1]);
      if init.Err? then Err(init.msg)
      else if last.Err? then Err(last.msg)
      else if last.value.None? then init
      else Ok(init.value + [last.value.value])
  }

  /** One more item read after a successful prefix: the loop body of the queries. */
  lemma CollectStep<T, A>(xs: seq<T>, read: T -> Result<Option<A>>, i: nat)
    requires i < |xs|
    requires Collect(xs[..i], read).Ok? && read(xs[i]).Ok?
    ensures read(xs[i]).value.None? ==> Collect(xs[..i + 1], read) == Collect(xs[..i], read)
    ensures read(xs[i]).value.Some? ==>
      Collect(xs[..i + 1], read) == Ok(Collect(xs[..i], read).value + [read(xs[i]).value.value])
  {
    assert xs[..i + 1][..i] == xs[..i];
    assert xs[..i + 1][i] == xs[i];
  }

  /** Once a prefix fails, the whole loop fails with the same error. */
  lemma {:induction false} CollectPrefixError<T, A>(xs: seq<T>, read: T -> Result<Option<A>>, n: nat)
    requires n <= |xs|
    requires Collect(xs[..n], read).Err?
    ensures Collect(xs, read) == Collect(xs[..n], read)
    decreases |xs| - n
  {
    if n < |xs| {
      assert xs[..n + 1][..n] == xs[..n];
      CollectPrefixError(xs, read, n + 1);
    } else {
      assert xs[..n] == xs;
    }
  }

  /** The first read that fails decides the loop's error. */
  lemma CollectFirstError<T, A>(xs: seq<T>, read: T -> Result<Option<A>>, i: nat)
    requires i < |xs| && Collect(xs[..i], read).Ok? && read(xs[i]).Err?
    ensures Collect(xs, read) == Err(read(xs[i]).msg)
  {
    assert xs[..i + 1][..i] == xs[..i];
    assert xs[..i + 1][i] == xs[i];
    CollectPrefixError(xs, read, i + 1);
  }

  /** A single read that fails makes the loop fail. */
  lemma {:induction false} CollectErrorAt<T, A>(xs: seq<T>, read: T -> Result<Option<A>>, i: nat)
    requires i < |xs| && read(xs[i]).Err?
    ensures Collect(xs, read).Err?
    decreases |xs|
  {
    var n := |xs|;
    if i < n - 1 {
      assert xs[..n - 1][i] == xs[i];
      CollectErrorAt(xs[..n - 1], read, i);
    }
  }

  /** The loop fails only because some read fails. */
  lemma {:induction false} CollectErrorWitness<T, A>(xs: seq<T>, read: T -> Result<Option<A>>)
    requires Collect(xs, read).Err?
    ensures exists i :: 0 <= i < |xs| && read(xs[i]).Err?
    decreases |xs|
  {
    var n := |xs|;
    var init := xs[..n - 1];
    if Collect(init, read).Err? {
      CollectErrorWitness(init, read);
      var i :| 0 <= i < |init| && read(init[i]).Err?;
      assert init[i] == xs[i];
    }
  }

  /** Every item that reads as `Some(a)` contributes `a`. */
  lemma {:induction false} CollectMember<T, A>(xs: seq<T>, read: T -> Result<Option<A>>, i: nat, a: A)
    requires i < |xs| && read(xs[i]) == Ok(Some(a))
    requires Collect(xs, read).Ok?
    ensures a in Collect(xs, read).value
    decreases |xs|
  {
    var n := |xs|;
    if i < n - 1 {
      assert xs[..n - 1][i] == xs[i];
      CollectMember(xs[..n - 1], read, i, a);
    }
  }

  /** Everything kept was read from some item. */
  lemma {:induction false} CollectSound<T, A>(xs: seq<T>, read: T -> Result<Option<A>>, a: A)
    requires Collect(xs, read).Ok? && a in Collect(xs, read).value
    ensures exists i :: 0 <= i < |xs| && read(xs[i]) == Ok(Some(a))
    decreases |xs|
  {
    var n := |xs|;
    var init := xs[..n - 1];
    if a in Collect(init, read).value {
      CollectSound(init, read, a);
      var i :| 0 <= i < |init| && read(init[i]) == Ok(Some(a));
      assert init[i] == xs[i];
    }
  }

  /** The items `keep` accepts, in order. */
  function Keep<T(!new)>(xs: seq<T>, keep: T -> bool): (r: seq<T>)
    ensures forall x :: x in r <==> x in xs && keep(x)
    ensures |r| <= |xs|
    decreases |xs|
  {
    if |xs| == 0 then []
    else
      var init := xs[..|xs| - 1];
      var last := xs[|xs| - 1];
      assert xs == init + [last];
      Keep(init, keep) + (if keep(last) then [last] else [])
  }

  /** Two tests that agree on the items keep the same items. */
  lemma {:induction false} KeepAgree<T(!new)>(xs: seq<T>, p: T -> bool, q: T -> bool)
    requires forall x :: x in xs ==> (p(x) <==> q(x))
    ensures Keep(xs, p) == Keep(xs, q)
    decreases |xs|
  {
    if |xs| > 0 {
      var init := xs[..|xs| - 1];
      assert forall x :: x in init ==> x in xs;
      KeepAgree(init, p, q);
      assert xs[|xs| - 1] in xs;
    }
  }

  /** The kept items are a subsequence: an item kept before another came before it in the input. */
  lemma {:induction false} KeepOrder<T(!new)>(xs: seq<T>, keep: T -> bool, i: nat, j: nat)
    requires i < j < |Keep(xs, keep)|
    ensures exists a, b :: 0 <= a < b < |xs| && xs[a] == Keep(xs, keep)[i] && xs[b] == Keep(xs, keep)[j]
    decreases |xs|
  {
    var n := |xs|;
    var init := xs[..n - 1];
    var w := Keep(init, keep);
    if j < |w| {
      KeepOrder(init, keep, i, j);
      var a, b :| 0 <= a < b < |init| && init[a] == w[i] && init[b] == w[j];
      assert xs[a] == init[a] && xs[b] == init[b];
    } else {
      assert Keep(xs, keep)[j] == xs[n - 1];
      assert w[i] in init;
      var a :| 0 <= a < |init| && init[a] == w[i];
      assert xs[a] == init[a];
    }
  }

  /** A loop whose every read succeeds with the item itself or `None` keeps exactly the items read as themselves. */
  lemma {:induction false} CollectKeep<T(!new)>(xs: seq<T>, read: T -> Result<Option<T>>, keep: T -> bool)
    requires forall x :: x in xs ==> read(x) == (if keep(x) then Ok(Some(x)) else Ok(None))
    ensures Collect(xs, read) == Ok(Keep(xs, keep))
    decreases |xs|
  {
    if |xs| > 0 {
      var init := xs[..|xs| - 1];
      assert forall x :: x in init ==> x in xs;
      CollectKeep(init, read, keep);
      var last := xs[|xs| - 1];
      assert last in xs;
      assert Keep(xs, keep) == Keep(init, keep) + (if keep(last) then [last] else []);
      if !keep(last) {
        assert Keep(init, keep) + [] == Keep(init, keep);
      }
    }
  }

  /** Each item read in turn, every value kept; the first read that fails aborts. */
  function ReadEach<T, A>(xs: seq<T>, read: T -> Result<A>): (r: Result<seq<A>>)
    ensures r.Ok? ==> |r.value| == |xs| && forall i :: 0 <= i < |xs| ==> read(xs[i]) == Ok(r.value[i])
    decreases |xs|
  {
    if |xs| == 0 then Ok([])
    else
      var init: Result<seq<A>> := ReadEach(xs[..|xs| - 1], read);
      var last: Result<A> := read(xs[|xs| - 1]);
      assert forall i :: 0 <= i < |xs| - 1 ==> xs[..|xs| - 1][i] == xs[i];
      if init.Err? then Err(init.msg)
      else if last.Err? then Err(last.msg)
      else Ok(init.value + [last.value])
  }

  lemma ReadEachStep<T, A>(xs: seq<T>, read: T -> Result<A>, i: nat)
    requires i < |xs|
    requires ReadEach(xs[..i], read).Ok? && read(xs[i]).Ok?
    ensures ReadEach(xs[..i + 1], read) == Ok(ReadEach(xs[..i], read).value + [read(xs[i]).value])
  {
    assert xs[..i + 1][..i] == xs[..i];
    assert xs[..i + 1][i] == xs[i];
  }

  /** A single read that fails makes the whole read fail. */
  lemma {:induction false} ReadEachErrorAt<T, A>(xs: seq<T>, read: T -> Result<A>, i: nat)
    requires i < |xs| && read(xs[i]).Err?
    ensures ReadEach(xs, read).Err?
    decreases |xs|
  {
    var n := |xs|;
    if i < n - 1 {
      assert xs[..n - 1][i] == xs[i];
      ReadEachErrorAt(xs[..n - 1], read, i);
    }
  }

  /** Once a prefix fails, the whole read fails with the same error. */
  lemma {:induction false} ReadEachPrefixError<T, A>(xs: seq<T>, read: T -> Result<A>, n: nat)
    requires n <= |xs|
    requires ReadEach(xs[..n], read).Err?
    ensures ReadEach(xs, read) == ReadEach(xs[..n], read)
    decreases |xs| - n
  {
    if n < |xs| {
      assert xs[..n + 1][..n] == xs[..n];
      ReadEachPrefixError(xs, read, n + 1);
    } else {
      assert xs[..n] == xs;
    }
  }

  /** The first read that fails decides the error. */
  lemma ReadEachFirstError<T, A>(xs: seq<T>, read: T -> Result<A>, i: nat)
    requires i < |xs| && ReadEach(xs[..i], read).Ok? && read(xs[i]).Err?
    ensures ReadEach(xs, read) == Err(read(xs[i]).msg)
  {
    assert xs[..i + 1][..i] == xs[..i];
    assert xs[..i + 1][i] == xs[i];
    ReadEachPrefixError(xs, read, i + 1);
  }

  /** Every read succeeding, the whole read succeeds. */
  lemma {:induction false} ReadEachAllOk<T, A>(xs: seq<T>, read: T -> Result<A>)
    requires forall i :: 0 <= i < |xs| ==> read(xs[i]).Ok?
    ensures ReadEach(xs, read).Ok?
    decreases |xs|
  {
    if |xs| > 0 {
      var init := xs[..|xs| - 1];
      assert forall i :: 0 <= i < |init| ==> init[i] == xs[i];
      ReadEachAllOk(init, read);
    }
  }

  /** The whole read fails only because some read fails. */
  lemma {:induction false} ReadEachErrorWitness<T, A>(xs: seq<T>, read: T -> Result<A>)
    requires ReadEach(xs, read).Err?
    ensures exists i :: 0 <= i < |xs| && read(xs[i]).Err?
    decreases |xs|
  {
    var n := |xs|;
    var init := xs[..n - 1];
    if ReadEach(init, read).Err? {
      ReadEachErrorWitness(init, read);
      var i :| 0 <= i < |init| && read(init[i]).Err?;
      assert init[i] == xs[i];
    }
  }

  /** Nothing is kept when the test rejects every item. */
  lemma {:induction false} KeepNone<T(!new)>(xs: seq<T>, keep: T -> bool)
    requires forall x :: x in xs ==> !keep(x)
    ensures Keep(xs, keep) == []
    decreases |xs|
  {
    if |xs| > 0 {
      var init := xs[..|xs| - 1];
      assert forall x :: x in init ==> x in xs;
      KeepNone(init, keep);
      assert xs[|xs| - 1] in xs;
    }
  }

  /** Two complementary tests split a list: each item is kept by exactly one of them. */
  lemma {:induction false} KeepSplit<T(!new)>(xs: seq<T>, keep: T -> bool, drop: T -> bool)
    requires forall x :: drop(x) <==> !keep(x)
    ensures multiset(Keep(xs, keep)) + multiset(Keep(xs, drop)) == multiset(xs)
    decreases |xs|
  {
    if |xs| > 0 {
      var init := xs[..|xs| - 1];
      KeepSplit(init, keep, drop);
      assert xs == init + [xs[|xs| - 1]];
    }
  }

  /** The list without its last item, and with nothing appended. */
  lemma Snoc<T>(xs: seq<T>, x: T)
    ensures (xs + [x])[..|xs|] == xs && (xs + [x])[|xs|] == x && xs + [] == xs
  {
  }

  /** A prefix of a prefix is a prefix, and holds no item the longer list does not. */
  lemma PrefixTransitive<T>(a: seq<T>, b: seq<T>, c: seq<T>)
    requires a <= b && b <= c
    ensures a <= c
    ensures forall x :: x in a ==> x in c
  {
    assert b[..|a|] == a && c[..|b|] == b;
    assert c[..|a|] == a;
    forall x | x in a
      ensures x in c
    {
      var i :| 0 <= i < |a| && a[i] == x;
      assert c[i] == x;
    }
  }

  /** Keeping every item keeps the list as it is. */
  lemma {:induction false} KeepAll<T(!new)>(xs: seq<T>, keep: T -> bool)
    requires forall x :: x in xs ==> keep(x)
    ensures Keep(xs, keep) == xs
    decreases |xs|
  {
    if |xs| > 0 {
      var init := xs[..|xs| - 1];
      assert xs == init + [xs[|xs| - 1]];
      assert forall x :: x in init ==> x in xs;
      KeepAll(init, keep);
    }
  }

  /** Leaving out one item leaves fewer items. */
  lemma {:induction false} KeepDrops<T(!new)>(xs: seq<T>, keep: T -> bool, x: T)
    requires x in xs && !keep(x)
    ensures |Keep(xs, keep)| < |xs|
    decreases |xs|
  {
    var init := xs[..|xs| - 1];
    assert xs == init + [xs[|xs| - 1]];
    if xs[|xs| - 1] != x {
      assert x in init;
      KeepDrops(init, keep, x);
    }
  }

  /** After a successful read, every item read successfully into a value that is in the result. */
  lemma ReadEachMembers<T, A>(xs: seq<T>, read: T -> Result<A>)
    requires ReadEach(xs, read).Ok?
    ensures forall x :: x in xs ==> read(x).Ok? && read(x).value in ReadEach(xs, read).value
    ensures forall a :: a in ReadEach(xs, read).value ==> exists x :: x in xs && read(x) == Ok(a)
  {
    var r := ReadEach(xs, read).value;
    forall x | x in xs
      ensures read(x).Ok? && read(x).value in r
    {
      var i :| 0 <= i < |xs| && xs[i] == x;
      assert read(xs[i]) == Ok(r[i]);
    }
    forall a | a in r
      ensures exists x :: x in xs && read(x) == Ok(a)
    {
      var i :| 0 <= i < |r| && r[i] == a;
      assert read(xs[i]) == Ok(r[i]);
      assert xs[i] in xs;
    }
  }

  /** `flatMap` with a reader that may throw: the first failure ends it. */
  function FlatMap<T, A>(xs: seq<T>, read: T -> Result<seq<A>>): Result<seq<A>>
  {
    if |xs| == 0 then Ok([])
    else
      match read(xs[0])
      case Err(m) => Err(m)
      case Ok(first) =>
        match FlatMap(xs[1..], read)
        case Err(m) => Err(m)
        case Ok(more) => Ok(first + more)
  }

  /**
   * The flat map succeeds exactly when every read does, and then holds
   * exactly the values of the reads.
   */
  lemma {:induction false} FlatMapFacts<T, A>(xs: seq<T>, read: T -> Result<seq<A>>)
    ensures FlatMap(xs, read).Ok? <==> forall i :: 0 <= i < |xs| ==> read(xs[i]).Ok?
    ensures FlatMap(xs, read).Ok? ==> forall a :: a in FlatMap(xs, read).value ==>
      exists i :: 0 <= i < |xs| && read(xs[i]).Ok? && a in read(xs[i]).value
    ensures FlatMap(xs, read).Ok? ==> forall a, i :: 0 <= i < |xs| && read(xs[i]).Ok? && a in read(xs[i]).value ==>
      a in FlatMap(xs, read).value
  {
    if |xs| > 0 {
      var rest := xs[1..];
      FlatMapFacts(rest, read);
      assert forall i :: 1 <= i < |xs| ==> xs[i] == rest[i - 1];
      if FlatMap(xs, read).Ok? {
        var r := FlatMap(xs, read).value;
        var first := read(xs[0]).value;
        var more := FlatMap(rest, read).value;
        assert r == first + more;
        forall a | a in r
          ensures exists i :: 0 <= i < |xs| && read(xs[i]).Ok? && a in read(xs[i]).value
        {
          if a !in first {
            assert a in more;
            var j :| 0 <= j < |rest| && read(rest[j]).Ok? && a in read(rest[j]).value;
            assert rest[j] == xs[j + 1];
          } else {
            assert read(xs[0]).Ok? && a in read(xs[0]).value;
          }
        }
        forall a, i | 0 <= i < |xs| && read(xs[i]).Ok? && a in read(xs[i]).value
          ensures a in r
        {
          if i > 0 {
            assert rest[i - 1] == xs[i];
          }
        }
      }
    }
  }

  /** The flat map of two runs: the first one's error, else the second one's, else both results in order. */
  lemma {:induction false} FlatMapAppend<T, A>(xs: seq<T>, ys: seq<T>, read: T -> Result<seq<A>>)
    ensures FlatMap(xs + ys, read)
      == if FlatMap(xs, read).Err? then FlatMap(xs, read)
         else if FlatMap(ys, read).Err? then FlatMap(ys, read)
         else Ok(FlatMap(xs, read).value + FlatMap(ys, read).value)
    decreases |xs|
  {
    if |xs| == 0 {
      assert xs + ys == ys;
      assert FlatMap(xs, read) == Ok([]);
      if FlatMap(ys, read).Ok? {
        assert [] + FlatMap(ys, read).value == FlatMap(ys, read).value;
      }
    } else {
      assert (xs + ys)[0] == xs[0];
      assert (xs + ys)[1..] == xs[1..] + ys;
      FlatMapAppend(xs[1..], ys, read);
      if read(xs[0]).Ok? && FlatMap(xs[1..], read).Ok? && FlatMap(ys, read).Ok? {
        var first := read(xs[0]).value;
        Cascade.Associative(first, FlatMap(xs[1..], read).value, FlatMap(ys, read).value);
      }
    }
  }

  lemma FlatMapStep<T, A>(xs: seq<T>, read: T -> Result<seq<A>>, i: nat)
    requires i < |xs|
    ensures FlatMap(xs[..i + 1], read)
      == if FlatMap(xs[..i], read).Err? then FlatMap(xs[..i], read)
         else if read(xs[i]).Err? then Err(read(xs[i]).msg)
         else Ok(FlatMap(xs[..i], read).value + read(xs[i]).value)
  {
    assert xs[..i + 1] == xs[..i] + [xs[i]];
    FlatMapAppend(xs[..i], [xs[i]], read);
    assert [xs[i]][1..] == [];
    if read(xs[i]).Ok? {
      assert read(xs[i]).value + [] == read(xs[i]).value;
    }
  }

  /** A flat map that throws throws the first error. */
  lemma FlatMapFirstError<T, A>(xs: seq<T>, read: T -> Result<seq<A>>, i: nat)
    requires i < |xs| && FlatMap(xs[..i], read).Ok? && read(xs[i]).Err?
    ensures FlatMap(xs, read) == Err(read(xs[i]).msg)
  {
    FlatMapStep(xs, read, i);
    assert xs == xs[..i + 1] + xs[i + 1..];
    FlatMapAppend(xs[..i + 1], xs[i + 1..], read);
  }
}
