// The depth-first walk of removeConcepts.ts `getKeysToUpdate`, stated over
// any containment relation `up` (a concept's containers, or a failure) and
// any per-concept check `check` that must succeed before the containers are
// read, together with the left fold that threads the collected keys.

module Cascade {
  import opened Wrappers

  /** What the walk reports when it exceeds its depth bound. */
  const DepthExceeded := "Containment cascade exceeds the depth bound."

  /** The concepts visited from `c`: `c`, then the walk of each of its containers in order; `fuel` bounds the depth. */
  function Walk<C, K>(up: C -> Result<seq<C>>, check: C -> Result<K>, c: C, fuel: nat): Result<seq<C>>
    decreases fuel, 0
  {
    if fuel == 0 then Err(DepthExceeded)
    else if check(c).Err? then Err(check(c).msg)
    else if up(c).Err? then Err(up(c).msg)
    else
      var rest := WalkAll(up, check, up(c).value, fuel - 1);
      if rest.Err? then rest else Ok([c] + rest.value)
  }

  /** The walks of several concepts, one after the other; the first failure stops them. */
  function WalkAll<C, K>(up: C -> Result<seq<C>>, check: C -> Result<K>, cs: seq<C>, fuel: nat): Result<seq<C>>
    decreases fuel, 1, |cs|
  {
    if |cs| == 0 then Ok([])
    else
      var init := WalkAll(up, check, cs[..|cs| - 1], fuel);
      if init.Err? then init
      else
        var last := Walk(up, check, cs[|cs| - 1], fuel);
        if last.Err? then last else Ok(init.value + last.value)
  }

  /** The state after `step` has visited each of `vs` in turn; the first failure stops it. */
  function Fold<A, C>(step: (A, C) -> Result<A>, acc: A, vs: seq<C>): Result<A>
    decreases |vs|
  {
    if |vs| == 0 then Ok(acc)
    else
      var next := step(acc, vs[0]);
      if next.Err? then next else Fold(step, next.value, vs[1..])
  }

  /** Every container of a member of `vs` is a member too. */
  ghost predicate Closed<C>(up: C -> Result<seq<C>>, vs: seq<C>)
  {
    forall v :: v in vs ==> up(v).Ok? && forall x :: x in up(v).value ==> x in vs
  }

  /** `x` is `n` containment steps above `c`. */
  ghost predicate Reaches<C>(up: C -> Result<seq<C>>, c: C, x: C, n: nat)
    decreases n
  {
    if n == 0 then x == c
    else up(c).Ok? && exists y :: y in up(c).value && Reaches(up, y, x, n - 1)
  }

  /** `v` is reachable from one of `cs`. */
  ghost predicate ReachedFrom<C>(up: C -> Result<seq<C>>, cs: seq<C>, v: C)
  {
    exists c, n: nat :: c in cs && Reaches(up, c, v, n)
  }

  /** One step of the walk: with fuel left, it is `c` followed by the walk of its containers one level down. */
  lemma WalkStep<C, K>(up: C -> Result<seq<C>>, check: C -> Result<K>, c: C, fuel: nat, depth: nat)
    requires fuel == depth + 1 && check(c).Ok? && up(c).Ok?
    ensures Walk(up, check, c, fuel) ==
      (var rest := WalkAll(up, check, up(c).value, depth); if rest.Err? then rest else Ok([c] + rest.value))
  {
  }

  /** A sequence that holds `f` of each element of a non-empty `xs`: `f` of the first one, then that of the rest. */
  lemma MapCons<T, U>(f: T -> U, xs: seq<T>, r: seq<U>, rest: seq<U>)
    requires |xs| > 0 && |r| == |xs| && |rest| == |xs| - 1
    requires forall i :: 0 <= i < |xs| ==> r[i] == f(xs[i])
    requires forall i :: 0 <= i < |xs| - 1 ==> rest[i] == f(xs[1..][i])
    ensures r == [f(xs[0])] + rest
  {
    forall i | 0 <= i < |r|
      ensures r[i] == ([f(xs[0])] + rest)[i]
    {
      if i > 0 {
        assert xs[1..][i - 1] == xs[i];
      }
    }
  }

  /** A sequence that holds `f` of each element of `xs[..i + 1]`: that of `xs[..i]`, then `f(xs[i])`. */
  lemma MapSnoc<T, U>(f: T -> U, xs: seq<T>, i: nat, r: seq<U>, init: seq<U>)
    requires i < |xs| && |r| == i + 1 && |init| == i
    requires forall j :: 0 <= j < i + 1 ==> r[j] == f(xs[..i + 1][j])
    requires forall j :: 0 <= j < i ==> init[j] == f(xs[..i][j])
    ensures r == init + [f(xs[i])]
  {
    forall j | 0 <= j < |r|
      ensures r[j] == (init + [f(xs[i])])[j]
    {
      if j < i {
        assert xs[..i + 1][j] == xs[..i][j];
      }
    }
  }

  lemma Associative<T>(a: seq<T>, b: seq<T>, c: seq<T>)
    ensures a + b + c == a + (b + c)
  {
  }

  lemma {:induction false} FoldAppend<A, C>(step: (A, C) -> Result<A>, acc: A, a: seq<C>, b: seq<C>)
    requires Fold(step, acc, a).Ok?
    ensures Fold(step, acc, a + b) == Fold(step, Fold(step, acc, a).value, b)
    decreases |a|
  {
    if |a| > 0 {
      assert (a + b)[0] == a[0] && (a + b)[1..] == a[1..] + b;
      FoldAppend(step, step(acc, a[0]).value, a[1..], b);
    } else {
      assert a + b == b;
    }
  }

  /** A fold whose step cannot fail on any of `vs` succeeds. */
  lemma {:induction false} FoldOk<A, C>(step: (A, C) -> Result<A>, acc: A, vs: seq<C>)
    requires forall a, v :: v in vs ==> step(a, v).Ok?
    ensures Fold(step, acc, vs).Ok?
    decreases |vs|
  {
    if |vs| > 0 {
      assert vs[0] in vs;
      assert forall v :: v in vs[1..] ==> v in vs;
      FoldOk(step, step(acc, vs[0]).value, vs[1..]);
    }
  }

  /** A walk of several concepts that fails on a prefix fails as that prefix does. */
  lemma {:induction false} WalkAllPrefixError<C, K>(up: C -> Result<seq<C>>, check: C -> Result<K>, cs: seq<C>, fuel: nat, n: nat)
    requires n <= |cs| && WalkAll(up, check, cs[..n], fuel).Err?
    ensures WalkAll(up, check, cs, fuel) == WalkAll(up, check, cs[..n], fuel)
    decreases |cs| - n
  {
    if n < |cs| {
      assert cs[..n + 1][..n] == cs[..n];
      WalkAllPrefixError(up, check, cs, fuel, n + 1);
    } else {
      assert cs[..n] == cs;
    }
  }

  /** A successful walk visits `c` first, passes `check` on all it visits and is closed under containers. */
  lemma {:induction false} WalkFacts<C, K>(up: C -> Result<seq<C>>, check: C -> Result<K>, c: C, fuel: nat)
    requires Walk(up, check, c, fuel).Ok?
    ensures |Walk(up, check, c, fuel).value| > 0 && Walk(up, check, c, fuel).value[0] == c
    ensures forall v :: v in Walk(up, check, c, fuel).value ==> check(v).Ok?
    ensures Closed(up, Walk(up, check, c, fuel).value)
    decreases fuel, 0
  {
    var xs := up(c).value;
    var rest := WalkAll(up, check, xs, fuel - 1).value;
    WalkAllFacts(up, check, xs, fuel - 1);
    assert Walk(up, check, c, fuel).value == [c] + rest;
    forall v | v in [c] + rest
      ensures v == c || v in rest
    {
    }
  }

  /** A successful walk of several concepts visits each of them, passes `check` on all it visits and is closed. */
  lemma {:induction false} WalkAllFacts<C, K>(up: C -> Result<seq<C>>, check: C -> Result<K>, cs: seq<C>, fuel: nat)
    requires WalkAll(up, check, cs, fuel).Ok?
    ensures forall c :: c in cs ==> c in WalkAll(up, check, cs, fuel).value
    ensures forall v :: v in WalkAll(up, check, cs, fuel).value ==> check(v).Ok?
    ensures Closed(up, WalkAll(up, check, cs, fuel).value)
    decreases fuel, 1, |cs|
  {
    if |cs| > 0 {
      var n := |cs|;
      var init := cs[..n - 1];
      var a := WalkAll(up, check, init, fuel).value;
      var b := Walk(up, check, cs[n - 1], fuel).value;
      WalkAllFacts(up, check, init, fuel);
      WalkFacts(up, check, cs[n - 1], fuel);
      assert WalkAll(up, check, cs, fuel).value == a + b;
      assert b[0] in b;
      forall c | c in cs
        ensures c in a + b
      {
        if c != cs[n - 1] {
          var i :| 0 <= i < n && cs[i] == c;
          assert init[i] == c;
        }
      }
      forall v | v in a + b
        ensures v in a || v in b
      {
      }
    }
  }

  /** Everything reachable from a member of a closed sequence is a member. */
  lemma {:induction false} ClosedReaches<C>(up: C -> Result<seq<C>>, vs: seq<C>, c: C, x: C, n: nat)
    requires Closed(up, vs) && c in vs && Reaches(up, c, x, n)
    ensures x in vs
    decreases n
  {
    if n > 0 {
      var y :| y in up(c).value && Reaches(up, y, x, n - 1);
      ClosedReaches(up, vs, y, x, n - 1);
    }
  }

  /** A walk visits only concepts reachable from where it started. */
  lemma {:induction false} WalkSound<C, K>(up: C -> Result<seq<C>>, check: C -> Result<K>, c: C, fuel: nat, v: C)
    requires Walk(up, check, c, fuel).Ok? && v in Walk(up, check, c, fuel).value
    ensures exists n: nat :: Reaches(up, c, v, n)
    decreases fuel, 0
  {
    if v == c {
      assert Reaches(up, c, v, 0);
    } else {
      var xs := up(c).value;
      var rest := WalkAll(up, check, xs, fuel - 1).value;
      assert Walk(up, check, c, fuel).value == [c] + rest;
      assert v in rest;
      var y := WalkAllSound(up, check, xs, fuel - 1, v);
      var n: nat :| Reaches(up, y, v, n);
      assert Reaches(up, c, v, n + 1);
    }
  }

  /** Each concept a walk of several visits is reachable from one of them; `c` is that one. */
  lemma {:induction false} WalkAllSound<C, K>(up: C -> Result<seq<C>>, check: C -> Result<K>, cs: seq<C>, fuel: nat, v: C)
    returns (c: C)
    requires WalkAll(up, check, cs, fuel).Ok? && v in WalkAll(up, check, cs, fuel).value
    ensures c in cs && exists n: nat :: Reaches(up, c, v, n)
    decreases fuel, 1, |cs|
  {
    var n := |cs|;
    var a := WalkAll(up, check, cs[..n - 1], fuel).value;
    var b := Walk(up, check, cs[n - 1], fuel).value;
    assert WalkAll(up, check, cs, fuel).value == a + b;
    if v in a {
      c := WalkAllSound(up, check, cs[..n - 1], fuel, v);
      assert c in cs[..n - 1];
    } else {
      c := cs[n - 1];
      WalkSound(up, check, c, fuel, v);
    }
  }

  /**
   * The cascade: a successful walk of `cs` visits each of them and every
   * concept reachable from one of them, and nothing else.
   */
  lemma WalkAllReach<C, K>(up: C -> Result<seq<C>>, check: C -> Result<K>, cs: seq<C>, fuel: nat)
    requires WalkAll(up, check, cs, fuel).Ok?
    ensures forall c :: c in cs ==> c in WalkAll(up, check, cs, fuel).value
    ensures forall c, x, n: nat :: c in cs && Reaches(up, c, x, n) ==> x in WalkAll(up, check, cs, fuel).value
    ensures forall v :: v in WalkAll(up, check, cs, fuel).value ==> ReachedFrom(up, cs, v)
  {
    var vs := WalkAll(up, check, cs, fuel).value;
    WalkAllFacts(up, check, cs, fuel);
    forall c, x, n: nat | c in cs && Reaches(up, c, x, n)
      ensures x in vs
    {
      ClosedReaches(up, vs, c, x, n);
    }
    forall v | v in vs
      ensures ReachedFrom(up, cs, v)
    {
      var c := WalkAllSound(up, check, cs, fuel, v);
      var n: nat :| Reaches(up, c, v, n);
      assert c in cs && Reaches(up, c, v, n);
    }
  }
}
