/**
 * `matchVariables` of the rule matcher: the strict unifier of a concept
 * against a pattern. Unlike `matchPattern`, a variable met a second time must
 * meet a part with the same key, and a ground atom must equal the concept's
 * atom at every depth.
 *
 * The source keeps the bindings in one object shared by all levels of the
 * recursion and tests membership with `in`, which also answers for the names
 * an object literal inherits from its prototype. The functions here take the
 * set of names `in` answers for without an own entry as a parameter:
 * `Inherited` models the code as written, the empty set an own-property test.
 */
module Unification {
  import opened Wrappers
  import opened Strings
  import opened Concepts
  import opened Matching

  /** The properties every object literal inherits from `Object.prototype`. */
  const Inherited: set<string> := {
    "constructor", "hasOwnProperty", "isPrototypeOf", "propertyIsEnumerable",
    "toLocaleString", "toString", "valueOf", "__proto__",
    "__defineGetter__", "__defineSetter__", "__lookupGetter__", "__lookupSetter__"
  }

  /** Where a call of `recurse` ends: whether it returned the dictionary, and what the shared dictionary holds. */
  datatype Step = Step(ok: bool, matches: Bindings)

  /** `recurse(concept, pattern)` run on the shared dictionary `m`. */
  function Recurse(c: Concept, p: Concept, m: Bindings, shadow: set<string>): Step
    decreases p, 1
  {
    if IsAtom(p) && IsVariable(p) then Step(true, m[Key(p) := c])
    else if IsAtom(p) && IsAtom(c) && Key(c) != Key(p) then Step(false, m)
    else if |Parts(c)| != |Parts(p)| then Step(false, m)
    else if IsAtom(p) then Step(true, m)
    else RecurseParts(Parts(c), p.parts, m, shadow)
  }

  /** The loop over the parts: stops at the first part that fails. */
  function RecurseParts(cs: seq<Concept>, ps: seq<Concept>, m: Bindings, shadow: set<string>): Step
    requires |cs| == |ps|
    decreases ps, 0
  {
    if |ps| == 0 then Step(true, m)
    else
      var n := |ps| - 1;
      var init := RecurseParts(cs[..n], ps[..n], m, shadow);
      if !init.ok then init else RecursePart(cs[n], ps[n], init.matches, shadow)
  }

  /**
   * One round of the loop. A pattern part whose key is already a name is
   * compared by key; otherwise the source calls `recurse` on the part, and
   * on success calls it a second time and assigns its result into the
   * dictionary, which leaves the dictionary as that second call left it.
   */
  function RecursePart(cp: Concept, pp: Concept, m: Bindings, shadow: set<string>): Step
    decreases pp, 2
  {
    if Key(pp) in m then Step(Key(cp) == Key(m[Key(pp)]), m)
    else if Key(pp) in shadow then Step(false, m)
    else
      var first := Recurse(cp, pp, m, shadow);
      if !first.ok then first
      else Step(true, Recurse(cp, pp, first.matches, shadow).matches)
  }

  /** `matchVariables(concept, pattern)`: `None` is `null`. */
  function Unify(c: Concept, p: Concept, shadow: set<string>): Option<Bindings>
  {
    if |Parts(c)| != |Parts(p)| then None
    else
      var s := Recurse(c, p, map[], shadow);
      if s.ok then Some(s.matches) else None
  }

  /** The shared dictionary of one `matchVariables` call. */
  class Matcher {
    var matches: Bindings
    const shadow: set<string>

    constructor(shadow: set<string>)
      ensures this.shadow == shadow && matches == map[]
    {
      this.shadow := shadow;
      matches := map[];
    }

    /** `recurse`: the returned flag says whether it returned the dictionary or `null`. */
    method Run(c: Concept, p: Concept) returns (ok: bool)
      modifies this
      ensures Step(ok, matches) == Recurse(c, p, old(matches), shadow)
      decreases p, 1
    {
      if IsAtom(p) {
        if IsVariable(p) {
          matches := matches[Key(p) := c];
          return true;
        }
        if IsAtom(c) && Key(c) != Key(p) {
          return false;
        }
      }
      if |Parts(c)| != |Parts(p)| {
        return false;
      }
      if IsAtom(p) {
        return true;
      }
      var cs, ps := Parts(c), p.parts;
      var i := 0;
      while i < |ps|
        invariant 0 <= i <= |ps|
        invariant RecurseParts(cs[..i], ps[..i], old(matches), shadow) == Step(true, matches)
      {
        assert cs[..i + 1][..i] == cs[..i] && ps[..i + 1][..i] == ps[..i];
        var cp, pp := cs[i], ps[i];
        if Key(pp) in matches {
          if Key(cp) != Key(matches[Key(pp)]) {
            RecursePartsPrefixFails(cs, ps, old(matches), shadow, i + 1);
            return false;
          }
        } else if Key(pp) in shadow {
          RecursePartsPrefixFails(cs, ps, old(matches), shadow, i + 1);
          return false;
        } else {
          var recursed := Run(cp, pp);
          if !recursed {
            RecursePartsPrefixFails(cs, ps, old(matches), shadow, i + 1);
            return false;
          }
          // `Object.assign(matches, recurse(...))`: the second call returns
          // the shared dictionary itself or `null`, so assigning it adds nothing.
          var _ := Run(cp, pp);
        }
        i := i + 1;
      }
      assert cs[..i] == cs && ps[..i] == ps;
      return true;
    }
  }

  /** `matchVariables`, with `shadow` the names `in` answers for without an own entry. */
  method MatchVariables(concept: Concept, pattern: Concept, shadow: set<string>) returns (r: Option<Bindings>)
    ensures r == Unify(concept, pattern, shadow)
  {
    if |Parts(concept)| != |Parts(pattern)| {
      return None;
    }
    var matcher := new Matcher(shadow);
    var ok := matcher.Run(concept, pattern);
    r := if ok then Some(matcher.matches) else None;
  }

  /** Once a prefix of the parts fails, the loop has stopped there. */
  lemma {:induction false} RecursePartsPrefixFails(cs: seq<Concept>, ps: seq<Concept>, m: Bindings, shadow: set<string>, n: nat)
    requires |cs| == |ps| && n <= |ps|
    requires !RecurseParts(cs[..n], ps[..n], m, shadow).ok
    ensures RecurseParts(cs, ps, m, shadow) == RecurseParts(cs[..n], ps[..n], m, shadow)
    decreases |ps| - n
  {
    if n < |ps| {
      assert cs[..n + 1][..n] == cs[..n] && ps[..n + 1][..n] == ps[..n];
      RecursePartsPrefixFails(cs, ps, m, shadow, n + 1);
    } else {
      assert cs[..n] == cs && ps[..n] == ps;
    }
  }

  // The reference: what it means for a concept to be an instance of a pattern.

  /**
   * `c` is an instance of `p` under the bindings `m`: each variable stands for
   * a concept with the key it is bound to, each ground atom for an equal atom,
   * and each compound for a compound of the same arity whose parts are
   * instances of the pattern's parts.
   */
  predicate Fits(c: Concept, p: Concept, m: Bindings)
    decreases p
  {
    if IsVariable(p) then Key(p) in m && Key(m[Key(p)]) == Key(c)
    else if IsAtom(p) then IsAtom(c) && Key(c) == Key(p)
    else |Parts(c)| == |p.parts| && forall i :: 0 <= i < |p.parts| ==> Fits(Parts(c)[i], p.parts[i], m)
  }

  /** A name a well-formed variable can have. */
  predicate VarName(k: string)
  {
    |k| > 0 && k[0] == '$' && ' ' !in k
  }

  predicate VarNames(m: Bindings)
  {
    forall k :: k in m ==> VarName(k)
  }

  /** `m2` keeps every entry of `m`. */
  predicate Extends(m: Bindings, m2: Bindings)
  {
    forall k :: k in m ==> k in m2 && m2[k] == m[k]
  }

  /** Every name of `m` is bound in `s` to a concept with the same key. */
  predicate Compatible(m: Bindings, s: Bindings)
  {
    forall k :: k in m ==> k in s && Key(m[k]) == Key(s[k])
  }

  /** No part of `p`, at any depth, has a key in `shadow`. */
  predicate Unshadowed(p: Concept, shadow: set<string>)
    decreases p
  {
    IsAtom(p) || forall i :: 0 <= i < |p.parts| ==> Key(p.parts[i]) !in shadow && Unshadowed(p.parts[i], shadow)
  }

  /** The key of a part of a well-formed pattern is a name exactly when the part is a variable. */
  lemma NameOnlyForVariables(q: Concept)
    requires WellFormed(q)
    ensures VarName(Key(q)) <==> IsVariable(q)
  {
    if IsVariable(q) {
      VariableKeyNoSpace(q);
    } else if IsCompound(q) {
      CompoundKeySpace(q);
    }
  }

  lemma {:induction false} FitsExtends(c: Concept, p: Concept, m: Bindings, m2: Bindings)
    requires Fits(c, p, m) && Extends(m, m2)
    ensures Fits(c, p, m2)
    decreases p
  {
    if !IsAtom(p) {
      forall i | 0 <= i < |p.parts|
        ensures Fits(Parts(c)[i], p.parts[i], m2)
      {
        FitsExtends(Parts(c)[i], p.parts[i], m, m2);
      }
    }
  }

  // Soundness: a successful run only adds bindings, and the concept fits the pattern under them.

  lemma {:induction false} RecurseSound(c: Concept, p: Concept, m: Bindings, shadow: set<string>)
    requires WellFormed(p) && VarNames(m) && Key(p) !in m
    requires Recurse(c, p, m, shadow).ok
    ensures var r := Recurse(c, p, m, shadow).matches;
      Extends(m, r) && VarNames(r) && Fits(c, p, r)
    decreases p, 1
  {
    if IsVariable(p) {
      NameOnlyForVariables(p);
    } else if !IsAtom(p) {
      RecursePartsSound(Parts(c), p.parts, m, shadow);
    }
  }

  lemma {:induction false} RecursePartsSound(cs: seq<Concept>, ps: seq<Concept>, m: Bindings, shadow: set<string>)
    requires |cs| == |ps| && (forall i :: 0 <= i < |ps| ==> WellFormed(ps[i])) && VarNames(m)
    requires RecurseParts(cs, ps, m, shadow).ok
    ensures var r := RecurseParts(cs, ps, m, shadow).matches;
      Extends(m, r) && VarNames(r) && forall i :: 0 <= i < |ps| ==> Fits(cs[i], ps[i], r)
    decreases ps, 0
  {
    if |ps| > 0 {
      var n := |ps| - 1;
      var init := RecurseParts(cs[..n], ps[..n], m, shadow);
      assert forall i :: 0 <= i < n ==> ps[..n][i] == ps[i];
      RecursePartsSound(cs[..n], ps[..n], m, shadow);
      RecursePartSound(cs[n], ps[n], init.matches, shadow);
      FitsSnoc(cs, ps, n, init.matches, RecursePart(cs[n], ps[n], init.matches, shadow).matches);
    }
  }

  /** The parts before the last fit under `a`, which `r` extends, and the last fits under `r`. */
  lemma FitsSnoc(cs: seq<Concept>, ps: seq<Concept>, n: nat, a: Bindings, r: Bindings)
    requires |cs| == |ps| == n + 1 && Extends(a, r)
    requires forall i :: 0 <= i < n ==> Fits(cs[..n][i], ps[..n][i], a)
    requires Fits(cs[n], ps[n], r)
    ensures forall i :: 0 <= i < |ps| ==> Fits(cs[i], ps[i], r)
  {
    forall i | 0 <= i < n
      ensures Fits(cs[i], ps[i], r)
    {
      assert cs[..n][i] == cs[i] && ps[..n][i] == ps[i];
      FitsExtends(cs[i], ps[i], a, r);
    }
  }

  lemma {:induction false} RecursePartSound(cp: Concept, pp: Concept, m: Bindings, shadow: set<string>)
    requires WellFormed(pp) && VarNames(m)
    requires RecursePart(cp, pp, m, shadow).ok
    ensures var r := RecursePart(cp, pp, m, shadow).matches;
      Extends(m, r) && VarNames(r) && Fits(cp, pp, r)
    decreases pp, 2
  {
    if Key(pp) in m {
      NameOnlyForVariables(pp);
    } else {
      var first := Recurse(cp, pp, m, shadow);
      RecurseSound(cp, pp, m, shadow);
      RecurseRerun(cp, pp, m, first.matches, shadow);
    }
  }

  // The names a successful run adds are variables of the pattern.

  lemma {:induction false} RecurseNames(c: Concept, p: Concept, m: Bindings, shadow: set<string>)
    requires WellFormed(p) && VarNames(m) && Key(p) !in m
    requires Recurse(c, p, m, shadow).ok
    ensures forall k :: k in Recurse(c, p, m, shadow).matches ==> k in m || VariableIn(k, p)
    decreases p, 1
  {
    var r := Recurse(c, p, m, shadow).matches;
    if IsVariable(p) {
      assert SubConcept(p, p);
    } else if !IsAtom(p) {
      RecursePartsNames(Parts(c), p.parts, m, shadow);
      forall k | k in r && k !in m
        ensures VariableIn(k, p)
      {
        var i :| 0 <= i < |p.parts| && VariableIn(k, p.parts[i]);
        var v :| SubConcept(v, p.parts[i]) && IsVariable(v) && Key(v) == k;
        assert SubConcept(v, p);
      }
    }
  }

  lemma {:induction false} RecursePartsNames(cs: seq<Concept>, ps: seq<Concept>, m: Bindings, shadow: set<string>)
    requires |cs| == |ps| && (forall i :: 0 <= i < |ps| ==> WellFormed(ps[i])) && VarNames(m)
    requires RecurseParts(cs, ps, m, shadow).ok
    ensures forall k :: k in RecurseParts(cs, ps, m, shadow).matches ==> k in m || VariableInSome(k, ps)
    decreases ps, 0
  {
    if |ps| > 0 {
      var n := |ps| - 1;
      var init := RecurseParts(cs[..n], ps[..n], m, shadow);
      assert forall i :: 0 <= i < n ==> ps[..n][i] == ps[i];
      RecursePartsSound(cs[..n], ps[..n], m, shadow);
      RecursePartsNames(cs[..n], ps[..n], m, shadow);
      RecursePartNames(cs[n], ps[n], init.matches, shadow);
      var r := RecursePart(cs[n], ps[n], init.matches, shadow).matches;
      forall k | k in r && k !in m
        ensures VariableInSome(k, ps)
      {
        if k in init.matches {
          var i :| 0 <= i < n && VariableIn(k, ps[..n][i]);
          assert VariableIn(k, ps[i]);
        } else {
          assert VariableIn(k, ps[n]);
        }
      }
    }
  }

  lemma {:induction false} RecursePartNames(cp: Concept, pp: Concept, m: Bindings, shadow: set<string>)
    requires WellFormed(pp) && VarNames(m)
    requires RecursePart(cp, pp, m, shadow).ok
    ensures forall k :: k in RecursePart(cp, pp, m, shadow).matches ==> k in m || VariableIn(k, pp)
    decreases pp, 2
  {
    if Key(pp) !in m {
      var first := Recurse(cp, pp, m, shadow);
      RecurseSound(cp, pp, m, shadow);
      RecurseNames(cp, pp, m, shadow);
      RecurseRerun(cp, pp, m, first.matches, shadow);
    }
  }

  // Calling `recurse` a second time on a dictionary that already holds the first call's bindings changes nothing.

  lemma {:induction false} RecurseRerun(c: Concept, p: Concept, m: Bindings, m2: Bindings, shadow: set<string>)
    requires WellFormed(p) && VarNames(m) && VarNames(m2)
    requires Recurse(c, p, m, shadow).ok && Extends(Recurse(c, p, m, shadow).matches, m2)
    ensures Recurse(c, p, m2, shadow) == Step(true, m2)
    decreases p, 1
  {
    if IsVariable(p) {
      assert m2[Key(p) := c] == m2;
    } else if !IsAtom(p) {
      RecursePartsRerun(Parts(c), p.parts, m, m2, shadow);
    }
  }

  lemma {:induction false} RecursePartsRerun(cs: seq<Concept>, ps: seq<Concept>, m: Bindings, m2: Bindings, shadow: set<string>)
    requires |cs| == |ps| && (forall i :: 0 <= i < |ps| ==> WellFormed(ps[i])) && VarNames(m) && VarNames(m2)
    requires RecurseParts(cs, ps, m, shadow).ok && Extends(RecurseParts(cs, ps, m, shadow).matches, m2)
    ensures RecurseParts(cs, ps, m2, shadow) == Step(true, m2)
    decreases ps, 0
  {
    if |ps| > 0 {
      var n := |ps| - 1;
      var init := RecurseParts(cs[..n], ps[..n], m, shadow);
      assert forall i :: 0 <= i < n ==> ps[..n][i] == ps[i];
      RecursePartsSound(cs[..n], ps[..n], m, shadow);
      RecursePartSound(cs[n], ps[n], init.matches, shadow);
      RecursePartsRerun(cs[..n], ps[..n], m, m2, shadow);
      RecursePartRerun(cs[n], ps[n], init.matches, m2, shadow);
    }
  }

  lemma {:induction false} RecursePartRerun(cp: Concept, pp: Concept, m: Bindings, m2: Bindings, shadow: set<string>)
    requires WellFormed(pp) && VarNames(m) && VarNames(m2)
    requires RecursePart(cp, pp, m, shadow).ok && Extends(RecursePart(cp, pp, m, shadow).matches, m2)
    ensures RecursePart(cp, pp, m2, shadow) == Step(true, m2)
    decreases pp, 2
  {
    if Key(pp) !in m {
      var first := Recurse(cp, pp, m, shadow);
      RecurseSound(cp, pp, m, shadow);
      RecurseRerun(cp, pp, m, first.matches, shadow);
      if Key(pp) in m2 {
        NameOnlyForVariables(pp);
      } else {
        RecurseRerun(cp, pp, m, m2, shadow);
      }
    }
  }

  // Completeness: an instance of the pattern is unified, with bindings that agree by key.

  lemma {:induction false} RecurseComplete(c: Concept, p: Concept, m: Bindings, s: Bindings, shadow: set<string>)
    requires WellFormed(p) && VarNames(m) && Fits(c, p, s) && Compatible(m, s) && Unshadowed(p, shadow)
    ensures Recurse(c, p, m, shadow).ok && Compatible(Recurse(c, p, m, shadow).matches, s)
    decreases p, 1
  {
    if !IsAtom(p) {
      RecursePartsComplete(Parts(c), p.parts, m, s, shadow);
    }
  }

  lemma {:induction false} RecursePartsComplete(cs: seq<Concept>, ps: seq<Concept>, m: Bindings, s: Bindings, shadow: set<string>)
    requires |cs| == |ps| && VarNames(m) && Compatible(m, s)
    requires forall i :: 0 <= i < |ps| ==>
      WellFormed(ps[i]) && Fits(cs[i], ps[i], s) && Key(ps[i]) !in shadow && Unshadowed(ps[i], shadow)
    ensures RecurseParts(cs, ps, m, shadow).ok && Compatible(RecurseParts(cs, ps, m, shadow).matches, s)
    decreases ps, 0
  {
    if |ps| > 0 {
      var n := |ps| - 1;
      var init := RecurseParts(cs[..n], ps[..n], m, shadow);
      assert forall i :: 0 <= i < n ==> ps[..n][i] == ps[i] && cs[..n][i] == cs[i];
      RecursePartsComplete(cs[..n], ps[..n], m, s, shadow);
      RecursePartsSound(cs[..n], ps[..n], m, shadow);
      RecursePartComplete(cs[n], ps[n], init.matches, s, shadow);
    }
  }

  lemma {:induction false} RecursePartComplete(cp: Concept, pp: Concept, m: Bindings, s: Bindings, shadow: set<string>)
    requires WellFormed(pp) && VarNames(m) && Fits(cp, pp, s) && Compatible(m, s)
    requires Key(pp) !in shadow && Unshadowed(pp, shadow)
    ensures RecursePart(cp, pp, m, shadow).ok && Compatible(RecursePart(cp, pp, m, shadow).matches, s)
    decreases pp, 2
  {
    if Key(pp) in m {
      NameOnlyForVariables(pp);
    } else {
      var first := Recurse(cp, pp, m, shadow);
      RecurseComplete(cp, pp, m, s, shadow);
      RecurseSound(cp, pp, m, shadow);
      RecurseRerun(cp, pp, m, first.matches, shadow);
    }
  }

  // The names `in` answers for matter only where a part's key is one of them.

  lemma {:induction false} RecurseShadow(c: Concept, p: Concept, m: Bindings, shadow: set<string>)
    requires Unshadowed(p, shadow)
    ensures Recurse(c, p, m, shadow) == Recurse(c, p, m, {})
    decreases p, 1
  {
    if !IsAtom(p) && |Parts(c)| == |Parts(p)| {
      RecursePartsShadow(Parts(c), p.parts, m, shadow);
    }
  }

  lemma {:induction false} RecursePartsShadow(cs: seq<Concept>, ps: seq<Concept>, m: Bindings, shadow: set<string>)
    requires |cs| == |ps|
    requires forall i :: 0 <= i < |ps| ==> Key(ps[i]) !in shadow && Unshadowed(ps[i], shadow)
    ensures RecurseParts(cs, ps, m, shadow) == RecurseParts(cs, ps, m, {})
    decreases ps, 0
  {
    if |ps| > 0 {
      var n := |ps| - 1;
      assert forall i :: 0 <= i < n ==> ps[..n][i] == ps[i];
      RecursePartsShadow(cs[..n], ps[..n], m, shadow);
      var init := RecurseParts(cs[..n], ps[..n], m, shadow);
      if init.ok {
        RecursePartShadow(cs[n], ps[n], init.matches, shadow);
      }
    }
  }

  lemma {:induction false} RecursePartShadow(cp: Concept, pp: Concept, m: Bindings, shadow: set<string>)
    requires Key(pp) !in shadow && Unshadowed(pp, shadow)
    ensures RecursePart(cp, pp, m, shadow) == RecursePart(cp, pp, m, {})
    decreases pp, 2
  {
    if Key(pp) !in m {
      RecurseShadow(cp, pp, m, shadow);
      var first := Recurse(cp, pp, m, shadow);
      if first.ok {
        RecurseShadow(cp, pp, first.matches, shadow);
      }
    }
  }

  lemma {:induction false} UnshadowedByNothing(p: Concept)
    ensures Unshadowed(p, {})
    decreases p
  {
    if !IsAtom(p) {
      forall i | 0 <= i < |p.parts|
        ensures Unshadowed(p.parts[i], {})
      {
        UnshadowedByNothing(p.parts[i]);
      }
    }
  }

  // `matchVariables`.

  /**
   * A successful unification binds only variables of the pattern, and the
   * concept is an instance of the pattern under the bindings: every ground
   * atom is met by an equal atom, every compound by one of the same arity,
   * and every occurrence of a variable by a concept with the bound key. The
   * arities agree at the top level, so a bare variable unifies only with an atom.
   */
  lemma UnifySound(c: Concept, p: Concept, shadow: set<string>)
    requires WellFormed(p) && Unify(c, p, shadow).Some?
    ensures |Parts(c)| == |Parts(p)|
    ensures Fits(c, p, Unify(c, p, shadow).value)
    ensures forall k :: k in Unify(c, p, shadow).value ==> VariableIn(k, p)
  {
    RecurseSound(c, p, map[], shadow);
    RecurseNames(c, p, map[], shadow);
  }

  /** Conversely, an instance of the pattern unifies unless one of its parts has a key in `shadow`. */
  lemma UnifyComplete(c: Concept, p: Concept, s: Bindings, shadow: set<string>)
    requires WellFormed(p) && |Parts(c)| == |Parts(p)| && Fits(c, p, s) && Unshadowed(p, shadow)
    ensures Unify(c, p, shadow).Some? && Compatible(Unify(c, p, shadow).value, s)
  {
    RecurseComplete(c, p, map[], s, shadow);
  }

  /** With an own-property test, unification succeeds exactly on the instances of the pattern of the same top-level arity. */
  lemma UnifyMeaning(c: Concept, p: Concept)
    requires WellFormed(p)
    ensures Unify(c, p, {}).Some? <==> |Parts(c)| == |Parts(p)| && exists s :: Fits(c, p, s)
  {
    if Unify(c, p, {}).Some? {
      UnifySound(c, p, {});
      assert Fits(c, p, Unify(c, p, {}).value);
    }
    if |Parts(c)| == |Parts(p)| && exists s :: Fits(c, p, s) {
      var s :| Fits(c, p, s);
      UnshadowedByNothing(p);
      UnifyComplete(c, p, s, {});
    }
  }

  /** The inherited names make a difference only to patterns with a part so named. */
  lemma UnifyInherited(c: Concept, p: Concept)
    requires Unshadowed(p, Inherited)
    ensures Unify(c, p, Inherited) == Unify(c, p, {})
  {
    RecurseShadow(c, p, map[], Inherited);
  }

  /** Two parts that are the same variable must meet parts with equal keys. */
  lemma RepeatedVariableAgrees(c: Concept, p: Concept, shadow: set<string>, i: nat, j: nat)
    requires WellFormed(p) && Unify(c, p, shadow).Some? && IsCompound(p)
    requires i < |p.parts| && j < |p.parts| && IsVariable(p.parts[i]) && Key(p.parts[j]) == Key(p.parts[i])
    ensures Key(Parts(c)[i]) == Key(Parts(c)[j])
  {
    UnifySound(c, p, shadow);
    NameOnlyForVariables(p.parts[i]);
    NameOnlyForVariables(p.parts[j]);
  }

  /** The pattern `constructor $x` and the concept `constructor john`, which fits it. */
  const ConstructorPattern := Compound([Atom("constructor"), Atom("$x")])
  const ConstructorFact := Compound([Atom("constructor"), Atom("john")])

  /**
   * As written, a pattern with a part named `constructor` never unifies:
   * `constructor $x` fails against `constructor john`, which fits it.
   */
  lemma InheritedNameFails()
    ensures WellFormed(ConstructorPattern)
    ensures Fits(ConstructorFact, ConstructorPattern, map["$x" := Atom("john")])
    ensures Unify(ConstructorFact, ConstructorPattern, Inherited) == None
  {
    var cs, ps := ConstructorFact.parts, ConstructorPattern.parts;
    assert cs[..1] == [Atom("constructor")] && ps[..1] == [Atom("constructor")];
    assert cs[..1][..0] == [] && ps[..1][..0] == [];
    assert RecurseParts(cs[..1], ps[..1], map[], Inherited) == Step(false, map[]);
    LettersPass("constructor");
    LettersPass("$x");
    assert Key(ps[0]) != ":";
  }

  lemma LettersPass(k: string)
    requires forall i :: 0 <= i < |k| ==> k[i] == '$' || 'a' <= k[i] <= 'z'
    ensures PassesAtomCheck(k)
  {
  }

  /** With an own-property test the same pattern binds `$x` to `john`. */
  lemma OwnNameUnifies()
    ensures Unify(ConstructorFact, ConstructorPattern, {}) == Some(map["$x" := Atom("john")])
  {
    var cs, ps := ConstructorFact.parts, ConstructorPattern.parts;
    assert cs[..1] == [Atom("constructor")] && ps[..1] == [Atom("constructor")];
    assert cs[..1][..0] == [] && ps[..1][..0] == [];
    assert RecurseParts(cs[..1], ps[..1], map[], {}) == Step(true, map[]);
    assert RecursePart(cs[1], ps[1], map[], {}) == Step(true, map["$x" := Atom("john")]);
  }
}
