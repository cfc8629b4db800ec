/**
 * Structural pattern matching of the parser library: a variable matches
 * anything and binds it, a concept without variables matches only its own
 * key, and a pattern compound matches part by part.
 */
module Matching {
  import opened Wrappers
  import opened Strings
  import opened Concepts

  /** A `VariableMatchMap`; `extractVariables` turns it into a record with the same entries. */
  type Bindings = map<string, Concept>

  /** What `matchPattern(concept, pattern)` returns; `None` is `null`. */
  function Match(c: Concept, p: Concept): Option<Bindings>
    decreases p, 0
  {
    if IsVariable(p) then Some(map[Key(p) := c])
    else if !IsPattern(p) then (if Key(p) != Key(c) then None else Some(map[]))
    else if |Parts(p)| != |Parts(c)| then None
    else MatchParts(Parts(c), p.parts)
  }

  /** The loop over the parts: each part's bindings set in turn, so later ones win. */
  function MatchParts(cs: seq<Concept>, ps: seq<Concept>): Option<Bindings>
    requires |cs| == |ps|
    decreases ps, 1
  {
    if |ps| == 0 then Some(map[])
    else
      match MatchParts(cs[..|ps| - 1], ps[..|ps| - 1])
      case None => None
      case Some(m) =>
        match Match(cs[|ps| - 1], ps[|ps| - 1])
        case None => None
        case Some(sub) => Some(m + sub)
  }

  /** `matchPattern`. */
  method MatchPattern(concept: Concept, pattern: Concept) returns (r: Option<Bindings>)
    ensures r == Match(concept, pattern)
    decreases pattern
  {
    if IsVariable(pattern) {
      return Some(map[Key(pattern) := concept]);
    }
    if !IsPattern(pattern) {
      if Key(pattern) != Key(concept) {
        return None;
      }
      return Some(map[]);
    } else if |Parts(pattern)| != |Parts(concept)| {
      return None;
    }
    var cs := Parts(concept);
    var ps := pattern.parts;
    var matches: Bindings := map[];
    var i := 0;
    while i < |ps|
      invariant 0 <= i <= |ps|
      invariant MatchParts(cs[..i], ps[..i]) == Some(matches)
    {
      assert cs[..i + 1][..i] == cs[..i] && ps[..i + 1][..i] == ps[..i];
      var sub := MatchPattern(cs[i], ps[i]);
      if sub.None? {
        MatchPartsPrefixFails(cs, ps, i + 1);
        return None;
      }
      matches := matches + sub.value;
      i := i + 1;
    }
    assert cs[..|ps|] == cs && ps[..|ps|] == ps;
    r := Some(matches);
  }

  /** Once a prefix of the parts fails to match, the whole list fails. */
  lemma {:induction false} MatchPartsPrefixFails(cs: seq<Concept>, ps: seq<Concept>, n: nat)
    requires |cs| == |ps| && n <= |ps|
    requires MatchParts(cs[..n], ps[..n]).None?
    ensures MatchParts(cs, ps).None?
    decreases |ps| - n
  {
    if n < |ps| {
      assert cs[..n + 1][..n] == cs[..n] && ps[..n + 1][..n] == ps[..n];
      MatchPartsPrefixFails(cs, ps, n + 1);
    } else {
      assert cs[..n] == cs && ps[..n] == ps;
    }
  }

  // Properties.

  /**
   * A variable binds the whole concept; a pattern without variables matches
   * only the identical key and binds nothing; a pattern compound fails on a
   * concept of a different arity.
   */
  lemma MatchCases(c: Concept, p: Concept)
    ensures IsVariable(p) ==> Match(c, p) == Some(map[Key(p) := c])
    ensures !IsVariable(p) && !IsPattern(p) ==> (Match(c, p).Some? <==> Key(p) == Key(c))
    ensures !IsVariable(p) && !IsPattern(p) && Match(c, p).Some? ==> Match(c, p).value == map[]
    ensures IsPattern(p) && |Parts(p)| != |Parts(c)| ==> Match(c, p).None?
  {
  }

  /** The parts match exactly when every part matches; one failing part fails the whole match. */
  lemma {:induction false} MatchPartsAll(cs: seq<Concept>, ps: seq<Concept>)
    requires |cs| == |ps|
    ensures MatchParts(cs, ps).Some? <==> forall i :: 0 <= i < |ps| ==> Match(cs[i], ps[i]).Some?
    decreases |ps|
  {
    if |ps| > 0 {
      var n := |ps| - 1;
      MatchPartsAll(cs[..n], ps[..n]);
      if MatchParts(cs, ps).Some? {
        forall i | 0 <= i < |ps|
          ensures Match(cs[i], ps[i]).Some?
        {
          if i < n {
            assert cs[..n][i] == cs[i] && ps[..n][i] == ps[i];
          }
        }
      }
      if forall i :: 0 <= i < |ps| ==> Match(cs[i], ps[i]).Some? {
        forall i | 0 <= i < n
          ensures Match(cs[..n][i], ps[..n][i]).Some?
        {
          assert cs[..n][i] == cs[i] && ps[..n][i] == ps[i];
        }
      }
    }
  }

  /** Part `j` binds `k` to `v`, and no later part binds `k`. */
  predicate LastBinder(cs: seq<Concept>, ps: seq<Concept>, k: string, j: nat, v: Concept)
    requires |cs| == |ps|
  {
    j < |ps| && Match(cs[j], ps[j]).Some? && k in Match(cs[j], ps[j]).value
    && Match(cs[j], ps[j]).value[k] == v
    && forall j' :: j < j' < |ps| && Match(cs[j'], ps[j']).Some? ==> k !in Match(cs[j'], ps[j']).value
  }

  /**
   * The bindings of a successful match of the parts: every name bound by
   * some part, with the value of the last part that binds it. Repeated
   * variables are not checked for agreement.
   */
  lemma {:induction false} MatchPartsLastWins(cs: seq<Concept>, ps: seq<Concept>)
    requires |cs| == |ps| && MatchParts(cs, ps).Some?
    ensures forall k :: k in MatchParts(cs, ps).value ==>
      exists j: nat :: LastBinder(cs, ps, k, j, MatchParts(cs, ps).value[k])
    ensures forall j, k :: 0 <= j < |ps| && Match(cs[j], ps[j]).Some? && k in Match(cs[j], ps[j]).value ==>
      k in MatchParts(cs, ps).value
    decreases |ps|, 1
  {
    if |ps| > 0 {
      MatchPartsLastWinsStep(cs, ps);
    }
  }

  lemma {:induction false} MatchPartsLastWinsStep(cs: seq<Concept>, ps: seq<Concept>)
    requires |cs| == |ps| > 0 && MatchParts(cs, ps).Some?
    ensures forall k :: k in MatchParts(cs, ps).value ==>
      exists j: nat :: LastBinder(cs, ps, k, j, MatchParts(cs, ps).value[k])
    ensures forall j, k :: 0 <= j < |ps| && Match(cs[j], ps[j]).Some? && k in Match(cs[j], ps[j]).value ==>
      k in MatchParts(cs, ps).value
    decreases |ps|, 0
  {
    var n := |ps| - 1;
    var m := MatchParts(cs, ps).value;
    var init := MatchParts(cs[..n], ps[..n]).value;
    var sub := Match(cs[n], ps[n]).value;
    assert m == init + sub;
    MatchPartsLastWins(cs[..n], ps[..n]);
    forall k | k in m
      ensures exists j: nat :: LastBinder(cs, ps, k, j, m[k])
    {
      if k in sub {
        assert LastBinder(cs, ps, k, n, m[k]);
      } else {
        assert k in init;
        var j: nat :| LastBinder(cs[..n], ps[..n], k, j, init[k]);
        LastBinderExtend(cs, ps, k, j, m[k]);
      }
    }
    forall j, k | 0 <= j < |ps| && Match(cs[j], ps[j]).Some? && k in Match(cs[j], ps[j]).value
      ensures k in m
    {
      if j < n {
        assert cs[..n][j] == cs[j] && ps[..n][j] == ps[j];
      }
    }
  }

  /** A last binder among all but the final part stays last when the final part does not bind the name. */
  lemma LastBinderExtend(cs: seq<Concept>, ps: seq<Concept>, k: string, j: nat, v: Concept)
    requires |cs| == |ps| > 0
    requires LastBinder(cs[..|ps| - 1], ps[..|ps| - 1], k, j, v)
    requires Match(cs[|ps| - 1], ps[|ps| - 1]).Some? && k !in Match(cs[|ps| - 1], ps[|ps| - 1]).value
    ensures LastBinder(cs, ps, k, j, v)
  {
    var n := |ps| - 1;
    assert cs[..n][j] == cs[j] && ps[..n][j] == ps[j];
    forall j' | j < j' < |ps| && Match(cs[j'], ps[j']).Some?
      ensures k !in Match(cs[j'], ps[j']).value
    {
      if j' < n {
        assert cs[..n][j'] == cs[j'] && ps[..n][j'] == ps[j'];
      }
    }
  }

  /** Two parts bound to the same variable: the second one's concept is kept. */
  lemma RepeatedVariableLastWins()
    ensures var x, a, b := Atom("$x"), Atom("a"), Atom("b");
      Match(Compound([a, b]), Compound([x, x])) == Some(map["$x" := b])
  {
    var x, a, b := Atom("$x"), Atom("a"), Atom("b");
    var p := Compound([x, x]);
    assert IsVariable(p.parts[0]);
    assert IsPattern(p);
    var cs := [a, b];
    var ps := [x, x];
    assert cs[..1] == [a] && ps[..1] == [x];
    assert cs[..1][..0] == [] && ps[..1][..0] == [];
    assert IsVariable(x);
    assert Match(a, x) == Some(map["$x" := a]);
    assert map[] + map["$x" := a] == map["$x" := a];
    assert MatchParts(cs[..1], ps[..1]) == Some(map["$x" := a]);
    assert MatchParts(cs, ps) == Some(map["$x" := a] + map["$x" := b]);
    assert map["$x" := a] + map["$x" := b] == map["$x" := b];
  }

  /** The keys of the variables occurring anywhere in `p`, `p` itself included. */
  ghost predicate VariableIn(k: string, p: Concept)
  {
    exists v :: SubConcept(v, p) && IsVariable(v) && Key(v) == k
  }

  /** Every bound name is the key of a variable occurring in the pattern. */
  ghost predicate VariableInSome(k: string, ps: seq<Concept>)
  {
    exists i :: 0 <= i < |ps| && VariableIn(k, ps[i])
  }

  lemma {:induction false} BoundNamesAreVariables(c: Concept, p: Concept)
    requires Match(c, p).Some?
    ensures forall k :: k in Match(c, p).value ==> VariableIn(k, p)
    decreases p, 0
  {
    if IsVariable(p) {
      assert SubConcept(p, p);
    } else if IsPattern(p) {
      BoundPartNamesAreVariables(Parts(c), p.parts);
      forall k | k in Match(c, p).value
        ensures VariableIn(k, p)
      {
        assert VariableInSome(k, p.parts);
        var i :| 0 <= i < |p.parts| && VariableIn(k, p.parts[i]);
        var v :| SubConcept(v, p.parts[i]) && IsVariable(v) && Key(v) == k;
        assert SubConcept(v, p);
      }
    }
  }

  lemma {:induction false} BoundPartNamesAreVariables(cs: seq<Concept>, ps: seq<Concept>)
    requires |cs| == |ps| && MatchParts(cs, ps).Some?
    ensures forall k :: k in MatchParts(cs, ps).value ==> VariableInSome(k, ps)
    decreases ps, 1
  {
    if |ps| > 0 {
      var n := |ps| - 1;
      var init := MatchParts(cs[..n], ps[..n]).value;
      var sub := Match(cs[n], ps[n]).value;
      assert MatchParts(cs, ps).value == init + sub;
      BoundPartNamesAreVariables(cs[..n], ps[..n]);
      BoundNamesAreVariables(cs[n], ps[n]);
      forall k | k in MatchParts(cs, ps).value
        ensures VariableInSome(k, ps)
      {
        if k in sub {
          assert VariableIn(k, ps[n]);
        } else {
          assert VariableInSome(k, ps[..n]);
          var i :| 0 <= i < n && VariableIn(k, ps[..n][i]);
          assert ps[..n][i] == ps[i];
        }
      }
    }
  }

  // `getPatternVariables`.

  function Variables(s: seq<Concept>): (r: seq<Concept>)
    ensures forall x :: x in r <==> x in s && IsVariable(x)
  {
    if |s| == 0 then [] else (if IsVariable(s[0]) then [s[0]] else []) + Variables(s[1..])
  }

  /** `getPatternVariables(patterns)`: the variables among the deep contents of the patterns. */
  function PatternVariables(patterns: seq<Concept>): seq<Concept>
  {
    Variables(ConceptsDeep(patterns))
  }

  lemma {:induction false} VariablesDistinct(s: seq<Concept>)
    requires DistinctKeys(s)
    ensures DistinctKeys(Variables(s))
  {
    if |s| > 0 {
      assert DistinctKeys(s[1..]) by {
        forall i, j | 0 <= i < j < |s[1..]|
          ensures Key(s[1..][i]) != Key(s[1..][j])
        {
          assert s[1..][i] == s[i + 1] && s[1..][j] == s[j + 1];
        }
      }
      VariablesDistinct(s[1..]);
      if IsVariable(s[0]) {
        var r := Variables(s);
        forall j | 0 < j < |r|
          ensures Key(r[0]) != Key(r[j])
        {
          assert r[j] in s[1..];
          var k :| 0 <= k < |s[1..]| && s[1..][k] == r[j];
          assert s[k + 1] == r[j];
        }
      }
    }
  }

  /** A sub-concept of a well-formed concept is well-formed. */
  lemma {:induction false} SubConceptWellFormed(x: Concept, c: Concept)
    requires WellFormed(c) && SubConcept(x, c)
    ensures WellFormed(x)
    decreases c
  {
    if x != c {
      var i :| 0 <= i < |Parts(c)| && SubConcept(x, Parts(c)[i]);
      SubConceptWellFormed(x, Parts(c)[i]);
    }
  }

  /** A well-formed compound's key holds a space, so it is never a variable's key. */
  lemma CompoundKeySpace(c: Concept)
    requires WellFormed(c) && IsCompound(c)
    ensures ' ' in Key(c)
  {
    var ks := PartKeys(c.parts);
    assert Key(c) == ks[0] + " " + Join(ks[1..], " ");
    assert Key(c)[|ks[0]|] == ' ';
  }

  lemma VariableKeyNoSpace(v: Concept)
    requires WellFormed(v) && IsVariable(v)
    ensures ' ' !in Key(v)
  {
    assert !IsStringLiteral(Key(v)) by {
      assert Key(v)[0] == '$';
    }
  }

  /**
   * `getPatternVariables` returns variables occurring in the patterns, with
   * distinct keys; for well-formed patterns it returns a variable for every
   * key of a variable occurring in them.
   */
  lemma PatternVariablesFacts(patterns: seq<Concept>)
    ensures DistinctKeys(PatternVariables(patterns))
    ensures forall x :: x in PatternVariables(patterns) ==>
      IsVariable(x) && exists i :: 0 <= i < |patterns| && SubConcept(x, patterns[i])
    ensures (forall i :: 0 <= i < |patterns| ==> WellFormed(patterns[i])) ==>
      forall i, v :: 0 <= i < |patterns| && SubConcept(v, patterns[i]) && IsVariable(v) ==>
        exists x :: x in PatternVariables(patterns) && Key(x) == Key(v)
  {
    var deep := ConceptsDeep(patterns);
    ConceptsDeepFacts(patterns);
    VariablesDistinct(deep);
    if forall i :: 0 <= i < |patterns| ==> WellFormed(patterns[i]) {
      forall i, v | 0 <= i < |patterns| && SubConcept(v, patterns[i]) && IsVariable(v)
        ensures exists x :: x in PatternVariables(patterns) && Key(x) == Key(v)
      {
        DeepKeysSubConcept(v, patterns[i]);
        DeepKeysAllMember(patterns, i);
        assert Key(v) in KeySet(deep);
        var j :| 0 <= j < |deep| && Key(deep[j]) == Key(v);
        var x := deep[j];
        assert x in deep;
        var i' :| 0 <= i' < |patterns| && SubConcept(x, patterns[i']);
        SubConceptWellFormed(x, patterns[i']);
        SubConceptWellFormed(v, patterns[i]);
        VariableKeyNoSpace(v);
        if IsCompound(x) {
          CompoundKeySpace(x);
        }
        assert IsVariable(x);
      }
    }
  }
}
