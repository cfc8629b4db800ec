/**
 * The two concept-level operators of the parser library: `&` substitutes
 * the head for every `&` atom in the remaining parts and drops the head;
 * `:` sorts the remaining parts of a set compound by key, after applying
 * itself to every part.
 */
module Operators {
  import opened Strings
  import opened Concepts
  import opened Plugins

  /** Some atom with the key `&` at any depth; compounds are looked into, not compared. */
  predicate OpHas(part: Concept)
    decreases part, 0
  {
    if IsCompound(part) then OpAny(part.parts) else Key(part) == "&"
  }

  predicate OpAny(ps: seq<Concept>)
    decreases ps, 1
  {
    |ps| > 0 && (OpHas(ps[0]) || OpAny(ps[1..]))
  }

  /**
   * `recurse` of `applyAmpersandOperator`, with the `didApplyAmpersand` flag
   * it sets: a compound is rebuilt from its replaced parts, an `&` atom
   * becomes `head`, any other atom is kept.
   */
  function OpReplace(head: Concept, part: Concept): (r: (Concept, bool))
    ensures r.1 <==> OpHas(part)
    ensures !IsCompound(part) && !r.1 ==> r.0 == part
    decreases part, 0
  {
    if IsCompound(part) then
      var sub := OpReplaceAll(head, part.parts);
      (Build(sub.0), sub.1)
    else if Key(part) == "&" then (head, true)
    else (part, false)
  }

  /** `parts.map(recurse)`, and whether any `&` was met. */
  function OpReplaceAll(head: Concept, ps: seq<Concept>): (r: (seq<Concept>, bool))
    ensures |r.0| == |ps|
    ensures r.1 <==> OpAny(ps)
    decreases ps, 1
  {
    if |ps| == 0 then ([], false)
    else
      var first := OpReplace(head, ps[0]);
      var more := OpReplaceAll(head, ps[1..]);
      ([first.0] + more.0, first.1 || more.1)
  }

  /** `applyAmpersandOperator`. */
  function ApplyAmpersandOperator(c: Concept): (r: Concept)
    ensures IsAtom(c) ==> r == c
    ensures IsCompound(c) && !OpAny(c.parts[1..]) ==> r == c
    ensures IsCompound(c) && OpAny(c.parts[1..]) ==> r == Build(OpReplaceAll(c.parts[0], c.parts[1..]).0)
  {
    if IsAtom(c) then c
    else
      var replaced := OpReplaceAll(c.parts[0], c.parts[1..]);
      if replaced.1 then Build(replaced.0) else c
  }

  /** When the head holds no `&`, no `&` is left after replacement, at any depth. */
  lemma {:induction false} OpReplaceClears(head: Concept, part: Concept)
    requires !OpHas(head)
    ensures !OpHas(OpReplace(head, part).0)
    decreases part, 0
  {
    if IsCompound(part) {
      OpReplaceAllClears(head, part.parts);
      OpBuildClear(OpReplaceAll(head, part.parts).0);
    }
  }

  lemma {:induction false} OpReplaceAllClears(head: Concept, ps: seq<Concept>)
    requires !OpHas(head)
    ensures !OpAny(OpReplaceAll(head, ps).0)
    decreases ps, 1
  {
    if |ps| > 0 {
      OpReplaceClears(head, ps[0]);
      OpReplaceAllClears(head, ps[1..]);
      assert OpReplaceAll(head, ps).0[1..] == OpReplaceAll(head, ps[1..]).0;
    }
  }

  lemma {:induction false} OpAnyMember(ps: seq<Concept>)
    ensures OpAny(ps) <==> exists i :: 0 <= i < |ps| && OpHas(ps[i])
  {
    if |ps| > 0 {
      OpAnyMember(ps[1..]);
      if exists i :: 0 <= i < |ps| && OpHas(ps[i]) {
        var i :| 0 <= i < |ps| && OpHas(ps[i]);
        if i > 0 {
          assert OpHas(ps[1..][i - 1]);
        }
      }
    }
  }

  /** The constructor keeps a list of parts free of `&`. */
  lemma OpBuildClear(ps: seq<Concept>)
    requires |ps| > 0 && !OpAny(ps)
    ensures !OpHas(Build(ps))
  {
    OpAnyMember(ps);
    var c := Build(ps);
    if |ps| > 1 {
      OpAnyMember(c.parts);
      forall i | 0 <= i < |c.parts|
        ensures !OpHas(c.parts[i])
      {
        assert c.parts[i] in multiset(ps);
      }
    }
  }

  /**
   * With an `&` after the head, the result is the tail with every `&`
   * replaced by the head: when the head holds no `&` itself, none is left.
   */
  lemma AmpersandOperatorClears(c: Concept)
    requires IsCompound(c) && OpAny(c.parts[1..]) && !OpHas(c.parts[0])
    ensures !OpHas(ApplyAmpersandOperator(c))
  {
    OpReplaceAllClears(c.parts[0], c.parts[1..]);
    OpBuildClear(OpReplaceAll(c.parts[0], c.parts[1..]).0);
  }

  /**
   * On well-formed concepts the operator and the `&` plugin agree: the
   * operator is the constructor applied to what the plugin makes of the
   * parts.
   */
  lemma OperatorAgreesWithPlugin(c: Concept)
    requires WellFormed(c) && IsCompound(c)
    ensures OpAny(c.parts[1..]) <==> AnyAmpersand(c.parts[1..])
    ensures ApplyAmpersandOperator(c) == if OpAny(c.parts[1..]) then Build(ApplyAmpersand(c.parts)) else c
  {
    var ps := c.parts;
    assert forall i :: 0 <= i < |ps[1..]| ==> WellFormed(ps[1..][i]) by {
      forall i | 0 <= i < |ps[1..]|
        ensures WellFormed(ps[1..][i])
      {
        assert ps[1..][i] == ps[i + 1];
      }
    }
    ReplaceAllAgrees(ps[0], ps[1..]);
  }

  lemma {:induction false} ReplaceOneAgrees(head: Concept, part: Concept)
    requires WellFormed(part)
    ensures OpHas(part) <==> HasAmpersand(part)
    ensures OpReplace(head, part) == ReplaceOne(head, part)
    decreases part, 0
  {
    if IsCompound(part) {
      NoAmpersandKey(part);
      ReplaceAllAgrees(head, part.parts);
    }
  }

  lemma {:induction false} ReplaceAllAgrees(head: Concept, ps: seq<Concept>)
    requires forall i :: 0 <= i < |ps| ==> WellFormed(ps[i])
    ensures OpAny(ps) <==> AnyAmpersand(ps)
    ensures OpReplaceAll(head, ps) == ReplaceAll(head, ps)
    decreases ps, 1
  {
    if |ps| > 0 {
      ReplaceOneAgrees(head, ps[0]);
      ReplaceAllAgrees(head, ps[1..]);
    }
  }

  // The `:` operator.

  /** `applyColonOperator`. */
  function ApplyColon(c: Concept): (r: Concept)
    decreases c, 0
  {
    if IsAtom(c) then c
    else
      var ps := ColonAll(c.parts);
      if Key(ps[0]) != ":" then c else Build([ps[0]] + SortByKey(ps[1..]))
  }

  /** `concept.parts.map(applyColonOperator)`. */
  function ColonAll(ps: seq<Concept>): (r: seq<Concept>)
    ensures |r| == |ps|
    ensures forall i :: 0 <= i < |ps| ==> r[i] == ApplyColon(ps[i])
    decreases ps, 1
  {
    if |ps| == 0 then [] else [ApplyColon(ps[0])] + ColonAll(ps[1..])
  }

  /**
   * Atoms come back unchanged, and so does a compound whose processed first
   * part is not `:` (the original, not the processed parts). Otherwise the
   * processed parts come back with the tail sorted by key.
   */
  lemma ColonShape(c: Concept)
    ensures IsAtom(c) ==> ApplyColon(c) == c
    ensures IsCompound(c) && Key(ApplyColon(c.parts[0])) != ":" ==> ApplyColon(c) == c
    ensures IsCompound(c) && |c.parts| > 1 && Key(ApplyColon(c.parts[0])) == ":" ==>
      var r := ApplyColon(c);
      r.Compound? && |r.parts| == |c.parts| && r.parts[0] == ApplyColon(c.parts[0])
      && SortedByKey(r.parts[1..]) && multiset(r.parts[1..]) == multiset(ColonAll(c.parts[1..]))
  {
    if IsCompound(c) && |c.parts| > 1 && Key(ApplyColon(c.parts[0])) == ":" {
      var ps := ColonAll(c.parts);
      assert ps[1..] == ColonAll(c.parts[1..]);
      var built := [ps[0]] + SortByKey(ps[1..]);
      SortByKeySorted(ps[1..]);
      assert built[1..] == SortByKey(ps[1..]);
      var r := Build(built);
      assert multiset(r.parts) == multiset{ps[0]} + multiset(ps[1..]) by {
        assert built == [ps[0]] + SortByKey(ps[1..]);
      }
      assert r.parts == [r.parts[0]] + r.parts[1..];
      assert multiset(r.parts) == multiset{r.parts[0]} + multiset(r.parts[1..]);
      MultisetCancel(multiset(r.parts[1..]), multiset(ps[1..]), ps[0]);
    }
  }

  lemma FixedPermuted(s: seq<Concept>, t: seq<Concept>)
    requires multiset(t) == multiset(s)
    requires forall j :: 0 <= j < |s| ==> ApplyColon(s[j]) == s[j]
    ensures forall i :: 0 <= i < |t| ==> ApplyColon(t[i]) == t[i]
  {
    forall i | 0 <= i < |t|
      ensures ApplyColon(t[i]) == t[i]
    {
      assert t[i] in multiset(s);
    }
  }

  lemma ColonAllFixed(f: Concept, t: seq<Concept>)
    requires ApplyColon(f) == f
    requires forall i :: 0 <= i < |t| ==> ApplyColon(t[i]) == t[i]
    ensures ColonAll([f] + t) == [f] + t
  {
  }

  /** Applying `:` twice changes nothing more than applying it once. */
  lemma {:induction false} ColonIdempotent(c: Concept)
    ensures ApplyColon(ApplyColon(c)) == ApplyColon(c)
    decreases c
  {
    if IsCompound(c) {
      var ps := ColonAll(c.parts);
      if Key(ps[0]) == ":" {
        ColonIdempotent(c.parts[0]);
        var f := ps[0];
        var s := ps[1..];
        var t := SortByKey(s);
        SortByKeySorted(s);
        var built := [f] + t;
        assert built[1..] == t;
        if |c.parts| == 1 {
          assert t == [];
          assert Build(built) == f;
        } else {
          var r := Build(built);
          assert Arrange(built) == [f] + SortByKey(t);
          SortByKeyOfSorted(t);
          assert r == Compound(built);
          forall j | 0 <= j < |s|
            ensures ApplyColon(s[j]) == s[j]
          {
            ColonIdempotent(c.parts[j + 1]);
          }
          FixedPermuted(s, t);
          ColonAllFixed(f, t);
          assert ApplyColon(r) == Build([f] + SortByKey(t));
        }
      }
    }
  }
}
