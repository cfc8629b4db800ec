/**
 * Post-processing of each expanded permutation. The one plugin, `&`,
 * substitutes the head part for every `&` in the remaining parts, at any
 * depth, and drops the head.
 */
module Plugins {
  import opened Strings
  import opened Concepts

  datatype Plugin = Ampersand

  /** `allPlugins`. */
  const AllPlugins: seq<Plugin> := [Ampersand]

  /** Some part at any depth, tried in the order of `recurse`, has the key `&`. */
  predicate HasAmpersand(c: Concept)
    decreases c, 0
  {
    Key(c) == "&" || (c.Compound? && IsCompound(c) && AnyAmpersand(c.parts))
  }

  predicate AnyAmpersand(ps: seq<Concept>)
    decreases ps, 1
  {
    |ps| > 0 && (HasAmpersand(ps[0]) || AnyAmpersand(ps[1..]))
  }

  /**
   * `recurse` of `applyAmpersand` on one part, with the value of the
   * `hasAmpersand` flag it sets: an `&` becomes `head`, a compound is rebuilt
   * through the constructor from its replaced parts.
   */
  function ReplaceOne(head: Concept, part: Concept): (r: (Concept, bool))
    ensures r.1 <==> HasAmpersand(part)
    ensures !r.1 && !part.Compound? ==> r.0 == part
    decreases part, 0
  {
    if Key(part) == "&" then (head, true)
    else if part.Compound? && IsCompound(part) then
      var sub := ReplaceAll(head, part.parts);
      (Build(sub.0), sub.1)
    else (part, false)
  }

  /** `recurse` on a list of parts: the replaced parts, and whether any `&` was met. */
  function ReplaceAll(head: Concept, ps: seq<Concept>): (r: (seq<Concept>, bool))
    ensures |r.0| == |ps|
    ensures r.1 <==> AnyAmpersand(ps)
    decreases ps, 1
  {
    if |ps| == 0 then ([], false)
    else
      var first := ReplaceOne(head, ps[0]);
      var more := ReplaceAll(head, ps[1..]);
      ([first.0] + more.0, first.1 || more.1)
  }

  /** `applyAmpersand`. */
  function ApplyAmpersand(parts: seq<Concept>): seq<Concept>
  {
    if |parts| == 0 then parts
    else
      var applied := ReplaceAll(parts[0], parts[1..]);
      if applied.1 then applied.0 else parts
  }

  function ApplyPlugin(p: Plugin, parts: seq<Concept>): seq<Concept>
  {
    match p
    case Ampersand => ApplyAmpersand(parts)
  }

  /** `applyPlugins`: a left-to-right reduce over the plugin list. */
  function ApplyPlugins(parts: seq<Concept>, plugins: seq<Plugin>): seq<Concept>
    decreases |plugins|
  {
    if |plugins| == 0 then parts else ApplyPlugins(ApplyPlugin(plugins[0], parts), plugins[1..])
  }

  // Properties.

  /**
   * Without an `&` after the head the parts come back unchanged; otherwise
   * the head is dropped. A non-empty input gives a non-empty output.
   */
  lemma AmpersandShape(parts: seq<Concept>)
    ensures var r := ApplyAmpersand(parts);
      (|parts| == 0 || !AnyAmpersand(parts[1..]) ==> r == parts)
      && (|parts| > 0 && AnyAmpersand(parts[1..]) ==> r == ReplaceAll(parts[0], parts[1..]).0 && |r| == |parts| - 1)
      && (|parts| > 0 ==> |r| > 0)
      && (|r| == |parts| || |r| == |parts| - 1)
  {
    if |parts| > 0 && AnyAmpersand(parts[1..]) {
      AnyAmpersandNonEmpty(parts[1..]);
    }
  }

  lemma AnyAmpersandNonEmpty(ps: seq<Concept>)
    requires AnyAmpersand(ps)
    ensures |ps| > 0
  {
  }

  /** An `&` in head position is never replaced: the head alone is kept as it is. */
  lemma AmpersandHeadKept(head: Concept, rest: seq<Concept>)
    requires !AnyAmpersand(rest)
    ensures ApplyAmpersand([head] + rest) == [head] + rest
  {
    assert ([head] + rest)[1..] == rest;
  }

  /** When the head has no `&`, none is left after replacement, at any depth. */
  lemma {:induction false} ReplaceOneClears(head: Concept, part: Concept)
    requires !HasAmpersand(head)
    ensures !HasAmpersand(ReplaceOne(head, part).0)
    decreases part, 0
  {
    if Key(part) != "&" && part.Compound? && IsCompound(part) {
      ReplaceAllClears(head, part.parts);
      var sub := ReplaceAll(head, part.parts);
      BuildNoAmpersand(sub.0);
    }
  }

  lemma {:induction false} ReplaceAllClears(head: Concept, ps: seq<Concept>)
    requires !HasAmpersand(head)
    ensures !AnyAmpersand(ReplaceAll(head, ps).0)
    decreases ps, 1
  {
    if |ps| > 0 {
      ReplaceOneClears(head, ps[0]);
      ReplaceAllClears(head, ps[1..]);
      var r := ReplaceAll(head, ps).0;
      assert r[1..] == ReplaceAll(head, ps[1..]).0;
    }
  }

  lemma {:induction false} AnyAmpersandMember(ps: seq<Concept>)
    ensures AnyAmpersand(ps) <==> exists i :: 0 <= i < |ps| && HasAmpersand(ps[i])
  {
    if |ps| > 0 {
      AnyAmpersandMember(ps[1..]);
      if exists i :: 0 <= i < |ps| && HasAmpersand(ps[i]) {
        var i :| 0 <= i < |ps| && HasAmpersand(ps[i]);
        if i > 0 {
          assert HasAmpersand(ps[1..][i - 1]);
        }
      }
    }
  }

  /** Rebuilding parts without `&` through the constructor keeps them without `&`. */
  lemma BuildNoAmpersand(ps: seq<Concept>)
    requires |ps| > 0
    requires !AnyAmpersand(ps)
    ensures !HasAmpersand(Build(ps))
  {
    AnyAmpersandMember(ps);
    var c := Build(ps);
    if |ps| > 1 {
      AnyAmpersandMember(c.parts);
      forall i | 0 <= i < |c.parts|
        ensures !HasAmpersand(c.parts[i])
      {
        assert c.parts[i] in multiset(ps);
      }
      NoAmpersandKey(c);
    }
  }

  /** A compound built from at least two parts never has the key `&`. */
  lemma NoAmpersandKey(c: Concept)
    requires c.Compound? && |c.parts| > 1
    ensures Key(c) != "&"
  {
    var ks := PartKeys(c.parts);
    assert Key(c) == ks[0] + " " + Join(ks[1..], " ");
    assert Key(c)[|ks[0]|] == ' ';
  }

  /** `applyPlugins` with no plugins is the identity, and plugins apply left to right. */
  lemma {:induction false} ApplyPluginsConcat(parts: seq<Concept>, ps: seq<Plugin>, qs: seq<Plugin>)
    ensures ApplyPlugins(parts, []) == parts
    ensures ApplyPlugins(parts, ps + qs) == ApplyPlugins(ApplyPlugins(parts, ps), qs)
    decreases |ps|
  {
    if |ps| > 0 {
      assert (ps + qs)[1..] == ps[1..] + qs;
      ApplyPluginsConcat(ApplyPlugin(ps[0], parts), ps[1..], qs);
    } else {
      assert ps + qs == qs;
    }
  }

  /** Every plugin, and so every plugin list, keeps a non-empty permutation non-empty. */
  lemma {:induction false} ApplyPluginsNonEmpty(parts: seq<Concept>, plugins: seq<Plugin>)
    requires |parts| > 0
    ensures |ApplyPlugins(parts, plugins)| > 0
    decreases |plugins|
  {
    if |plugins| > 0 {
      AmpersandShape(parts);
      ApplyPluginsNonEmpty(ApplyPlugin(plugins[0], parts), plugins[1..]);
    }
  }
}
