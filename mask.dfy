/**
 * The masks of the API (apps/api/src/lib/mask.ts). A mask is a pattern
 * whose variables are renamed `$0`, `$1`, … in order of first appearance,
 * so that patterns which differ only in their variables' names share one
 * mask; the masks of a concept are the normalized patterns made by
 * replacing some of its parts, at any depth, by variables.
 */
module ConceptMasks {
  import opened Wrappers
  import opened Strings
  import opened Concepts
  import opened Matching
  import opened Expansion
  import Keys

  // The renaming table. The source keeps a `Map` from a variable's key to
  // its normalized atom, and the atom it creates for the key is
  // `'$' + map.size`; the table here is the sequence of keys in insertion
  // order, so a key's position is the number that names it.

  /** The position of `k` in `names`, or `|names|` when it is absent. */
  function Position(names: seq<string>, k: string): (i: nat)
    ensures i <= |names|
    ensures i < |names| ==> names[i] == k
    ensures i == |names| <==> k !in names
    ensures forall j :: 0 <= j < i ==> names[j] != k
  {
    if |names| == 0 then 0
    else if names[0] == k then 0
    else 1 + Position(names[1..], k)
  }

  /** The renaming a finished table stands for: a key goes to `$` and its position. */
  function Namer(names: seq<string>): string -> string
  {
    k => Keys.Var(Position(names, k))
  }

  predicate Distinct(s: seq<string>)
  {
    forall i, j :: 0 <= i < j < |s| ==> s[i] != s[j]
  }

  /** `s` with `f` applied to every element. */
  function Mapped(f: string -> string, s: seq<string>): (r: seq<string>)
    ensures |r| == |s|
    ensures forall i :: 0 <= i < |s| ==> r[i] == f(s[i])
  {
    seq(|s|, i requires 0 <= i < |s| => f(s[i]))
  }

  /** A renaming that sends every key to a variable's key. */
  ghost predicate NamesVariables(f: string -> string)
  {
    forall k :: |f(k)| > 0 && f(k)[0] == '$'
  }

  ghost predicate Injective(f: string -> string)
  {
    forall a, b :: f(a) == f(b) ==> a == b
  }

  // `createMask`.

  /**
   * The recursion of `createMask` from a table `seen`: a variable is looked
   * up, and added under the next number when it is new; a pattern is
   * rebuilt from its normalized parts, left to right; any other concept is
   * returned as it is. The result pairs the concept with the new table.
   */
  function Walk(c: Concept, seen: seq<string>): (r: (Concept, seq<string>))
    decreases c, 0
  {
    if IsVariable(c) then
      var i := Position(seen, Key(c));
      (Atom(Keys.Var(i)), if i < |seen| then seen else seen + [Key(c)])
    else if IsPattern(c) then
      var (qs, after) := WalkParts(c.parts, seen);
      (Build(qs), after)
    else
      (c, seen)
  }

  /** `pattern.parts.map(recurse)`. */
  function WalkParts(ps: seq<Concept>, seen: seq<string>): (r: (seq<Concept>, seq<string>))
    ensures |r.0| == |ps|
    decreases ps, 1
  {
    if |ps| == 0 then ([], seen)
    else
      var (q, mid) := Walk(ps[0], seen);
      var (qs, after) := WalkParts(ps[1..], mid);
      ([q] + qs, after)
  }

  /** `createMask(pattern)`: the recursion from an empty table. */
  function Mask(pattern: Concept): Concept
  {
    Walk(pattern, []).0
  }

  /** The `Map` of `createMask`, shared by all levels of the recursion. */
  class Renamer {
    /** The keys seen so far, in insertion order. */
    var seen: seq<string>

    constructor()
      ensures seen == []
    {
      seen := [];
    }

    /** `recurse`: normalizes `c`, extending the table. */
    method Normalize(c: Concept) returns (r: Concept)
      modifies this
      ensures (r, seen) == Walk(c, old(seen))
      decreases c
    {
      if IsVariable(c) {
        var i := Position(seen, Key(c));
        if i == |seen| {
          seen := seen + [Key(c)];
        }
        r := Atom(Keys.Var(i));
      } else if IsPattern(c) {
        ghost var start := seen;
        var ps := c.parts;
        var qs: seq<Concept> := [];
        var k := 0;
        assert ps[0..] == ps;
        while k < |ps|
          invariant 0 <= k <= |ps|
          invariant WalkParts(ps, start).0 == qs + WalkParts(ps[k..], seen).0
          invariant WalkParts(ps, start).1 == WalkParts(ps[k..], seen).1
          decreases |ps| - k
        {
          ghost var before := seen;
          var q := Normalize(ps[k]);
          WalkPartsStep(ps, k, before);
          qs := qs + [q];
          k := k + 1;
        }
        assert ps[|ps|..] == [];
        assert qs == WalkParts(ps, start).0;
        r := Build(qs);
        assert (r, seen) == Walk(c, start);
      } else {
        r := c;
      }
    }
  }

  lemma WalkPartsStep(ps: seq<Concept>, k: nat, seen: seq<string>)
    requires k < |ps|
    ensures WalkParts(ps[k..], seen).0 == [Walk(ps[k], seen).0] + WalkParts(ps[k + 1..], Walk(ps[k], seen).1).0
    ensures WalkParts(ps[k..], seen).1 == WalkParts(ps[k + 1..], Walk(ps[k], seen).1).1
  {
    assert ps[k..][0] == ps[k] && ps[k..][1..] == ps[k + 1..];
  }

  /** `createMask`. */
  method CreateMask(pattern: Concept) returns (mask: Concept)
    ensures mask == Mask(pattern)
  {
    var renamer := new Renamer();
    mask := renamer.Normalize(pattern);
  }

  // Where a variable occurs, and the table the recursion builds.

  /** The keys of the variables of `c`, left to right, repeats included. */
  function Occurrences(c: Concept): seq<string>
    decreases c, 0
  {
    if IsVariable(c) then [Key(c)]
    else if IsPattern(c) then OccurrencesOf(c.parts)
    else []
  }

  function OccurrencesOf(ps: seq<Concept>): seq<string>
    decreases ps, 1
  {
    if |ps| == 0 then [] else Occurrences(ps[0]) + OccurrencesOf(ps[1..])
  }

  /** `seen` followed by the keys of `ks` it lacks, each once, in order of first appearance. */
  function AddNew(seen: seq<string>, ks: seq<string>): seq<string>
    decreases |ks|
  {
    if |ks| == 0 then seen
    else AddNew(if ks[0] in seen then seen else seen + [ks[0]], ks[1..])
  }

  /** The variables of `pattern` in order of first appearance. */
  function FirstAppearance(pattern: Concept): seq<string>
  {
    AddNew([], Occurrences(pattern))
  }

  /** `AddNew` extends its table with exactly the new keys, keeping it free of repeats. */
  lemma {:induction false} AddNewFacts(seen: seq<string>, ks: seq<string>)
    ensures |AddNew(seen, ks)| >= |seen| && AddNew(seen, ks)[..|seen|] == seen
    ensures forall k :: k in AddNew(seen, ks) <==> k in seen || k in ks
    ensures Distinct(seen) ==> Distinct(AddNew(seen, ks))
    decreases |ks|
  {
    if |ks| > 0 {
      var next := if ks[0] in seen then seen else seen + [ks[0]];
      AddNewFacts(next, ks[1..]);
      assert next[..|seen|] == seen;
      assert AddNew(seen, ks)[..|seen|] == AddNew(seen, ks)[..|next|][..|seen|];
      assert forall k :: k in ks <==> k == ks[0] || k in ks[1..] by {
        assert ks == [ks[0]] + ks[1..];
      }
    }
  }

  lemma {:induction false} AddNewAppend(seen: seq<string>, a: seq<string>, b: seq<string>)
    ensures AddNew(seen, a + b) == AddNew(AddNew(seen, a), b)
    decreases |a|
  {
    if |a| > 0 {
      assert (a + b)[0] == a[0] && (a + b)[1..] == a[1..] + b;
      AddNewAppend(if a[0] in seen then seen else seen + [a[0]], a[1..], b);
    } else {
      assert a + b == b;
    }
  }

  lemma {:induction false} OccurrencesOfAt(ps: seq<Concept>, i: nat)
    requires i < |ps|
    ensures forall k :: k in Occurrences(ps[i]) ==> k in OccurrencesOf(ps)
  {
    if i > 0 {
      OccurrencesOfAt(ps[1..], i - 1);
    }
  }

  /** The table the recursion leaves is the old table extended by the new variables in order. */
  lemma {:induction false} WalkTable(c: Concept, seen: seq<string>)
    ensures Walk(c, seen).1 == AddNew(seen, Occurrences(c))
    decreases c, 0
  {
    if !IsVariable(c) && IsPattern(c) {
      WalkPartsTable(c.parts, seen);
    }
  }

  lemma {:induction false} WalkPartsTable(ps: seq<Concept>, seen: seq<string>)
    ensures WalkParts(ps, seen).1 == AddNew(seen, OccurrencesOf(ps))
    decreases ps, 1
  {
    if |ps| > 0 {
      var mid := Walk(ps[0], seen).1;
      WalkTable(ps[0], seen);
      WalkPartsTable(ps[1..], mid);
      AddNewAppend(seen, Occurrences(ps[0]), OccurrencesOf(ps[1..]));
    }
  }

  // Renaming the variables of a pattern.

  /** `c` with every variable `v` replaced by the atom `f(v.key)`, the structure kept. */
  function Rename(c: Concept, f: string -> string): Concept
    decreases c
  {
    if IsVariable(c) then Atom(f(Key(c)))
    else if IsPattern(c) then Compound(seq(|c.parts|, i requires 0 <= i < |c.parts| => Rename(c.parts[i], f)))
    else c
  }

  /** An empty compound has the empty key, so every variable is an atom. */
  lemma EmptyCompoundKey()
    ensures Key(Compound([])) == ""
  {
    assert PartKeys([]) == [];
  }

  /** Renaming into variables keeps variables variables and patterns patterns. */
  lemma {:induction false} RenameKind(c: Concept, f: string -> string)
    requires NamesVariables(f)
    ensures IsVariable(Rename(c, f)) <==> IsVariable(c)
    ensures IsPattern(Rename(c, f)) <==> IsPattern(c)
    ensures |Parts(Rename(c, f))| == |Parts(c)|
    decreases c
  {
    if !IsVariable(c) && IsPattern(c) {
      var i :| 0 <= i < |Parts(c)| && (IsVariable(Parts(c)[i]) || IsPattern(Parts(c)[i]));
      RenameKind(c.parts[i], f);
      assert Parts(Rename(c, f))[i] == Rename(c.parts[i], f);
    }
  }

  /** The renaming only consults `f` at the keys of the variables that occur. */
  lemma {:induction false} RenameAgree(c: Concept, f: string -> string, g: string -> string)
    requires forall k :: k in Occurrences(c) ==> f(k) == g(k)
    ensures Rename(c, f) == Rename(c, g)
    decreases c
  {
    if !IsVariable(c) && IsPattern(c) {
      forall i | 0 <= i < |c.parts|
        ensures Rename(c.parts[i], f) == Rename(c.parts[i], g)
      {
        OccurrencesOfAt(c.parts, i);
        RenameAgree(c.parts[i], f, g);
      }
    }
  }

  /** A renaming that fixes every occurring variable changes nothing. */
  lemma {:induction false} RenameFixed(c: Concept, f: string -> string)
    requires forall k :: k in Occurrences(c) ==> f(k) == k
    ensures Rename(c, f) == c
    decreases c
  {
    EmptyCompoundKey();
    if !IsVariable(c) && IsPattern(c) {
      forall i | 0 <= i < |c.parts|
        ensures Rename(c.parts[i], f) == c.parts[i]
      {
        OccurrencesOfAt(c.parts, i);
        RenameFixed(c.parts[i], f);
      }
      assert Rename(c, f).parts == c.parts;
    }
  }

  /** Renaming after renaming is renaming by the composition. */
  lemma {:induction false} RenameCompose(c: Concept, f: string -> string, g: string -> string)
    requires NamesVariables(f)
    ensures Rename(Rename(c, f), g) == Rename(c, k => g(f(k)))
    decreases c
  {
    RenameKind(c, f);
    if !IsVariable(c) && IsPattern(c) {
      forall i | 0 <= i < |c.parts|
        ensures Rename(Rename(c, f).parts[i], g) == Rename(c.parts[i], k => g(f(k)))
      {
        RenameCompose(c.parts[i], f, g);
      }
    }
  }

  lemma {:induction false} MappedAppend(f: string -> string, a: seq<string>, b: seq<string>)
    ensures Mapped(f, a + b) == Mapped(f, a) + Mapped(f, b)
  {
  }

  /** The variables of a renamed pattern are the renamed variables, in the same order. */
  lemma {:induction false} OccurrencesRename(c: Concept, f: string -> string)
    requires NamesVariables(f)
    ensures Occurrences(Rename(c, f)) == Mapped(f, Occurrences(c))
    decreases c, 0
  {
    RenameKind(c, f);
    if !IsVariable(c) && IsPattern(c) {
      OccurrencesOfRename(c.parts, Rename(c, f).parts, f);
    }
  }

  lemma {:induction false} OccurrencesOfRename(ps: seq<Concept>, rs: seq<Concept>, f: string -> string)
    requires NamesVariables(f)
    requires |rs| == |ps| && forall i :: 0 <= i < |ps| ==> rs[i] == Rename(ps[i], f)
    ensures OccurrencesOf(rs) == Mapped(f, OccurrencesOf(ps))
    decreases ps, 1
  {
    if |ps| > 0 {
      OccurrencesRename(ps[0], f);
      OccurrencesOfRename(ps[1..], rs[1..], f);
      MappedAppend(f, Occurrences(ps[0]), OccurrencesOf(ps[1..]));
    }
  }

  // The patterns the renaming argument covers.

  /**
   * Every compound has at least two parts, as the constructor ensures, and
   * none is a set compound (first part `:`), whose parts the constructor
   * would re-sort after renaming.
   */
  predicate Shaped(c: Concept)
    decreases c
  {
    match c
    case Atom(_) => true
    case Compound(ps) =>
      |ps| >= 2 && Key(ps[0]) != ":" && forall i :: 0 <= i < |ps| ==> Shaped(ps[i])
  }

  lemma JoinTwoHasSeparator(ss: seq<string>)
    requires |ss| >= 2
    ensures ' ' in Join(ss, " ")
  {
    assert Join(ss, " ") == ss[0] + " " + Join(ss[1..], " ");
    assert Join(ss, " ")[|ss[0]|] == ' ';
  }

  /** Renaming into variables keeps a pattern shaped. */
  lemma {:induction false} RenameShaped(c: Concept, f: string -> string)
    requires Shaped(c) && NamesVariables(f)
    ensures Shaped(Rename(c, f))
    ensures Key(c) != ":" ==> Key(Rename(c, f)) != ":"
    decreases c
  {
    if !IsVariable(c) && IsPattern(c) {
      var r := Rename(c, f);
      forall i | 0 <= i < |c.parts|
        ensures Shaped(r.parts[i])
      {
        RenameShaped(c.parts[i], f);
      }
      RenameShaped(c.parts[0], f);
      JoinTwoHasSeparator(PartKeys(r.parts));
    } else if IsVariable(c) {
      assert Key(Rename(c, f))[0] == '$';
    }
  }

  lemma NamerNamesVariables(names: seq<string>)
    ensures NamesVariables(Namer(names))
  {
  }

  lemma {:induction false} PositionPrefix(s: seq<string>, t: seq<string>, k: string)
    requires k in s
    ensures Position(s + t, k) == Position(s, k)
  {
    var i := Position(s, k);
    var p := Position(s + t, k);
    assert (s + t)[i] == k;
    assert forall j :: 0 <= j < i ==> (s + t)[j] == s[j];
  }

  lemma RenamePatternParts(c: Concept, f: string -> string, qs: seq<Concept>)
    requires !IsVariable(c) && IsPattern(c)
    requires |qs| == |c.parts| && forall i :: 0 <= i < |qs| ==> qs[i] == Rename(c.parts[i], f)
    ensures Rename(c, f) == Compound(qs)
  {
  }

  /** The constructor keeps the parts of a shaped compound as they are. */
  lemma BuildKeeps(qs: seq<Concept>)
    requires |qs| >= 2 && Key(qs[0]) != ":"
    ensures Build(qs) == Compound(qs)
  {
  }

  /**
   * For a shaped pattern the recursion is a renaming: every variable is
   * renamed by the table the recursion ends with.
   */
  lemma {:induction false} WalkRenames(c: Concept, seen: seq<string>)
    requires Shaped(c)
    ensures Walk(c, seen).0 == Rename(c, Namer(Walk(c, seen).1))
    decreases c, 0
  {
    if !IsVariable(c) && IsPattern(c) {
      var r := WalkParts(c.parts, seen);
      var f := Namer(r.1);
      WalkPartsRename(c.parts, seen);
      NamerNamesVariables(r.1);
      RenameShaped(c.parts[0], f);
      BuildKeeps(r.0);
      RenamePatternParts(c, f, r.0);
    }
  }

  /** Names already seen keep their numbers when more names are appended. */
  lemma NamerExtends(mid: seq<string>, after: seq<string>, ks: seq<string>)
    requires |after| >= |mid| && after[..|mid|] == mid
    requires forall k :: k in ks ==> k in mid
    ensures forall k :: k in ks ==> Namer(mid)(k) == Namer(after)(k)
  {
    forall k | k in ks
      ensures Namer(mid)(k) == Namer(after)(k)
    {
      assert after == mid + after[|mid|..];
      PositionPrefix(mid, after[|mid|..], k);
    }
  }

  lemma {:induction false} WalkPartsRename(ps: seq<Concept>, seen: seq<string>)
    requires forall i :: 0 <= i < |ps| ==> Shaped(ps[i])
    ensures forall i :: 0 <= i < |ps| ==> WalkParts(ps, seen).0[i] == Rename(ps[i], Namer(WalkParts(ps, seen).1))
    decreases ps, 1
  {
    if |ps| > 0 {
      var q, mid := Walk(ps[0], seen).0, Walk(ps[0], seen).1;
      var qs, after := WalkParts(ps[1..], mid).0, WalkParts(ps[1..], mid).1;
      assert WalkParts(ps, seen) == ([q] + qs, after);
      WalkRenames(ps[0], seen);
      WalkPartsRename(ps[1..], mid);
      WalkTable(ps[0], seen);
      AddNewFacts(seen, Occurrences(ps[0]));
      WalkPartsTable(ps[1..], mid);
      AddNewFacts(mid, OccurrencesOf(ps[1..]));
      NamerExtends(mid, after, Occurrences(ps[0]));
      RenameAgree(ps[0], Namer(mid), Namer(after));
      RenameCons(ps, q, qs, Namer(after));
    }
  }

  lemma RenameCons(ps: seq<Concept>, q: Concept, qs: seq<Concept>, f: string -> string)
    requires |ps| > 0 && |qs| == |ps| - 1
    requires q == Rename(ps[0], f)
    requires forall i :: 0 <= i < |qs| ==> qs[i] == Rename(ps[1..][i], f)
    ensures forall i :: 0 <= i < |ps| ==> ([q] + qs)[i] == Rename(ps[i], f)
  {
    forall i | 1 <= i < |ps|
      ensures ([q] + qs)[i] == Rename(ps[i], f)
    {
      assert ps[1..][i - 1] == ps[i];
    }
  }

  /**
   * `createMask` renames a shaped pattern's variables: the variable with key
   * `k` becomes `$i`, where `i` is the position of `k` among the pattern's
   * variables in order of first appearance. Everything else is kept, and
   * two occurrences get the same name exactly when they had the same key.
   */
  lemma MaskRenames(pattern: Concept)
    requires Shaped(pattern)
    ensures Mask(pattern) == Rename(pattern, Namer(FirstAppearance(pattern)))
    ensures forall a, b :: a in Occurrences(pattern) && b in Occurrences(pattern) ==>
      (Namer(FirstAppearance(pattern))(a) == Namer(FirstAppearance(pattern))(b) <==> a == b)
  {
    WalkRenames(pattern, []);
    WalkTable(pattern, []);
    var fa := FirstAppearance(pattern);
    AddNewFacts([], Occurrences(pattern));
    forall a, b | a in Occurrences(pattern) && b in Occurrences(pattern) && Namer(fa)(a) == Namer(fa)(b)
      ensures a == b
    {
      Keys.VarInjective(Position(fa, a), Position(fa, b));
    }
  }

  lemma {:induction false} AddNewMapped(seen: seq<string>, ks: seq<string>, g: string -> string)
    requires forall a, b :: a in seen + ks && b in seen + ks && g(a) == g(b) ==> a == b
    ensures AddNew(Mapped(g, seen), Mapped(g, ks)) == Mapped(g, AddNew(seen, ks))
    decreases |ks|
  {
    if |ks| > 0 {
      var k := ks[0];
      assert k in seen + ks;
      assert Mapped(g, ks)[0] == g(k) && Mapped(g, ks)[1..] == Mapped(g, ks[1..]);
      assert (g(k) in Mapped(g, seen)) <==> k in seen by {
        if g(k) in Mapped(g, seen) {
          var j :| 0 <= j < |seen| && Mapped(g, seen)[j] == g(k);
          assert seen[j] in seen + ks;
        }
      }
      var next := if k in seen then seen else seen + [k];
      assert Mapped(g, seen + [k]) == Mapped(g, seen) + [g(k)];
      forall a | a in next + ks[1..]
        ensures a in seen + ks
      {
      }
      AddNewMapped(next, ks[1..], g);
    }
  }

  lemma {:induction false} PositionDistinct(s: seq<string>, i: nat)
    requires Distinct(s) && i < |s|
    ensures Position(s, s[i]) == i
  {
  }

  /** The mask's variables, in order of first appearance, are `$0`, `$1`, … */
  lemma MaskNames(pattern: Concept)
    requires Shaped(pattern)
    ensures FirstAppearance(Mask(pattern)) == Keys.PositionalNames(|FirstAppearance(pattern)|)
  {
    var fa := FirstAppearance(pattern);
    var g := Namer(fa);
    MaskRenames(pattern);
    NamerNamesVariables(fa);
    OccurrencesRename(pattern, g);
    AddNewFacts([], Occurrences(pattern));
    assert [] + Occurrences(pattern) == Occurrences(pattern);
    AddNewMapped([], Occurrences(pattern), g);
    assert Mapped(g, []) == [];
    forall i | 0 <= i < |fa|
      ensures Mapped(g, fa)[i] == Keys.Var(i)
    {
      PositionDistinct(fa, i);
    }
  }

  /** `createMask` is idempotent on shaped patterns: a mask is its own mask. */
  lemma MaskIdempotent(pattern: Concept)
    requires Shaped(pattern)
    ensures Mask(Mask(pattern)) == Mask(pattern)
  {
    var fa := FirstAppearance(pattern);
    var n := |fa|;
    var g := Namer(fa);
    var m := Mask(pattern);
    MaskRenames(pattern);
    NamerNamesVariables(fa);
    RenameShaped(pattern, g);
    MaskNames(pattern);
    MaskRenames(m);
    OccurrencesRename(pattern, g);
    AddNewFacts([], Occurrences(pattern));
    assert Distinct(Keys.PositionalNames(n)) by {
      forall i, j | 0 <= i < j < n
        ensures Keys.PositionalNames(n)[i] != Keys.PositionalNames(n)[j]
      {
        if Keys.Var(i) == Keys.Var(j) {
          Keys.VarInjective(i, j);
        }
      }
    }
    forall k | k in Occurrences(m)
      ensures Namer(Keys.PositionalNames(n))(k) == k
    {
      var j :| 0 <= j < |Occurrences(pattern)| && Mapped(g, Occurrences(pattern))[j] == k;
      var i := Position(fa, Occurrences(pattern)[j]);
      assert k == Keys.Var(i) && i < n;
      PositionDistinct(Keys.PositionalNames(n), i);
    }
    RenameFixed(m, Namer(Keys.PositionalNames(n)));
  }

  lemma {:induction false} PositionMapped(names: seq<string>, k: string, f: string -> string)
    requires Injective(f)
    ensures Position(Mapped(f, names), f(k)) == Position(names, k)
  {
    if |names| > 0 {
      assert Mapped(f, names)[1..] == Mapped(f, names[1..]);
      PositionMapped(names[1..], k, f);
    }
  }

  /**
   * The mask does not depend on the names of the variables: renaming a
   * shaped pattern's variables one-to-one leaves its mask unchanged.
   */
  lemma MaskRenameInvariant(pattern: Concept, f: string -> string)
    requires Shaped(pattern) && NamesVariables(f) && Injective(f)
    ensures Mask(Rename(pattern, f)) == Mask(pattern)
  {
    var q := Rename(pattern, f);
    var fa := FirstAppearance(pattern);
    RenameShaped(pattern, f);
    MaskRenames(pattern);
    MaskRenames(q);
    OccurrencesRename(pattern, f);
    assert [] + Occurrences(pattern) == Occurrences(pattern);
    AddNewMapped([], Occurrences(pattern), f);
    assert Mapped(f, []) == [];
    var h := Namer(FirstAppearance(q));
    assert FirstAppearance(q) == Mapped(f, fa);
    RenameCompose(pattern, f, h);
    forall k ensures h(f(k)) == Namer(fa)(k)
    {
      PositionMapped(fa, k, f);
    }
    RenameAgree(pattern, k => h(f(k)), Namer(fa));
  }

  // The mask is a well-formed concept of the same kind, whatever the pattern.

  /** The atom `$i` is a constructed variable. */
  lemma VarAtom(i: nat)
    ensures WellFormed(Atom(Keys.Var(i))) && IsVariable(Atom(Keys.Var(i)))
  {
    var k := Keys.Var(i);
    forall j | 0 <= j < |k|
      ensures !IsForbiddenAtomChar(k[j])
    {
      if j > 0 {
        assert k[j] == NatToString(i)[j - 1];
      }
    }
    assert PassesAtomCheck(k);
  }

  /** The constructor keeps a pattern part, so a compound built from one is a pattern. */
  lemma BuildPattern(qs: seq<Concept>, i: nat)
    requires |qs| >= 2 && i < |qs| && (IsVariable(qs[i]) || IsPattern(qs[i]))
    ensures IsPattern(Build(qs))
  {
    var b := Build(qs);
    assert qs[i] in multiset(b.parts);
    var j :| 0 <= j < |b.parts| && b.parts[j] == qs[i];
    assert Parts(b)[j] == qs[i];
  }

  lemma {:induction false} WalkWellFormed(c: Concept, seen: seq<string>)
    requires WellFormed(c)
    ensures WellFormed(Walk(c, seen).0)
    ensures IsVariable(Walk(c, seen).0) <==> IsVariable(c)
    ensures IsPattern(Walk(c, seen).0) <==> IsPattern(c)
    decreases c, 0
  {
    if IsVariable(c) {
      VarAtom(Position(seen, Key(c)));
    } else if IsPattern(c) {
      var r := WalkParts(c.parts, seen);
      WalkPartsWellFormed(c.parts, seen);
      BuildWellFormed(r.0);
      var i :| 0 <= i < |c.parts| && (IsVariable(c.parts[i]) || IsPattern(c.parts[i]));
      BuildPattern(r.0, i);
      assert Walk(c, seen).0 == Build(r.0);
    }
  }

  lemma {:induction false} WalkPartsWellFormed(ps: seq<Concept>, seen: seq<string>)
    requires forall i :: 0 <= i < |ps| ==> WellFormed(ps[i])
    ensures forall i :: 0 <= i < |ps| ==>
      var q := WalkParts(ps, seen).0[i];
      WellFormed(q) && (IsVariable(q) <==> IsVariable(ps[i])) && (IsPattern(q) <==> IsPattern(ps[i]))
    decreases ps, 1
  {
    if |ps| > 0 {
      var (q, mid) := Walk(ps[0], seen);
      WalkWellFormed(ps[0], seen);
      WalkPartsWellFormed(ps[1..], mid);
      forall i | 1 <= i < |ps|
        ensures WalkParts(ps, seen).0[i] == WalkParts(ps[1..], mid).0[i - 1] && ps[1..][i - 1] == ps[i]
      {
      }
    }
  }

  /** The mask of a constructed concept is a constructed concept, a pattern exactly when the input is. */
  lemma MaskWellFormed(pattern: Concept)
    requires WellFormed(pattern)
    ensures WellFormed(Mask(pattern))
    ensures IsPattern(Mask(pattern)) <==> IsPattern(pattern)
    ensures IsVariable(Mask(pattern)) <==> IsVariable(pattern)
  {
    WalkWellFormed(pattern, []);
  }

  // A mask matches what its pattern matches.

  lemma {:induction false} MatchRenamed(c: Concept, p: Concept, f: string -> string)
    requires NamesVariables(f)
    ensures Match(c, Rename(p, f)).Some? <==> Match(c, p).Some?
    decreases p, 0
  {
    RenameKind(p, f);
    if !IsVariable(p) && IsPattern(p) && |Parts(p)| == |Parts(c)| {
      MatchPartsRenamed(Parts(c), p.parts, Rename(p, f).parts, f);
    }
  }

  lemma {:induction false} MatchPartsRenamed(cs: seq<Concept>, ps: seq<Concept>, rs: seq<Concept>, f: string -> string)
    requires NamesVariables(f)
    requires |cs| == |ps| == |rs| && forall i :: 0 <= i < |ps| ==> rs[i] == Rename(ps[i], f)
    ensures MatchParts(cs, rs).Some? <==> MatchParts(cs, ps).Some?
    decreases ps, 1
  {
    if |ps| > 0 {
      var n := |ps| - 1;
      MatchPartsRenamed(cs[..n], ps[..n], rs[..n], f);
      MatchRenamed(cs[n], ps[n], f);
    }
  }

  /** A shaped pattern and its mask succeed in matching the same concepts. */
  lemma MaskMatches(c: Concept, pattern: Concept)
    requires Shaped(pattern)
    ensures Match(c, Mask(pattern)).Some? <==> Match(c, pattern).Some?
  {
    MaskRenames(pattern);
    NamerNamesVariables(FirstAppearance(pattern));
    MatchRenamed(c, pattern, Namer(FirstAppearance(pattern)));
  }

  // `hasAllVariables`.

  /** `hasAllVariables`: a variable, or a pattern all of whose parts have all variables. */
  predicate HasAllVariables(c: Concept)
    decreases c
  {
    if IsVariable(c) then true
    else if !IsPattern(c) then false
    else forall i :: 0 <= i < |c.parts| ==> HasAllVariables(c.parts[i])
  }

  /** Every leaf is a variable; an empty compound has no leaves and is not counted. */
  predicate LeavesAreVariables(c: Concept)
    decreases c
  {
    match c
    case Atom(_) => IsVariable(c)
    case Compound(ps) => |ps| > 0 && forall i :: 0 <= i < |ps| ==> LeavesAreVariables(ps[i])
  }

  /** `hasAllVariables` holds exactly when every atom of the concept is a variable. */
  lemma {:induction false} HasAllVariablesLeaves(c: Concept)
    ensures HasAllVariables(c) <==> LeavesAreVariables(c)
    decreases c
  {
    EmptyCompoundKey();
    if c.Compound? {
      forall i | 0 <= i < |c.parts|
        ensures HasAllVariables(c.parts[i]) <==> LeavesAreVariables(c.parts[i])
      {
        HasAllVariablesLeaves(c.parts[i]);
      }
      if |c.parts| > 0 && LeavesAreVariables(c) {
        assert HasAllVariables(c.parts[0]);
        assert IsVariable(c.parts[0]) || IsPattern(c.parts[0]);
        assert Parts(c)[0] == c.parts[0];
        assert IsPattern(c) && !IsVariable(c);
      }
    }
  }

  // `getMaskPermutations` and `getConceptMasks`.

  /**
   * Stands in for the source's `md5` hex digest: an injective encoding of the
   * key into digits and `x`, not the MD5 algorithm. The model relies only on
   * its being injective and on its characters being word characters.
   */
  function Md5(key: string): (h: string)
    ensures forall i :: 0 <= i < |h| ==> IsDigit(h[i]) || h[i] == 'x'
  {
    DigestFieldsFacts(key);
    JoinFieldsChars(DigestFields(key));
    Join(DigestFields(key), "x")
  }

  /** The length of the key, then each character's code. */
  function DigestFields(key: string): (fs: seq<string>)
  {
    [NatToString(|key|)] + seq(|key|, i requires 0 <= i < |key| => NatToString(key[i] as int))
  }

  lemma DigestFieldsFacts(key: string)
    ensures |DigestFields(key)| == |key| + 1
    ensures forall k :: 0 <= k < |DigestFields(key)| ==> 'x' !in DigestFields(key)[k]
    ensures forall k, i :: 0 <= k < |DigestFields(key)| && 0 <= i < |DigestFields(key)[k]| ==> IsDigit(DigestFields(key)[k][i])
  {
    var fs := DigestFields(key);
    forall k | 0 <= k < |fs|
      ensures forall i :: 0 <= i < |fs[k]| ==> IsDigit(fs[k][i])
    {
      if k > 0 {
        assert fs[k] == NatToString(key[k - 1] as int);
      }
    }
  }

  lemma {:induction false} JoinFieldsChars(fs: seq<string>)
    requires forall k, i :: 0 <= k < |fs| && 0 <= i < |fs[k]| ==> IsDigit(fs[k][i])
    ensures forall i :: 0 <= i < |Join(fs, "x")| ==> IsDigit(Join(fs, "x")[i]) || Join(fs, "x")[i] == 'x'
  {
    if |fs| > 1 {
      JoinFieldsChars(fs[1..]);
      assert Join(fs, "x") == fs[0] + "x" + Join(fs[1..], "x");
    }
  }

  /** Distinct keys get distinct digests, hence distinct hashed variables. */
  lemma Md5Injective(a: string, b: string)
    requires Md5(a) == Md5(b)
    ensures a == b
  {
    DigestFieldsFacts(a);
    DigestFieldsFacts(b);
    SplitJoin(DigestFields(a), 'x');
    SplitJoin(DigestFields(b), 'x');
    var fa := DigestFields(a);
    var fb := DigestFields(b);
    assert fa == fb;
    assert |a| == |b|;
    forall i | 0 <= i < |a|
      ensures a[i] == b[i]
    {
      assert fa[i + 1] == NatToString(a[i] as int) && fb[i + 1] == NatToString(b[i] as int);
      ParseNatToString(a[i] as int);
      ParseNatToString(b[i] as int);
    }
  }

  /** The alternatives written for one part: the part, its hashed variable, and its own masks. */
  function Alternatives(part: Concept, subs: seq<Concept>): string
  {
    "[" + Join([Key(part), "$" + Md5(Key(part))] + Concepts.Keys(subs), ", ") + "]"
  }

  /** The patterns among `cs`, in order. */
  function Patterns(cs: seq<Concept>): (r: seq<Concept>)
    ensures forall x :: x in r <==> x in cs && IsPattern(x)
  {
    if |cs| == 0 then [] else (if IsPattern(cs[0]) then [cs[0]] else []) + Patterns(cs[1..])
  }

  /**
   * `getMaskPermutations`: nothing for an atom; otherwise every part is
   * written as a list of alternatives, the lists are parsed as one
   * expansion, and the patterns among the results are kept. A parse
   * failure, at any depth, is the result.
   */
  function MaskPermutations(c: Concept): (r: Result<seq<Concept>>)
    ensures IsAtom(c) ==> r == Ok([])
    ensures r.Ok? ==> forall x :: x in r.value ==> IsPattern(x)
    decreases c, 1
  {
    if IsAtom(c) then Ok([])
    else
      match PartsAlternatives(c.parts)
      case Err(msg) => Err(msg)
      case Ok(groups) =>
        match Parse(Join(groups, " "))
        case Err(msg) => Err(msg)
        case Ok(cs) => Ok(Patterns(cs))
  }

  function PartsAlternatives(ps: seq<Concept>): (r: Result<seq<string>>)
    ensures r.Ok? ==> |r.value| == |ps|
    decreases ps, 0
  {
    if |ps| == 0 then Ok([])
    else
      match MaskPermutations(ps[0])
      case Err(msg) => Err(msg)
      case Ok(subs) =>
        match PartsAlternatives(ps[1..])
        case Err(msg) => Err(msg)
        case Ok(rest) => Ok([Alternatives(ps[0], subs)] + rest)
  }

  /** The masks of `ps` that are not made of variables only, in order. */
  function KeepMasks(ps: seq<Concept>): (r: seq<Concept>)
    ensures forall m :: m in r <==> !HasAllVariables(m) && exists p :: p in ps && m == Mask(p)
  {
    if |ps| == 0 then []
    else
      var rest := KeepMasks(ps[1..]);
      assert forall p :: p in ps <==> p == ps[0] || p in ps[1..];
      if HasAllVariables(Mask(ps[0])) then rest else [Mask(ps[0])] + rest
  }

  /** `getConceptMasks`: the masks of the permutations, except those made of variables only. */
  function ConceptMasks(c: Concept): (r: Result<seq<Concept>>)
    ensures r.Ok? <==> MaskPermutations(c).Ok?
    ensures r.Ok? ==> forall m :: m in r.value ==>
      !HasAllVariables(m) && exists p :: p in MaskPermutations(c).value && IsPattern(p) && m == Mask(p)
    ensures IsAtom(c) ==> r == Ok([])
  {
    match MaskPermutations(c)
    case Err(msg) => Err(msg)
    case Ok(perms) => Ok(KeepMasks(perms))
  }
}
