/**
 * String masks of the parser library: every way of replacing atoms of a
 * concept by the wildcard `$*`, written in the concept's key syntax.
 */
module Masking {
  import opened Strings
  import opened Concepts

  const Wildcard := "$*"

  /** `right` as it is written after a part: bracketed when the part is a compound. */
  function Bracket(right: string, compound: bool): string
  {
    if compound then "[" + right + "]" else right
  }

  function BracketAll(rs: seq<string>, compound: bool): (r: seq<string>)
    ensures |r| == |rs|
    ensures forall j :: 0 <= j < |rs| ==> r[j] == Bracket(rs[j], compound)
  {
    if |rs| == 0 then [] else [Bracket(rs[0], compound)] + BracketAll(rs[1..], compound)
  }

  /** `subpermutations.map(right => [left, …right].join(' '))`. */
  function Row(left: string, rs: seq<string>, compound: bool): (r: seq<string>)
    ensures |r| == |rs|
    ensures forall j :: 0 <= j < |rs| ==> r[j] == left + " " + Bracket(rs[j], compound)
  {
    if |rs| == 0 then [] else [left + " " + Bracket(rs[0], compound)] + Row(left, rs[1..], compound)
  }

  /** `permutations.flatMap(left => …)`: every left followed by every right. */
  function Pair(ls: seq<string>, rs: seq<string>, compound: bool): (r: seq<string>)
    ensures |ls| > 0 && |rs| > 0 ==> |r| > 0 && r[0] == ls[0] + " " + Bracket(rs[0], compound)
  {
    if |ls| == 0 then [] else Row(ls[0], rs, compound) + Pair(ls[1..], rs, compound)
  }

  /** `getConceptMasks` as written. */
  function Masks(c: Concept): (ms: seq<string>)
    decreases c, 0
  {
    if IsAtom(c) then [Key(c), Wildcard] else MasksOfParts(c.parts)
  }

  /**
   * The `forEach` over the parts: the first part's masks are taken as they
   * are, without brackets; each later part's masks are paired with them.
   */
  function MasksOfParts(ps: seq<Concept>): seq<string>
    decreases ps, 1
  {
    if |ps| == 0 then []
    else
      var perms := MasksOfParts(ps[..|ps| - 1]);
      var part := ps[|ps| - 1];
      var sub := Masks(part);
      if |perms| == 0 then sub else Pair(perms, sub, IsCompound(part))
  }

  /** `getConceptMasks`: the `forEach` loop updating `permutations`. */
  method GetConceptMasks(concept: Concept) returns (r: seq<string>)
    ensures r == Masks(concept)
    decreases concept
  {
    if IsAtom(concept) {
      return [Key(concept), Wildcard];
    }
    var ps := concept.parts;
    var permutations: seq<string> := [];
    var i := 0;
    while i < |ps|
      invariant 0 <= i <= |ps|
      invariant permutations == MasksOfParts(ps[..i])
    {
      assert ps[..i + 1][..i] == ps[..i];
      var sub := GetConceptMasks(ps[i]);
      if |permutations| == 0 {
        permutations := sub;
      } else {
        permutations := Pair(permutations, sub, IsCompound(ps[i]));
      }
      i := i + 1;
    }
    assert ps[..|ps|] == ps;
    r := permutations;
  }

  /** The number of masks: two per atom, the product over the parts of a compound. */
  function MaskCount(c: Concept): (n: nat)
    ensures n >= 1
    decreases c, 0
  {
    if IsAtom(c) then 2 else MaskCountOfParts(c.parts)
  }

  function MaskCountOfParts(ps: seq<Concept>): (n: nat)
    ensures n >= 1
    decreases ps, 1
  {
    if |ps| == 0 then 1 else MaskCountOfParts(ps[..|ps| - 1]) * MaskCount(ps[|ps| - 1])
  }

  lemma MulPositive(a: nat, b: nat)
    requires a >= 1 && b >= 1
    ensures a * b >= 1
  {
  }

  lemma {:induction false} RowLength(left: string, rs: seq<string>, compound: bool)
    ensures |Row(left, rs, compound)| == |rs|
  {
  }

  lemma {:induction false} PairLength(ls: seq<string>, rs: seq<string>, compound: bool)
    ensures |Pair(ls, rs, compound)| == |ls| * |rs|
  {
    if |ls| > 0 {
      PairLength(ls[1..], rs, compound);
      assert |ls| * |rs| == |rs| + (|ls| - 1) * |rs|;
    }
  }

  /** The last pair is the last left followed by the last right. */
  lemma {:induction false} PairLast(ls: seq<string>, rs: seq<string>, compound: bool)
    requires |ls| > 0 && |rs| > 0
    ensures |Pair(ls, rs, compound)| > 0
    ensures Pair(ls, rs, compound)[|Pair(ls, rs, compound)| - 1] == ls[|ls| - 1] + " " + Bracket(rs[|rs| - 1], compound)
  {
    if |ls| > 1 {
      PairLast(ls[1..], rs, compound);
    } else {
      assert Pair(ls, rs, compound) == Row(ls[0], rs, compound) + [];
    }
  }

  /**
   * A compound's masks are the cartesian product of its parts' masks, so
   * there are as many as the product of the parts' counts.
   */
  lemma {:induction false} MasksCount(c: Concept)
    ensures |Masks(c)| == MaskCount(c)
    decreases c, 0
  {
    if IsCompound(c) {
      MasksOfPartsCount(c.parts);
    }
  }

  lemma {:induction false} MasksOfPartsCount(ps: seq<Concept>)
    ensures |ps| > 0 ==> |MasksOfParts(ps)| == MaskCountOfParts(ps)
    ensures |ps| == 0 ==> |MasksOfParts(ps)| == 0
    decreases ps, 1
  {
    if |ps| > 0 {
      var n := |ps| - 1;
      MasksOfPartsCount(ps[..n]);
      MasksCount(ps[n]);
      var perms := MasksOfParts(ps[..n]);
      if |perms| > 0 {
        PairLength(perms, Masks(ps[n]), IsCompound(ps[n]));
      } else {
        assert n == 0;
        assert MaskCountOfParts(ps[..n]) == 1;
      }
    }
  }

  /** An atom's masks are exactly its key and the wildcard. */
  lemma AtomMasks(c: Concept)
    requires IsAtom(c)
    ensures Masks(c) == [Key(c), Wildcard]
  {
  }

  // The last mask: every atom replaced by the wildcard.

  /** The key `c` would have with every atom replaced by `$*`. */
  function WildKey(c: Concept): string
    decreases c, 0
  {
    if IsAtom(c) then Wildcard else Join(WildPartKeys(c.parts), " ")
  }

  function WildPartKeys(ps: seq<Concept>): (ks: seq<string>)
    ensures |ks| == |ps|
    decreases ps, 2
  {
    if |ps| == 0 then [] else [Bracket(WildKey(ps[0]), IsCompound(ps[0]))] + WildPartKeys(ps[1..])
  }

  lemma {:induction false} JoinSnoc(ss: seq<string>, s: string, sep: string)
    ensures Join(ss + [s], sep) == if |ss| == 0 then s else Join(ss, sep) + sep + s
  {
    if |ss| == 1 {
      assert (ss + [s])[1..] == [s];
    } else if |ss| > 1 {
      assert (ss + [s])[1..] == ss[1..] + [s];
      JoinSnoc(ss[1..], s, sep);
    } else {
      assert ss + [s] == [s];
    }
  }

  lemma {:induction false} WildPartKeysSnoc(ps: seq<Concept>)
    requires |ps| > 0
    ensures WildPartKeys(ps) == WildPartKeys(ps[..|ps| - 1]) + [Bracket(WildKey(ps[|ps| - 1]), IsCompound(ps[|ps| - 1]))]
  {
    if |ps| > 1 {
      assert ps[1..][..|ps[1..]| - 1] == ps[..|ps| - 1][1..];
      WildPartKeysSnoc(ps[1..]);
    }
  }

  lemma {:induction false} PartKeysSnoc(ps: seq<Concept>)
    requires |ps| > 0
    ensures PartKeys(ps) == PartKeys(ps[..|ps| - 1]) + [PartKey(ps[|ps| - 1])]
  {
    if |ps| > 1 {
      assert ps[1..][..|ps[1..]| - 1] == ps[..|ps| - 1][1..];
      PartKeysSnoc(ps[1..]);
    }
  }

  /**
   * The masks of the corrected enumeration, which brackets a compound first
   * part as the key does.
   */
  function BracketedMasks(c: Concept): (ms: seq<string>)
    decreases c, 0
  {
    if IsAtom(c) then [Key(c), Wildcard] else BracketedMasksOfParts(c.parts)
  }

  function BracketedMasksOfParts(ps: seq<Concept>): seq<string>
    decreases ps, 1
  {
    if |ps| == 0 then []
    else
      var perms := BracketedMasksOfParts(ps[..|ps| - 1]);
      var part := ps[|ps| - 1];
      var sub := BracketedMasks(part);
      if |perms| == 0 then BracketAll(sub, IsCompound(part)) else Pair(perms, sub, IsCompound(part))
  }

  /**
   * The corrected masks: as many as the product of the parts' counts, the
   * first one the concept's own key, the last one its key with every atom
   * replaced by `$*` and the brackets kept.
   */
  lemma {:induction false} BracketedMasksFacts(c: Concept)
    ensures |BracketedMasks(c)| == MaskCount(c)
    ensures BracketedMasks(c)[0] == Key(c)
    ensures BracketedMasks(c)[|BracketedMasks(c)| - 1] == WildKey(c)
    decreases c, 0
  {
    if IsCompound(c) {
      BracketedPartsFacts(c.parts);
      assert BracketedMasks(c) == BracketedMasksOfParts(c.parts);
      assert MaskCount(c) == MaskCountOfParts(c.parts);
      assert WildKey(c) == Join(WildPartKeys(c.parts), " ");
    } else {
      assert BracketedMasks(c) == [Key(c), Wildcard];
    }
  }

  lemma {:induction false} BracketedPartsFacts(ps: seq<Concept>)
    requires |ps| > 0
    ensures |BracketedMasksOfParts(ps)| == MaskCountOfParts(ps)
    ensures BracketedMasksOfParts(ps)[0] == JoinPartKeys(ps)
    ensures BracketedMasksOfParts(ps)[|BracketedMasksOfParts(ps)| - 1] == Join(WildPartKeys(ps), " ")
    decreases ps, 1
  {
    var n := |ps| - 1;
    BracketedMasksFacts(ps[n]);
    if n > 0 {
      BracketedPartsFacts(ps[..n]);
    }
    StepCount(ps);
    StepFirst(ps);
    StepLast(ps);
  }

  lemma StepCount(ps: seq<Concept>)
    requires |ps| > 0
    requires |BracketedMasks(ps[|ps| - 1])| == MaskCount(ps[|ps| - 1])
    requires |ps| > 1 ==> |BracketedMasksOfParts(ps[..|ps| - 1])| == MaskCountOfParts(ps[..|ps| - 1])
    ensures |BracketedMasksOfParts(ps)| == MaskCountOfParts(ps)
  {
    var n := |ps| - 1;
    var init := ps[..n];
    var part := ps[n];
    var sub := BracketedMasks(part);
    var br := IsCompound(part);
    if n == 0 {
      assert init == [];
      assert BracketedMasksOfParts(ps) == BracketAll(sub, br);
      assert MaskCountOfParts(ps) == 1 * MaskCount(part);
    } else {
      var perms := BracketedMasksOfParts(init);
      assert BracketedMasksOfParts(ps) == Pair(perms, sub, br);
      PairLength(perms, sub, br);
    }
  }

  lemma StepFirst(ps: seq<Concept>)
    requires |ps| > 0
    requires |BracketedMasks(ps[|ps| - 1])| > 0 && BracketedMasks(ps[|ps| - 1])[0] == Key(ps[|ps| - 1])
    requires |ps| > 1 ==> |BracketedMasksOfParts(ps[..|ps| - 1])| > 0
    requires |ps| > 1 ==> BracketedMasksOfParts(ps[..|ps| - 1])[0] == JoinPartKeys(ps[..|ps| - 1])
    ensures |BracketedMasksOfParts(ps)| > 0
    ensures BracketedMasksOfParts(ps)[0] == JoinPartKeys(ps)
  {
    var n := |ps| - 1;
    var init := ps[..n];
    var part := ps[n];
    var sub := BracketedMasks(part);
    var br := IsCompound(part);
    PartKeysSnoc(ps);
    JoinSnoc(PartKeys(init), PartKey(part), " ");
    assert PartKey(part) == Bracket(Key(part), br);
    if n == 0 {
      assert init == [];
      assert BracketedMasksOfParts(ps) == BracketAll(sub, br);
    } else {
      var perms := BracketedMasksOfParts(init);
      assert BracketedMasksOfParts(ps) == Pair(perms, sub, br);
    }
  }

  lemma StepLast(ps: seq<Concept>)
    requires |ps| > 0
    requires |BracketedMasks(ps[|ps| - 1])| > 0
    requires BracketedMasks(ps[|ps| - 1])[|BracketedMasks(ps[|ps| - 1])| - 1] == WildKey(ps[|ps| - 1])
    requires |ps| > 1 ==> |BracketedMasksOfParts(ps[..|ps| - 1])| > 0
    requires |ps| > 1 ==> var m := BracketedMasksOfParts(ps[..|ps| - 1]); m[|m| - 1] == Join(WildPartKeys(ps[..|ps| - 1]), " ")
    ensures |BracketedMasksOfParts(ps)| > 0
    ensures BracketedMasksOfParts(ps)[|BracketedMasksOfParts(ps)| - 1] == Join(WildPartKeys(ps), " ")
  {
    WildJoinSnoc(ps);
    if |ps| == 1 {
      StepLastOne(ps);
    } else {
      StepLastMore(ps);
    }
  }

  lemma StepLastOne(ps: seq<Concept>)
    requires |ps| == 1
    requires |BracketedMasks(ps[0])| > 0
    requires BracketedMasks(ps[0])[|BracketedMasks(ps[0])| - 1] == WildKey(ps[0])
    ensures |BracketedMasksOfParts(ps)| > 0
    ensures BracketedMasksOfParts(ps)[|BracketedMasksOfParts(ps)| - 1] == Bracket(WildKey(ps[0]), IsCompound(ps[0]))
  {
    assert ps[..0] == [];
    assert BracketedMasksOfParts(ps) == BracketAll(BracketedMasks(ps[0]), IsCompound(ps[0]));
  }

  lemma StepLastMore(ps: seq<Concept>)
    requires |ps| > 1
    requires |BracketedMasks(ps[|ps| - 1])| > 0
    requires BracketedMasks(ps[|ps| - 1])[|BracketedMasks(ps[|ps| - 1])| - 1] == WildKey(ps[|ps| - 1])
    requires |BracketedMasksOfParts(ps[..|ps| - 1])| > 0
    requires var m := BracketedMasksOfParts(ps[..|ps| - 1]); m[|m| - 1] == Join(WildPartKeys(ps[..|ps| - 1]), " ")
    ensures |BracketedMasksOfParts(ps)| > 0
    ensures BracketedMasksOfParts(ps)[|BracketedMasksOfParts(ps)| - 1]
      == Join(WildPartKeys(ps[..|ps| - 1]), " ") + " " + Bracket(WildKey(ps[|ps| - 1]), IsCompound(ps[|ps| - 1]))
  {
    var n := |ps| - 1;
    var part := ps[n];
    var perms := BracketedMasksOfParts(ps[..n]);
    assert BracketedMasksOfParts(ps) == Pair(perms, BracketedMasks(part), IsCompound(part));
    PairLastOf(perms, BracketedMasks(part), IsCompound(part), Join(WildPartKeys(ps[..n]), " "), WildKey(part));
  }

  lemma PairLastOf(ls: seq<string>, rs: seq<string>, compound: bool, l: string, r: string)
    requires |ls| > 0 && |rs| > 0 && ls[|ls| - 1] == l && rs[|rs| - 1] == r
    ensures |Pair(ls, rs, compound)| > 0
    ensures Pair(ls, rs, compound)[|Pair(ls, rs, compound)| - 1] == l + " " + Bracket(r, compound)
  {
    PairLast(ls, rs, compound);
  }

  lemma WildJoinSnoc(ps: seq<Concept>)
    requires |ps| > 0
    ensures var wl := Bracket(WildKey(ps[|ps| - 1]), IsCompound(ps[|ps| - 1]));
      Join(WildPartKeys(ps), " ") == if |ps| == 1 then wl else Join(WildPartKeys(ps[..|ps| - 1]), " ") + " " + wl
  {
    WildPartKeysSnoc(ps);
    JoinSnoc(WildPartKeys(ps[..|ps| - 1]), Bracket(WildKey(ps[|ps| - 1]), IsCompound(ps[|ps| - 1])), " ");
  }

  /**
   * The masks as written leave a compound first part unbracketed, so the
   * first mask of `[a b] c` is `a b c`, not its key `[a b] c`.
   */
  lemma FirstMaskUnbracketed()
    ensures var c := Compound([Compound([Atom("a"), Atom("b")]), Atom("c")]);
      Key(c) == "[a b] c" && Masks(c)[0] == "a b c"
  {
    var a, b, c0 := Atom("a"), Atom("b"), Atom("c");
    var abParts := [a, b];
    var ab := Compound(abParts);
    var ps := [ab, c0];
    var c := Compound(ps);
    TwoPartMasks(a, b);
    assert Masks(ab)[0] == "a b";
    TwoPartMasks(ab, c0);
    assert Masks(c)[0] == Masks(ab)[0] + " " + "c";
    TwoPartKey(a, b);
    TwoPartKey(ab, c0);
  }

  lemma TwoPartMasks(x: Concept, y: Concept)
    requires IsAtom(y)
    ensures Masks(Compound([x, y])) == Pair(Masks(x), [Key(y), Wildcard], false)
  {
    var ps := [x, y];
    assert ps[..1] == [x] && ps[..1][..0] == [];
    assert MasksOfParts(ps[..1]) == Masks(x);
    assert ps[..|ps| - 1] == [x] && ps[|ps| - 1] == y;
    assert Masks(y) == [Key(y), Wildcard];
    if IsAtom(x) {
      assert |Masks(x)| > 0;
    } else {
      MasksNonEmpty(x.parts);
    }
  }

  lemma TwoPartKey(x: Concept, y: Concept)
    ensures Key(Compound([x, y])) == PartKey(x) + " " + PartKey(y)
  {
    var ps := [x, y];
    assert ps[1..] == [y] && ps[1..][1..] == [];
    assert PartKeys(ps) == [PartKey(x), PartKey(y)];
    var ks := PartKeys(ps);
    assert ks[1..] == [PartKey(y)];
    assert Join(ks[1..], " ") == PartKey(y);
  }

  /** The two enumerations agree on every concept without a compound first part at any depth. */
  predicate AtomFirst(c: Concept)
    decreases c, 0
  {
    IsAtom(c) || (!IsCompound(c.parts[0]) && AtomFirstAll(c.parts))
  }

  predicate AtomFirstAll(ps: seq<Concept>)
    decreases ps, 1
  {
    forall i :: 0 <= i < |ps| ==> AtomFirst(ps[i])
  }

  lemma {:induction false} BracketAllFlat(rs: seq<string>)
    ensures BracketAll(rs, false) == rs
  {
    if |rs| > 0 {
      BracketAllFlat(rs[1..]);
    }
  }

  lemma {:induction false} MasksAgree(c: Concept)
    requires AtomFirst(c)
    ensures Masks(c) == BracketedMasks(c)
    decreases c, 0
  {
    if IsCompound(c) {
      MasksOfPartsAgree(c.parts);
    }
  }

  lemma {:induction false} MasksOfPartsAgree(ps: seq<Concept>)
    requires AtomFirstAll(ps)
    requires |ps| > 0 ==> !IsCompound(ps[0])
    ensures MasksOfParts(ps) == BracketedMasksOfParts(ps)
    decreases ps, 1
  {
    if |ps| > 0 {
      var n := |ps| - 1;
      assert AtomFirstAll(ps[..n]) by {
        forall i | 0 <= i < n
          ensures AtomFirst(ps[..n][i])
        {
          assert ps[..n][i] == ps[i];
        }
      }
      if n > 0 {
        assert ps[..n][0] == ps[0];
      }
      MasksOfPartsAgree(ps[..n]);
      MasksAgree(ps[n]);
      if n == 0 {
        BracketAllFlat(Masks(ps[n]));
      } else {
        MasksNonEmpty(ps[..n]);
      }
    }
  }

  lemma {:induction false} MasksNonEmpty(ps: seq<Concept>)
    requires |ps| > 0
    ensures |MasksOfParts(ps)| > 0
  {
    MasksOfPartsCount(ps);
  }
}
