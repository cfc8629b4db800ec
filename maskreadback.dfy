/**
 * `getMaskPermutations` read through the parser: the text it writes for a
 * compound is a row of nested blocks, one per part, listing the part, its
 * hashed variable and the part's own permutations. For concepts in the shape
 * the constructor gives (no set compounds), every permutation is one choice
 * per part, and every mask the concept gets matches it.
 */
module MaskReadBack {
  import opened Wrappers
  import opened Strings
  import opened Concepts
  import opened Matching
  import opened Expansion
  import opened Alternatives
  import opened ReadBack
  import Masks = ConceptMasks
  import Keys
  import Folds
  import Additions

  /** `'$' + md5(part.key)`: the variable a part may be replaced by. */
  function HashVar(part: Concept): (v: Concept)
    ensures IsVariable(v)
  {
    Atom("$" + Masks.Md5(Key(part)))
  }

  /** The alternatives of one part: itself, its hashed variable, its own permutations. */
  function Row(part: Concept, subs: seq<Concept>): seq<Concept>
  {
    [part, HashVar(part)] + subs
  }

  /** The rows of a compound's parts. */
  function MaskRows(ps: seq<Concept>): (rows: seq<seq<Concept>>)
    requires forall i :: 0 <= i < |ps| ==> Masks.MaskPermutations(ps[i]).Ok?
    ensures |rows| == |ps|
    ensures forall i :: 0 <= i < |ps| ==> rows[i] == Row(ps[i], Masks.MaskPermutations(ps[i]).value)
  {
    seq(|ps|, i requires 0 <= i < |ps| => Row(ps[i], Masks.MaskPermutations(ps[i]).value))
  }

  /** A concept in the constructor's shape, of simple atoms, without set compounds. */
  predicate Maskable(c: Concept)
  {
    Plain(c) && Masks.Shaped(c)
  }

  /** One alternative from each row. */
  predicate Picks(q: seq<Concept>, rows: seq<seq<Concept>>)
  {
    |q| == |rows| && forall i :: 0 <= i < |q| ==> q[i] in rows[i]
  }

  /** What the parts' own permutations give: all of them read, each maskable and matching its part. */
  predicate SubsGood(ps: seq<Concept>)
  {
    forall i :: 0 <= i < |ps| ==> SubsOf(ps[i])
  }

  /** A part's own permutations read, each maskable and matching the part. */
  predicate SubsOf(part: Concept)
  {
    Masks.MaskPermutations(part).Ok?
    && forall p :: p in Masks.MaskPermutations(part).value ==> Maskable(p) && Match(part, p).Some?
  }

  /** Every choice takes one alternative from each row. */
  predicate AllPick(qs: seq<seq<Concept>>, rows: seq<seq<Concept>>)
  {
    forall q :: q in qs ==> Picks(q, rows)
  }

  // The hashed variable.

  lemma HashVarMaskable(part: Concept)
    ensures Maskable(HashVar(part)) && Key(HashVar(part)) != ":"
  {
    var k := "$" + Masks.Md5(Key(part));
    assert forall i :: 1 <= i < |k| ==> k[i] == Masks.Md5(Key(part))[i - 1];
    assert SimpleKey(k);
  }

  /** Parts with equal keys get the same variable, and only they: the name is derived from the key. */
  lemma HashVarSame(x: Concept, y: Concept)
    ensures HashVar(x) == HashVar(y) <==> Key(x) == Key(y)
  {
    if HashVar(x) == HashVar(y) {
      var a, b := "$" + Masks.Md5(Key(x)), "$" + Masks.Md5(Key(y));
      assert a[1..] == Masks.Md5(Key(x)) && b[1..] == Masks.Md5(Key(y));
      Masks.Md5Injective(Key(x), Key(y));
    }
  }

  // The text `getMaskPermutations` writes is a row.

  lemma KeysAppend(a: seq<Concept>, b: seq<Concept>)
    ensures Concepts.Keys(a + b) == Concepts.Keys(a) + Concepts.Keys(b)
  {
    var l := Concepts.Keys(a + b);
    forall i | 0 <= i < |a + b|
      ensures l[i] == (Concepts.Keys(a) + Concepts.Keys(b))[i]
    {
      Concepts.KeysAt(a + b, i);
      if i < |a| {
        Concepts.KeysAt(a, i);
      } else {
        Concepts.KeysAt(b, i - |a|);
      }
    }
  }

  lemma AlternativesRow(part: Concept, subs: seq<Concept>)
    ensures Masks.Alternatives(part, subs) == BlockText(Concepts.Keys(Row(part, subs)), ", ")
  {
    KeysAppend([part, HashVar(part)], subs);
    assert Concepts.Keys([part, HashVar(part)]) == [Key(part), "$" + Masks.Md5(Key(part))] by {
      assert [part, HashVar(part)][1..] == [HashVar(part)];
    }
  }

  lemma {:induction false} PartsAlternativesRows(ps: seq<Concept>)
    requires forall i :: 0 <= i < |ps| ==> Masks.MaskPermutations(ps[i]).Ok?
    ensures Masks.PartsAlternatives(ps) == Ok(BlockTexts(MaskRows(ps), ", "))
  {
    if |ps| > 0 {
      PartsAlternativesRows(ps[1..]);
      AlternativesRow(ps[0], Masks.MaskPermutations(ps[0]).value);
      assert MaskRows(ps)[1..] == MaskRows(ps[1..]);
    }
  }

  lemma RowPlain(part: Concept, subs: seq<Concept>)
    requires Plain(part)
    requires forall p :: p in subs ==> Maskable(p)
    ensures |Row(part, subs)| > 0 && AllPlain(Row(part, subs))
  {
    HashVarMaskable(part);
    var row := Row(part, subs);
    forall j | 0 <= j < |row|
      ensures Plain(row[j])
    {
      if j == 0 {
        assert row[j] == part;
      } else if j == 1 {
        assert row[j] == HashVar(part);
      } else {
        assert row[j] == subs[j - 2] && subs[j - 2] in subs;
      }
    }
  }

  lemma RowsPlain(ps: seq<Concept>)
    requires forall i :: 0 <= i < |ps| ==> Plain(ps[i])
    requires SubsGood(ps)
    ensures PlainRows(MaskRows(ps))
  {
    var rows := MaskRows(ps);
    forall i | 0 <= i < |rows|
      ensures |rows[i]| > 0 && AllPlain(rows[i])
    {
      assert SubsOf(ps[i]);
      RowPlain(ps[i], Masks.MaskPermutations(ps[i]).value);
    }
  }

  /** A compound's permutations are the patterns among the concepts its row reads as. */
  lemma PermutationsOfRows(c: Concept)
    requires Maskable(c) && c.Compound? && SubsGood(c.parts)
    ensures AllNonEmpty(Choices([], MaskRows(c.parts)))
    ensures Masks.MaskPermutations(c) == Ok(Masks.Patterns(UniqueByKey(BuildAll(Choices([], MaskRows(c.parts))))))
  {
    var rows := MaskRows(c.parts);
    assert forall i :: 0 <= i < |c.parts| ==> Maskable(c.parts[i]);
    RowsPlain(c.parts);
    PartsAlternativesRows(c.parts);
    RowParses(rows, ", ");
  }

  // A choice of one alternative per row.

  /** A prefix that picks from `done`, extended by an alternative of the next row. */
  lemma PickStep(done: seq<seq<Concept>>, l: seq<Concept>, alts: seq<Concept>, j: nat)
    requires Picks(l, done) && j < |alts|
    ensures Picks(l + [alts[j]], done + [alts])
  {
    var q, rows := l + [alts[j]], done + [alts];
    forall i | 0 <= i < |q|
      ensures q[i] in rows[i]
    {
      if i < |l| {
        assert q[i] == l[i] && rows[i] == done[i];
      }
    }
  }

  lemma {:induction false} CrossPick(done: seq<seq<Concept>>, ls: seq<seq<Concept>>, alts: seq<Concept>)
    requires AllPick(ls, done)
    ensures AllPick(Cross(ls, Singles(alts)), done + [alts])
  {
    if |ls| > 0 {
      CrossPick(done, ls[1..], alts);
      var first := PrependEach(ls[0], Singles(alts));
      assert ls[0] in ls;
      forall j | 0 <= j < |first|
        ensures Picks(first[j], done + [alts])
      {
        assert first[j] == ls[0] + [alts[j]];
        PickStep(done, ls[0], alts, j);
      }
      assert Cross(ls, Singles(alts)) == first + Cross(ls[1..], Singles(alts));
    }
  }

  /** The choices so far: none before the first row, then at least one, each picking from the rows done. */
  predicate Started(done: seq<seq<Concept>>, prefixes: seq<seq<Concept>>)
  {
    if |done| == 0 then prefixes == [] else |prefixes| > 0 && AllPick(prefixes, done)
  }

  lemma CombinePick(done: seq<seq<Concept>>, prefixes: seq<seq<Concept>>, alts: seq<Concept>)
    requires |alts| > 0 && Started(done, prefixes)
    ensures |Combine(prefixes, Singles(alts))| > 0
    ensures AllPick(Combine(prefixes, Singles(alts)), done + [alts])
  {
    var singles := Singles(alts);
    if |prefixes| == 0 {
      assert done + [alts] == [alts];
      forall q | q in singles
        ensures Picks(q, [alts])
      {
        var j :| 0 <= j < |singles| && singles[j] == q;
      }
    } else {
      CrossPick(done, prefixes, alts);
      assert Cross(prefixes, singles) == PrependEach(prefixes[0], singles) + Cross(prefixes[1..], singles);
    }
  }

  /** Every choice the rows give takes one alternative from each row. */
  lemma {:induction false} ChoicesPick(done: seq<seq<Concept>>, prefixes: seq<seq<Concept>>, rows: seq<seq<Concept>>)
    requires AllNonEmpty(rows) && Started(done, prefixes)
    ensures AllPick(Choices(prefixes, rows), done + rows)
    decreases |rows|
  {
    if |rows| == 0 {
      assert done + rows == done;
    } else {
      var next := Combine(prefixes, Singles(rows[0]));
      assert Choices(prefixes, rows) == Choices(next, rows[1..]);
      CombinePick(done, prefixes, rows[0]);
      assert Started(done + [rows[0]], next);
      assert AllNonEmpty(rows[1..]);
      ChoicesPick(done + [rows[0]], next, rows[1..]);
      RowsDone(done, rows);
    }
  }

  lemma RowsAfterNone(rows: seq<seq<Concept>>)
    ensures [] + rows == rows
  {
  }

  lemma RowsDone(done: seq<seq<Concept>>, rows: seq<seq<Concept>>)
    requires |rows| > 0
    ensures done + [rows[0]] + rows[1..] == done + rows
  {
    var l, r := done + [rows[0]] + rows[1..], done + rows;
    forall i | 0 <= i < |r|
      ensures l[i] == r[i]
    {
    }
  }

  // One permutation.

  /** An alternative of a part's row is maskable and matches the part. */
  lemma AlternativeFacts(part: Concept, subs: seq<Concept>, x: Concept)
    requires Maskable(part)
    requires forall p :: p in subs ==> Maskable(p) && Match(part, p).Some?
    requires x in Row(part, subs)
    ensures Maskable(x) && Match(part, x).Some?
  {
    HashVarMaskable(part);
    if x == part {
      MatchSelf(part);
    } else if x != HashVar(part) {
      assert x in subs;
    }
  }

  /** An alternative of a part whose key is not `:` has a key other than `:`. */
  lemma AlternativeKey(part: Concept, subs: seq<Concept>, x: Concept)
    requires Key(part) != ":"
    requires forall p :: p in subs ==> Maskable(p) && IsPattern(p)
    requires x in Row(part, subs)
    ensures Key(x) != ":"
  {
    HashVarMaskable(part);
    if x != part && x != HashVar(part) {
      assert x in subs;
      Masks.JoinTwoHasSeparator(PartKeys(x.parts));
      assert ' ' in Key(x);
    }
  }

  /** A concept matches itself. */
  lemma {:induction false} MatchSelf(c: Concept)
    ensures Match(c, c).Some?
    decreases c
  {
    if !IsVariable(c) && IsPattern(c) {
      forall i | 0 <= i < |c.parts|
        ensures Match(c.parts[i], c.parts[i]).Some?
      {
        MatchSelf(c.parts[i]);
      }
      MatchPartsAll(c.parts, c.parts);
    }
  }

  /** Each alternative picked from a part's row is maskable and matches the part. */
  lemma PickParts(c: Concept, q: seq<Concept>)
    requires Maskable(c) && c.Compound? && SubsGood(c.parts)
    requires Picks(q, MaskRows(c.parts))
    ensures |q| == |c.parts|
    ensures forall i :: 0 <= i < |q| ==> Maskable(q[i]) && Match(c.parts[i], q[i]).Some?
  {
    var rows := MaskRows(c.parts);
    forall i | 0 <= i < |q|
      ensures Maskable(q[i]) && Match(c.parts[i], q[i]).Some?
    {
      assert SubsOf(c.parts[i]);
      assert q[i] in rows[i];
      AlternativeFacts(c.parts[i], Masks.MaskPermutations(c.parts[i]).value, q[i]);
    }
  }

  /** The first alternative picked keeps the compound an ordered one. */
  lemma PickFirst(c: Concept, q: seq<Concept>)
    requires Maskable(c) && c.Compound? && SubsGood(c.parts)
    requires Picks(q, MaskRows(c.parts))
    ensures |q| >= 2 && Key(q[0]) != ":"
  {
    assert SubsOf(c.parts[0]);
    AlternativeKey(c.parts[0], Masks.MaskPermutations(c.parts[0]).value, q[0]);
  }

  /** A choice from the rows of a compound's parts, put together. */
  lemma PickFacts(c: Concept, q: seq<Concept>)
    requires Maskable(c) && c.Compound? && SubsGood(c.parts)
    requires Picks(q, MaskRows(c.parts)) && |q| > 0 && IsPattern(Build(q))
    ensures Build(q) == Compound(q)
    ensures Maskable(Compound(q)) && Match(c, Compound(q)).Some?
  {
    PickParts(c, q);
    PickFirst(c, q);
    assert Build(q) == Compound(q);
    MatchPartsAll(c.parts, q);
  }

  /** A pattern among the concepts built from the choices is one choice, built. */
  lemma ChoicePick(rows: seq<seq<Concept>>, p: Concept) returns (q: seq<Concept>)
    requires AllNonEmpty(rows) && AllNonEmpty(Choices([], rows))
    requires p in Masks.Patterns(UniqueByKey(BuildAll(Choices([], rows))))
    ensures Picks(q, rows) && |q| > 0 && p == Build(q) && IsPattern(p)
  {
    var cs := Choices([], rows);
    var built := BuildAll(cs);
    assert p in UniqueByKey(built);
    UniqueByKeyFacts(built);
    assert p in built;
    var j :| 0 <= j < |built| && built[j] == p;
    q := cs[j];
    ChoicesPick([], [], rows);
    assert [] + rows == rows by {
      RowsAfterNone(rows);
    }
    assert q in cs;
  }

  /** Each permutation is one choice from the rows, as a compound. */
  lemma PermutationPick(c: Concept, p: Concept) returns (q: seq<Concept>)
    requires Maskable(c) && c.Compound? && SubsGood(c.parts)
    requires AllNonEmpty(Choices([], MaskRows(c.parts)))
    requires p in Masks.Patterns(UniqueByKey(BuildAll(Choices([], MaskRows(c.parts)))))
    ensures Picks(q, MaskRows(c.parts)) && |q| > 0 && p == Build(q) && IsPattern(p)
  {
    var rows := MaskRows(c.parts);
    assert forall i :: 0 <= i < |rows| ==> |rows[i]| > 0;
    q := ChoicePick(rows, p);
  }

  // What the permutations promise.

  /**
   * Every permutation of a maskable concept is maskable and matches it: each
   * part is kept, replaced by its hashed variable, or by one of its own
   * permutations, all of which match the part.
   */
  lemma {:induction false} PermutationsFacts(c: Concept)
    requires Maskable(c)
    ensures Masks.MaskPermutations(c).Ok?
    ensures forall p :: p in Masks.MaskPermutations(c).value ==> Maskable(p) && Match(c, p).Some?
    decreases c
  {
    if c.Compound? {
      PartsFacts(c);
      PermutationsOfRows(c);
      forall p | p in Masks.MaskPermutations(c).value
        ensures Maskable(p) && Match(c, p).Some?
      {
        PermutationsStep(c, p);
      }
    }
  }

  lemma {:induction false} PartsFacts(c: Concept)
    requires Maskable(c) && c.Compound?
    ensures SubsGood(c.parts)
    decreases c, 0
  {
    forall i | 0 <= i < |c.parts|
      ensures SubsOf(c.parts[i])
    {
      PermutationsFacts(c.parts[i]);
    }
  }

  lemma PermutationsStep(c: Concept, p: Concept)
    requires Maskable(c) && c.Compound? && SubsGood(c.parts)
    requires AllNonEmpty(Choices([], MaskRows(c.parts)))
    requires p in Masks.Patterns(UniqueByKey(BuildAll(Choices([], MaskRows(c.parts)))))
    ensures Maskable(p) && Match(c, p).Some?
  {
    var q := PermutationPick(c, p);
    PickFacts(c, q);
  }

  /**
   * `getMaskPermutations` keeps each part, replaces it by the variable named
   * from its key's hash, or replaces it by one of the part's own permutations.
   */
  lemma PermutationParts(c: Concept, p: Concept)
    requires Maskable(c) && Masks.MaskPermutations(c).Ok? && p in Masks.MaskPermutations(c).value
    ensures c.Compound? && p.Compound? && |p.parts| == |c.parts|
    ensures forall i :: 0 <= i < |c.parts| ==>
      (p.parts[i] == c.parts[i] || p.parts[i] == HashVar(c.parts[i])
       || (Masks.MaskPermutations(c.parts[i]).Ok? && p.parts[i] in Masks.MaskPermutations(c.parts[i]).value))
  {
    PartsFacts(c);
    PermutationsOfRows(c);
    PermutationPartsStep(c, p);
  }

  lemma PermutationPartsStep(c: Concept, p: Concept)
    requires Maskable(c) && c.Compound? && SubsGood(c.parts)
    requires AllNonEmpty(Choices([], MaskRows(c.parts)))
    requires p in Masks.Patterns(UniqueByKey(BuildAll(Choices([], MaskRows(c.parts)))))
    ensures p.Compound? && |p.parts| == |c.parts|
    ensures forall i :: 0 <= i < |c.parts| ==>
      (p.parts[i] == c.parts[i] || p.parts[i] == HashVar(c.parts[i])
       || (Masks.MaskPermutations(c.parts[i]).Ok? && p.parts[i] in Masks.MaskPermutations(c.parts[i]).value))
  {
    var q := PermutationPick(c, p);
    PickFacts(c, q);
    PickAlternatives(c.parts, q);
  }

  lemma PickAlternatives(ps: seq<Concept>, q: seq<Concept>)
    requires SubsGood(ps) && Picks(q, MaskRows(ps))
    ensures forall i :: 0 <= i < |ps| ==>
      (q[i] == ps[i] || q[i] == HashVar(ps[i])
       || (Masks.MaskPermutations(ps[i]).Ok? && q[i] in Masks.MaskPermutations(ps[i]).value))
  {
    forall i | 0 <= i < |ps|
      ensures q[i] == ps[i] || q[i] == HashVar(ps[i]) || q[i] in Masks.MaskPermutations(ps[i]).value
    {
      assert SubsOf(ps[i]);
      RowMember(ps[i], Masks.MaskPermutations(ps[i]).value, q[i]);
    }
  }

  lemma RowMember(part: Concept, subs: seq<Concept>, x: Concept)
    requires x in Row(part, subs)
    ensures x == part || x == HashVar(part) || x in subs
  {
    var row := Row(part, subs);
    var j :| 0 <= j < |row| && row[j] == x;
    if j >= 2 {
      assert x == subs[j - 2];
    }
  }

  /**
   * Parts with equal keys get the same variable: two parts (that are not
   * variables already) which a permutation replaces by variables share the
   * variable exactly when their keys are equal.
   */
  lemma PermutationVariables(c: Concept, p: Concept, i: nat, j: nat)
    requires Maskable(c) && Masks.MaskPermutations(c).Ok? && p in Masks.MaskPermutations(c).value
    requires c.Compound? && p.Compound? && i < |c.parts| && j < |c.parts| && |p.parts| == |c.parts|
    requires !IsVariable(c.parts[i]) && !IsVariable(c.parts[j])
    requires IsVariable(p.parts[i]) && IsVariable(p.parts[j])
    ensures p.parts[i] == p.parts[j] <==> Key(c.parts[i]) == Key(c.parts[j])
  {
    PermutationParts(c, p);
    VariableIsHash(c.parts[i], p.parts[i]);
    VariableIsHash(c.parts[j], p.parts[j]);
    HashVarSame(c.parts[i], c.parts[j]);
  }

  lemma VariableIsHash(part: Concept, x: Concept)
    requires !IsVariable(part) && IsVariable(x)
    requires x == part || x == HashVar(part)
      || (Masks.MaskPermutations(part).Ok? && x in Masks.MaskPermutations(part).value)
    ensures x == HashVar(part)
  {
  }

  /**
   * Every mask `getConceptMasks` returns matches its concept, so
   * `createMaskMatchKey` does not throw for it.
   */
  lemma MasksMatch(c: Concept)
    requires Maskable(c)
    ensures Masks.ConceptMasks(c).Ok?
    ensures forall m :: m in Masks.ConceptMasks(c).value ==>
      Match(c, m).Some? && Keys.MaskMatchKey(c, m).Ok?
  {
    PermutationsFacts(c);
    forall m | m in Masks.ConceptMasks(c).value
      ensures Match(c, m).Some?
    {
      var p :| p in Masks.MaskPermutations(c).value && IsPattern(p) && m == Masks.Mask(p);
      Masks.MaskMatches(c, p);
    }
  }

  /** Every mask is a permutation renamed, of the shape the renaming lemmas ask for. */
  lemma MasksShaped(c: Concept)
    requires Maskable(c)
    ensures Masks.ConceptMasks(c).Ok?
    ensures forall p :: p in Masks.MaskPermutations(c).value ==> Masks.Shaped(p)
    ensures forall m :: m in Masks.ConceptMasks(c).value ==>
      exists p :: p in Masks.MaskPermutations(c).value && Masks.Shaped(p) && m == Masks.Mask(p) && Masks.Mask(m) == m
  {
    PermutationsFacts(c);
    forall m | m in Masks.ConceptMasks(c).value
      ensures exists p :: p in Masks.MaskPermutations(c).value && Masks.Shaped(p) && m == Masks.Mask(p) && Masks.Mask(m) == m
    {
      var p :| p in Masks.MaskPermutations(c).value && IsPattern(p) && m == Masks.Mask(p);
      Masks.MaskIdempotent(p);
    }
  }

  /**
   * `saveMasks` makes a match key for every mask of a maskable concept: the
   * `Mask does not match concept` error cannot arise for it.
   */
  lemma MaskKeysMade(c: Concept)
    requires Maskable(c)
    ensures Additions.ConceptMaskKeys(c).Ok?
    ensures forall m :: m in Masks.ConceptMasks(c).value ==>
      Keys.MaskMatchKey(c, m).Ok? && Keys.MaskMatchKey(c, m).value in Additions.ConceptMaskKeys(c).value
  {
    MasksMatch(c);
    var masks := Masks.ConceptMasks(c).value;
    var read := Additions.MatchKeyOf(c);
    assert forall i :: 0 <= i < |masks| ==> read(masks[i]).Ok? by {
      forall i | 0 <= i < |masks|
        ensures read(masks[i]).Ok?
      {
        assert masks[i] in masks;
      }
    }
    Folds.ReadEachAllOk(masks, read);
    Additions.ConceptMaskKeysFacts(c);
  }
}
