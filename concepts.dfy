/**
 * The ConceptML value type: a concept is an atom (a string key) or a
 * compound of parts. Its key is its identity: an atom's key is its source
 * text, a compound's key joins its parts' keys with single spaces and wraps
 * compound parts in `[ ]`. The constructor sorts the parts of a set compound
 * (first part `:`) and collapses a one-part compound to its part.
 */
module Concepts {
  import opened Wrappers
  import opened Strings

  datatype Concept = Atom(name: string) | Compound(parts: seq<Concept>)

  /** `concept.parts`: empty for an atom. */
  function Parts(c: Concept): seq<Concept>
  {
    match c
    case Atom(_) => []
    case Compound(ps) => ps
  }

  /** `isAtom()`: there are no parts. */
  predicate IsAtom(c: Concept)
  {
    |Parts(c)| == 0
  }

  predicate IsCompound(c: Concept)
  {
    !IsAtom(c)
  }

  /** `concept.key`. */
  function Key(c: Concept): string
    decreases c, 0
  {
    match c
    case Atom(k) => k
    case Compound(ps) => JoinPartKeys(ps)
  }

  /** How a part appears inside its compound's key. */
  function PartKey(p: Concept): string
    decreases p, 1
  {
    if IsAtom(p) then Key(p) else "[" + Key(p) + "]"
  }

  function PartKeys(ps: seq<Concept>): (ks: seq<string>)
    ensures |ks| == |ps|
    decreases ps, 2
  {
    if |ps| == 0 then [] else [PartKey(ps[0])] + PartKeys(ps[1..])
  }

  /** `Concept.joinPartKeys`. */
  function JoinPartKeys(ps: seq<Concept>): string
    decreases ps, 3
  {
    Join(PartKeys(ps), " ")
  }

  lemma {:induction false} PartKeysAt(ps: seq<Concept>, i: nat)
    requires i < |ps|
    ensures PartKeys(ps)[i] == PartKey(ps[i])
  {
    if i > 0 {
      PartKeysAt(ps[1..], i - 1);
    }
  }

  lemma {:induction false} PartKeysAppend(ps: seq<Concept>, qs: seq<Concept>)
    ensures PartKeys(ps + qs) == PartKeys(ps) + PartKeys(qs)
  {
    if |ps| > 0 {
      assert (ps + qs)[0] == ps[0];
      assert (ps + qs)[1..] == ps[1..] + qs;
      PartKeysAppend(ps[1..], qs);
    } else {
      assert ps + qs == qs;
    }
  }

  /**
   * A compound's key is its part keys joined by single spaces, compound
   * parts bracketed; an atom's key is its source string.
   */
  lemma KeyShape(c: Concept)
    ensures c.Atom? ==> Key(c) == c.name
    ensures c.Compound? ==> Key(c) == Join(PartKeys(c.parts), " ")
    ensures forall i :: 0 <= i < |Parts(c)| ==>
      PartKeys(Parts(c))[i] == (if IsAtom(Parts(c)[i]) then Key(Parts(c)[i]) else "[" + Key(Parts(c)[i]) + "]")
  {
    forall i | 0 <= i < |Parts(c)|
      ensures PartKeys(Parts(c))[i] == (if IsAtom(Parts(c)[i]) then Key(Parts(c)[i]) else "[" + Key(Parts(c)[i]) + "]")
    {
      PartKeysAt(Parts(c), i);
    }
  }

  // The atom check and the atom predicates.

  /** `/^<<(.|\n)*>>$/`: a string literal. */
  predicate IsStringLiteral(k: string)
  {
    |k| >= 4 && k[..2] == "<<" && k[|k| - 2..] == ">>"
    && forall i :: 2 <= i < |k| - 2 ==> DotOrNewline(k[i])
  }

  /** The characters `/[ ,\{\}\(\)]/` rejects in a non-string atom. */
  predicate IsForbiddenAtomChar(ch: char)
  {
    ch == ' ' || ch == ',' || ch == '{' || ch == '}' || ch == '(' || ch == ')'
  }

  /** The check the atom constructor asserts. */
  predicate PassesAtomCheck(k: string)
  {
    IsStringLiteral(k) || forall i :: 0 <= i < |k| ==> !IsForbiddenAtomChar(k[i])
  }

  const AtomCheckMessage := "Concept key cannot contain characters: ,{}() or space"

  /** `new Concept(source)` for a string source. */
  function MakeAtom(source: string): (r: Result<Concept>)
    ensures r.Ok? <==> PassesAtomCheck(source)
    ensures r.Ok? ==> r.value == Atom(source) && Key(r.value) == source && IsAtom(r.value)
    ensures r.Err? ==> r.msg == AtomCheckMessage
  {
    if PassesAtomCheck(source) then Ok(Atom(source)) else Err(AtomCheckMessage)
  }

  /** `key.replace(/(^<<)|(>>$)/g, '')`: drops a leading `<<`, then a trailing `>>` after it. */
  function StripDelimiters(k: string): (t: string)
  {
    var rest := if HasPrefix(k, "<<") then k[2..] else k;
    if HasSuffix(rest, ">>") then rest[..|rest| - 2] else rest
  }

  lemma StripDelimitersShape(k: string)
    ensures var t := StripDelimiters(k);
      |t| <= |k|
      && (!HasPrefix(k, "<<") && !HasSuffix(k, ">>") ==> t == k)
      && (IsStringLiteral(k) ==> t == k[2..|k| - 2])
  {
  }

  /** `concept.text`. */
  function Text(c: Concept): string
  {
    if IsAtom(c) then StripDelimiters(Key(c)) else Key(c)
  }

  predicate IsDirective(c: Concept)
  {
    IsAtom(c) && |Key(c)| > 0 && Key(c)[0] == '@'
  }

  predicate IsString(c: Concept)
  {
    IsAtom(c) && IsStringLiteral(Key(c))
  }

  predicate IsVariable(c: Concept)
  {
    IsAtom(c) && |Key(c)| > 0 && Key(c)[0] == '$'
  }

  /** `isPattern()`: a compound with some part that is a variable or a pattern. */
  predicate IsPattern(c: Concept)
    decreases c
  {
    IsCompound(c) && exists i :: 0 <= i < |Parts(c)| && (IsVariable(Parts(c)[i]) || IsPattern(Parts(c)[i]))
  }

  lemma PredicateFacts(c: Concept)
    ensures IsAtom(c) <==> |Parts(c)| == 0
    ensures IsVariable(c) <==> IsAtom(c) && HasPrefix(Key(c), "$")
    ensures IsDirective(c) <==> IsAtom(c) && HasPrefix(Key(c), "@")
    ensures IsVariable(c) ==> !IsPattern(c)
    ensures IsPattern(c) ==> IsCompound(c)
  {
  }

  // Ordering of set parts.

  /** `a.key.localeCompare(b.key) <= 0`, with code-unit order standing in for the collation. */
  predicate KeyLe(a: Concept, b: Concept)
  {
    Le(Key(a), Key(b))
  }

  predicate SortedByKey(s: seq<Concept>)
  {
    forall i, j :: 0 <= i < j < |s| ==> KeyLe(s[i], s[j])
  }

  /** Stable insertion of `x` before the first part ordered after it. */
  function Insert(x: Concept, s: seq<Concept>): (r: seq<Concept>)
    ensures multiset(r) == multiset(s) + multiset{x}
    ensures |r| == |s| + 1
  {
    if |s| == 0 then [x]
    else if KeyLe(x, s[0]) then [x] + s
    else
      assert s == [s[0]] + s[1..];
      [s[0]] + Insert(x, s[1..])
  }

  /** The stable sort by key that `Array.prototype.sort` performs with `localeCompare` (here code-unit order). */
  function SortByKey(s: seq<Concept>): (r: seq<Concept>)
    ensures multiset(r) == multiset(s)
    ensures |r| == |s|
  {
    if |s| == 0 then []
    else
      assert s == [s[0]] + s[1..];
      Insert(s[0], SortByKey(s[1..]))
  }

  lemma {:induction false} InsertSorted(x: Concept, s: seq<Concept>)
    requires SortedByKey(s)
    ensures SortedByKey(Insert(x, s))
  {
    if |s| > 0 && !KeyLe(x, s[0]) {
      InsertSorted(x, s[1..]);
      var t := Insert(x, s[1..]);
      LeTotal(Key(x), Key(s[0]));
      assert forall k :: 0 <= k < |s[1..]| ==> KeyLe(s[0], s[1..][k]);
      BoundPermuted(s[0], s[1..], x, t);
      ConsSorted(s[0], t);
    } else if |s| > 0 {
      forall j | 0 <= j < |s|
        ensures KeyLe(x, s[j])
      {
        if j > 0 {
          LeTransitive(Key(x), Key(s[0]), Key(s[j]));
        }
      }
      ConsSorted(x, s);
    }
  }

  /** A sorted list after a part ordered before all of it stays sorted. */
  lemma ConsSorted(h: Concept, t: seq<Concept>)
    requires SortedByKey(t)
    requires forall j :: 0 <= j < |t| ==> KeyLe(h, t[j])
    ensures SortedByKey([h] + t)
  {
    var r := [h] + t;
    forall i, j | 0 <= i < j < |r|
      ensures KeyLe(r[i], r[j])
    {
      if i > 0 {
        assert r[i] == t[i - 1] && r[j] == t[j - 1];
      }
    }
  }

  /** A bound below every element of `s` and below `x` is below every element of a permutation of `s + [x]`. */
  lemma BoundPermuted(b: Concept, s: seq<Concept>, x: Concept, t: seq<Concept>)
    requires multiset(t) == multiset(s) + multiset{x}
    requires KeyLe(b, x) && forall k :: 0 <= k < |s| ==> KeyLe(b, s[k])
    ensures forall j :: 0 <= j < |t| ==> KeyLe(b, t[j])
  {
    forall j | 0 <= j < |t|
      ensures KeyLe(b, t[j])
    {
      assert t[j] in multiset(t);
      if t[j] != x {
        assert t[j] in multiset(s);
        var k :| 0 <= k < |s| && s[k] == t[j];
      }
    }
  }

  lemma {:induction false} SortByKeySorted(s: seq<Concept>)
    ensures SortedByKey(SortByKey(s))
  {
    if |s| > 0 {
      SortByKeySorted(s[1..]);
      InsertSorted(s[0], SortByKey(s[1..]));
    }
  }

  /** Sorting an already sorted sequence changes nothing. */
  lemma {:induction false} SortByKeyOfSorted(s: seq<Concept>)
    requires SortedByKey(s)
    ensures SortByKey(s) == s
  {
    if |s| > 0 {
      SortByKeyOfSorted(s[1..]);
      assert s == [s[0]] + s[1..];
    }
  }

  function Keys(s: seq<Concept>): (ks: seq<string>)
    ensures |ks| == |s|
  {
    if |s| == 0 then [] else [Key(s[0])] + Keys(s[1..])
  }

  lemma {:induction false} KeysAt(s: seq<Concept>, i: nat)
    requires i < |s|
    ensures Keys(s)[i] == Key(s[i])
  {
    if i > 0 {
      KeysAt(s[1..], i - 1);
    }
  }

  lemma {:induction false} KeysMultiset(s: seq<Concept>, t: seq<Concept>)
    requires multiset(s) == multiset(t)
    ensures multiset(Keys(s)) == multiset(Keys(t))
    decreases |s|
  {
    if |s| > 0 {
      var x := s[0];
      assert x in multiset(t);
      var k :| 0 <= k < |t| && t[k] == x;
      var t' := t[..k] + t[k + 1..];
      assert t == t[..k] + [x] + t[k + 1..];
      assert multiset(t) == multiset(t') + multiset{x};
      assert s == [x] + s[1..];
      assert multiset(s) == multiset{x} + multiset(s[1..]);
      assert multiset(t) == multiset(t[..k]) + multiset{x} + multiset(t[k + 1..]);
      assert multiset(t') == multiset(t[..k]) + multiset(t[k + 1..]);
      MultisetCancel(multiset(s[1..]), multiset(t'), x);
      KeysMultiset(s[1..], t');
      KeysSplit(t[..k], x, t[k + 1..]);
      KeysConcat(t[..k], t[k + 1..]);
    }
  }

  lemma {:induction false} KeysConcat(a: seq<Concept>, b: seq<Concept>)
    ensures Keys(a + b) == Keys(a) + Keys(b)
  {
    if |a| > 0 {
      assert (a + b)[0] == a[0];
      assert (a + b)[1..] == a[1..] + b;
      KeysConcat(a[1..], b);
    } else {
      assert a + b == b;
    }
  }

  lemma KeysSplit(a: seq<Concept>, x: Concept, b: seq<Concept>)
    ensures Keys(a + [x] + b) == Keys(a) + [Key(x)] + Keys(b)
  {
    KeysConcat(a + [x], b);
    KeysConcat(a, [x]);
  }

  lemma MultisetCancel<T>(a: multiset<T>, b: multiset<T>, x: T)
    requires multiset{x} + a == multiset{x} + b || a + multiset{x} == b + multiset{x}
    ensures a == b
  {
    assert forall e :: (multiset{x} + a)[e] == multiset{x}[e] + a[e];
    assert forall e :: (multiset{x} + b)[e] == multiset{x}[e] + b[e];
    assert forall e :: (a + multiset{x})[e] == multiset{x}[e] + a[e];
    assert forall e :: (b + multiset{x})[e] == multiset{x}[e] + b[e];
    assert forall e :: a[e] == b[e];
  }

  predicate SortedStrings(s: seq<string>)
  {
    forall i, j :: 0 <= i < j < |s| ==> Le(s[i], s[j])
  }

  lemma {:induction false} SortedKeys(s: seq<Concept>)
    requires SortedByKey(s)
    ensures SortedStrings(Keys(s))
  {
    forall i, j | 0 <= i < j < |s|
      ensures Le(Keys(s)[i], Keys(s)[j])
    {
      KeysAt(s, i);
      KeysAt(s, j);
    }
  }

  /** Two sorted sequences of strings with the same elements are equal. */
  lemma {:induction false} SortedStringsUnique(a: seq<string>, b: seq<string>)
    requires SortedStrings(a) && SortedStrings(b)
    requires multiset(a) == multiset(b)
    ensures a == b
    decreases |a|
  {
    if |a| > 0 {
      assert |b| > 0 by {
        assert a[0] in multiset(b);
      }
      assert a[0] in multiset(b);
      assert b[0] in multiset(a);
      var i :| 0 <= i < |b| && b[i] == a[0];
      var j :| 0 <= j < |a| && a[j] == b[0];
      LeReflexive(a[0]);
      LeReflexive(b[0]);
      assert Le(b[0], b[i]);
      assert Le(a[0], a[j]);
      LeAntisymmetric(a[0], b[0]);
      assert a == [a[0]] + a[1..];
      assert b == [b[0]] + b[1..];
      assert multiset(a) == multiset{a[0]} + multiset(a[1..]);
      assert multiset(b) == multiset{b[0]} + multiset(b[1..]);
      MultisetCancel(multiset(a[1..]), multiset(b[1..]), a[0]);
      SortedStringsUnique(a[1..], b[1..]);
    }
  }

  // The constructor for an array source of concepts.

  /** The parts after the set operator is applied: `parts[1..]` sorted when `parts[0]` is `:`. */
  function Arrange(ps: seq<Concept>): seq<Concept>
    requires |ps| > 0
  {
    if Key(ps[0]) == ":" then [ps[0]] + SortByKey(ps[1..]) else ps
  }

  /**
   * `new Concept(parts)` for a non-empty array of concepts. The parts are
   * kept, except that a set compound's tail is sorted by key; a single part
   * is returned as it is.
   */
  function Build(ps: seq<Concept>): (c: Concept)
    requires |ps| > 0
    ensures |ps| == 1 ==> c == ps[0]
    ensures |ps| > 1 ==> c.Compound? && |c.parts| == |ps| && multiset(c.parts) == multiset(ps) && c.parts[0] == ps[0]
    ensures |ps| > 1 && Key(ps[0]) == ":" ==> SortedByKey(c.parts[1..])
    ensures |ps| > 1 && Key(ps[0]) != ":" ==> c.parts == ps
    ensures |ps| > 1 ==> Key(c) == JoinPartKeys(c.parts)
  {
    ArrangeFacts(ps);
    var arranged := Arrange(ps);
    if |arranged| == 1 then arranged[0] else Compound(arranged)
  }

  lemma ArrangeFacts(ps: seq<Concept>)
    requires |ps| > 0
    ensures |Arrange(ps)| == |ps| && multiset(Arrange(ps)) == multiset(ps) && Arrange(ps)[0] == ps[0]
    ensures Key(ps[0]) == ":" ==> SortedByKey(Arrange(ps)[1..])
    ensures Key(ps[0]) != ":" ==> Arrange(ps) == ps
  {
    if Key(ps[0]) == ":" {
      assert ps == [ps[0]] + ps[1..];
      SortByKeySorted(ps[1..]);
      assert Arrange(ps)[1..] == SortByKey(ps[1..]);
    }
  }

  /** `new Concept(parts)`, failing as `parts[0].key` does on an empty array. */
  function MakeCompound(ps: seq<Concept>): (r: Result<Concept>)
    ensures r.Err? <==> |ps| == 0
    ensures r.Ok? ==> r.value == Build(ps)
  {
    if |ps| == 0 then Err("Cannot read properties of undefined (reading 'key')") else Ok(Build(ps))
  }

  /**
   * Every ordering of a set compound's tail yields the same key, provided
   * parts sharing a key are bracketed alike (a string atom and a compound can
   * share a key; their relative order is then the input order).
   */
  lemma {:induction false} SetKeyCanonical(colon: Concept, ps: seq<Concept>, qs: seq<Concept>)
    requires Key(colon) == ":"
    requires multiset(ps) == multiset(qs)
    requires forall a, b :: a in ps && b in ps && Key(a) == Key(b) ==> IsAtom(a) == IsAtom(b)
    ensures Key(Build([colon] + ps)) == Key(Build([colon] + qs))
  {
    var sp := SortByKey(ps);
    var sq := SortByKey(qs);
    SortByKeySorted(ps);
    SortByKeySorted(qs);
    SortedKeys(sp);
    SortedKeys(sq);
    KeysMultiset(sp, sq);
    SortedStringsUnique(Keys(sp), Keys(sq));
    assert PartKeys(sp) == PartKeys(sq) by {
      forall i | 0 <= i < |sp|
        ensures PartKeys(sp)[i] == PartKeys(sq)[i]
      {
        KeysAt(sp, i);
        KeysAt(sq, i);
        PartKeysAt(sp, i);
        PartKeysAt(sq, i);
        assert sp[i] in multiset(ps);
        assert sq[i] in multiset(ps);
      }
    }
    if |ps| == 0 {
      assert |qs| == 0;
      assert [colon] + ps == [colon] + qs;
    } else {
      var cp := [colon] + ps;
      var cq := [colon] + qs;
      assert cp[1..] == ps && cq[1..] == qs;
      assert Arrange(cp) == [colon] + sp;
      assert Arrange(cq) == [colon] + sq;
      PartKeysAppend([colon], sp);
      PartKeysAppend([colon], sq);
    }
  }

  /** The constructor of a compound from the parts it already has changes nothing. */
  lemma BuildOfParts(c: Concept)
    requires WellFormed(c) && IsCompound(c)
    ensures Build(Parts(c)) == c
  {
    var ps := c.parts;
    ArrangeOfParts(ps);
    assert |Arrange(ps)| != 1;
  }

  /** Arranging parts that are already arranged keeps them. */
  lemma ArrangeOfParts(ps: seq<Concept>)
    requires |ps| > 0
    requires Key(ps[0]) == ":" ==> SortedByKey(ps[1..])
    ensures Arrange(ps) == ps
  {
    if Key(ps[0]) == ":" {
      SortByKeyOfSorted(ps[1..]);
      assert ps == [ps[0]] + ps[1..];
    }
  }

  /**
   * The shape every constructed concept has: atoms pass the atom check,
   * compounds have at least two well-formed parts and sorted set tails.
   */
  predicate WellFormed(c: Concept)
    decreases c
  {
    match c
    case Atom(k) => PassesAtomCheck(k)
    case Compound(ps) =>
      |ps| >= 2 && (forall i :: 0 <= i < |ps| ==> WellFormed(ps[i]))
      && (Key(ps[0]) == ":" ==> SortedByKey(ps[1..]))
  }

  /** The constructor keeps concepts well-formed. */
  lemma BuildWellFormed(ps: seq<Concept>)
    requires |ps| > 0
    requires forall i :: 0 <= i < |ps| ==> WellFormed(ps[i])
    ensures WellFormed(Build(ps))
  {
    var c := Build(ps);
    if |ps| > 1 {
      forall i | 0 <= i < |c.parts|
        ensures WellFormed(c.parts[i])
      {
        assert c.parts[i] in multiset(ps);
      }
    }
  }

  // Deduplication by key, in the order of a `Map` keyed by `concept.key`.

  /** Position of the entry with key `k`, if any. */
  function IndexOfKey(entries: seq<Concept>, k: string): (i: nat)
    ensures i <= |entries|
    ensures i < |entries| ==> Key(entries[i]) == k
    ensures forall j :: 0 <= j < i ==> Key(entries[j]) != k
  {
    if |entries| == 0 then 0
    else if Key(entries[0]) == k then 0
    else 1 + IndexOfKey(entries[1..], k)
  }

  /** `map.set(c.key, c)` on the values of an insertion-ordered `Map`. */
  function SetByKey(entries: seq<Concept>, c: Concept): (r: seq<Concept>)
  {
    var i := IndexOfKey(entries, Key(c));
    if i < |entries| then entries[i := c] else entries + [c]
  }

  predicate DistinctKeys(s: seq<Concept>)
  {
    forall i, j :: 0 <= i < j < |s| ==> Key(s[i]) != Key(s[j])
  }

  function KeySet(s: seq<Concept>): set<string>
  {
    set i | 0 <= i < |s| :: Key(s[i])
  }

  lemma SetByKeyFacts(entries: seq<Concept>, c: Concept)
    requires DistinctKeys(entries)
    ensures DistinctKeys(SetByKey(entries, c))
    ensures KeySet(SetByKey(entries, c)) == KeySet(entries) + {Key(c)}
    ensures c in SetByKey(entries, c)
    ensures forall x :: x in SetByKey(entries, c) ==> x in entries || x == c
  {
    var i := IndexOfKey(entries, Key(c));
    if i < |entries| {
      ReplaceKeyed(entries, i, c);
    } else {
      AppendKeyed(entries, c);
    }
  }

  /** Replacing the entry with `c`'s key by `c`. */
  lemma ReplaceKeyed(entries: seq<Concept>, i: nat, c: Concept)
    requires DistinctKeys(entries) && i < |entries| && Key(entries[i]) == Key(c)
    ensures DistinctKeys(entries[i := c])
    ensures KeySet(entries[i := c]) == KeySet(entries) + {Key(c)}
    ensures c in entries[i := c]
    ensures forall x :: x in entries[i := c] ==> x in entries || x == c
  {
    var r := entries[i := c];
    assert r[i] == c;
    forall k | k in KeySet(entries) + {Key(c)}
      ensures k in KeySet(r)
    {
      if k != Key(c) {
        var j :| 0 <= j < |entries| && Key(entries[j]) == k;
        assert r[j] == entries[j];
      }
    }
  }

  /** Appending `c`, whose key no entry has. */
  lemma AppendKeyed(entries: seq<Concept>, c: Concept)
    requires DistinctKeys(entries) && forall j :: 0 <= j < |entries| ==> Key(entries[j]) != Key(c)
    ensures DistinctKeys(entries + [c])
    ensures KeySet(entries + [c]) == KeySet(entries) + {Key(c)}
    ensures c in entries + [c]
    ensures forall x :: x in entries + [c] ==> x in entries || x == c
  {
    var r := entries + [c];
    assert r[|entries|] == c;
    forall k | k in KeySet(entries)
      ensures k in KeySet(r)
    {
      var j :| 0 <= j < |entries| && Key(entries[j]) == k;
      assert r[j] == entries[j];
    }
  }

  /** The values of the `Map` filled by `filterUniqueConcepts`. */
  function UniqueByKey(s: seq<Concept>): seq<Concept>
  {
    if |s| == 0 then [] else SetByKey(UniqueByKey(s[..|s| - 1]), s[|s| - 1])
  }

  /**
   * The output of `filterUniqueConcepts` has pairwise-distinct keys, the same
   * key set as its input, and only concepts from its input.
   */
  lemma {:induction false} UniqueByKeyFacts(s: seq<Concept>)
    ensures DistinctKeys(UniqueByKey(s))
    ensures KeySet(UniqueByKey(s)) == KeySet(s)
    ensures forall x :: x in UniqueByKey(s) ==> x in s
  {
    if |s| > 0 {
      var init := s[..|s| - 1];
      UniqueByKeyFacts(init);
      SetByKeyFacts(UniqueByKey(init), s[|s| - 1]);
      assert s == init + [s[|s| - 1]];
      assert KeySet(s) == KeySet(init) + {Key(s[|s| - 1])} by {
        forall k | k in KeySet(s)
          ensures k in KeySet(init) + {Key(s[|s| - 1])}
        {
          var j :| 0 <= j < |s| && Key(s[j]) == k;
          if j < |s| - 1 {
            assert init[j] == s[j];
          }
        }
        forall k | k in KeySet(init)
          ensures k in KeySet(s)
        {
          var j :| 0 <= j < |init| && Key(init[j]) == k;
          assert s[j] == init[j];
        }
      }
    }
  }

  lemma {:induction false} IndexOfKeyAbsent(entries: seq<Concept>, k: string)
    requires k !in KeySet(entries)
    ensures IndexOfKey(entries, k) == |entries|
  {
    if |entries| > 0 {
      assert Key(entries[0]) in KeySet(entries);
      assert KeySet(entries[1..]) <= KeySet(entries) by {
        forall k' | k' in KeySet(entries[1..])
          ensures k' in KeySet(entries)
        {
          var j :| 0 <= j < |entries[1..]| && Key(entries[1..][j]) == k';
          assert entries[j + 1] == entries[1..][j];
        }
      }
      IndexOfKeyAbsent(entries[1..], k);
    }
  }

  lemma SetByKeyFresh(entries: seq<Concept>, c: Concept)
    requires Key(c) !in KeySet(entries)
    ensures SetByKey(entries, c) == entries + [c]
  {
    IndexOfKeyAbsent(entries, Key(c));
  }

  /** A sequence whose keys are already distinct is its own deduplication. */
  lemma {:induction false} UniqueByKeyOfDistinct(s: seq<Concept>)
    requires DistinctKeys(s)
    ensures UniqueByKey(s) == s
  {
    if |s| > 0 {
      var init := s[..|s| - 1];
      UniqueByKeyOfDistinct(init);
      assert Key(s[|s| - 1]) !in KeySet(init) by {
        forall j | 0 <= j < |init|
          ensures Key(init[j]) != Key(s[|s| - 1])
        {
          assert s[j] == init[j];
        }
      }
      SetByKeyFresh(init, s[|s| - 1]);
      assert s == init + [s[|s| - 1]];
    }
  }

  /** `filterUniqueConcepts` is idempotent. */
  lemma UniqueByKeyIdempotent(s: seq<Concept>)
    ensures UniqueByKey(UniqueByKey(s)) == UniqueByKey(s)
  {
    UniqueByKeyFacts(s);
    UniqueByKeyOfDistinct(UniqueByKey(s));
  }

  /** `filterUniqueConcepts`: the `forEach` filling a `Map` keyed by `concept.key`. */
  method FilterUniqueConcepts(concepts: seq<Concept>) returns (r: seq<Concept>)
    ensures r == UniqueByKey(concepts)
  {
    r := [];
    var i := 0;
    while i < |concepts|
      invariant 0 <= i <= |concepts|
      invariant r == UniqueByKey(concepts[..i])
    {
      assert concepts[..i + 1][..i] == concepts[..i];
      r := SetByKey(r, concepts[i]);
      i := i + 1;
    }
    assert concepts[..|concepts|] == concepts;
  }

  // Deep traversal.

  /** `x` is `c` or a transitive part of `c`. */
  predicate SubConcept(x: Concept, c: Concept)
    decreases c
  {
    x == c || exists i :: 0 <= i < |Parts(c)| && SubConcept(x, Parts(c)[i])
  }

  /** `recurse(concepts)` of `getConceptsDeep`, on the values of its `Map`. */
  function DeepFold(acc: seq<Concept>, cs: seq<Concept>): seq<Concept>
    decreases cs, 1
  {
    if |cs| == 0 then acc else DeepFold(DeepVisit(acc, cs[0]), cs[1..])
  }

  /** One iteration of the loop: `map.set(concept.key, concept)`, then the parts. */
  function DeepVisit(acc: seq<Concept>, c: Concept): seq<Concept>
    decreases c, 0
  {
    match c
    case Atom(_) => SetByKey(acc, c)
    case Compound(ps) => DeepFold(SetByKey(acc, c), ps)
  }

  /** The keys of `c` and of all its transitive parts. */
  function DeepKeys(c: Concept): set<string>
    decreases c, 0
  {
    match c
    case Atom(_) => {Key(c)}
    case Compound(ps) => {Key(c)} + DeepKeysAll(ps)
  }

  function DeepKeysAll(cs: seq<Concept>): set<string>
    decreases cs, 1
  {
    if |cs| == 0 then {} else DeepKeys(cs[0]) + DeepKeysAll(cs[1..])
  }

  lemma {:induction false} DeepFoldFacts(acc: seq<Concept>, cs: seq<Concept>)
    requires DistinctKeys(acc)
    ensures DistinctKeys(DeepFold(acc, cs))
    ensures KeySet(DeepFold(acc, cs)) == KeySet(acc) + DeepKeysAll(cs)
    ensures forall x :: x in DeepFold(acc, cs) ==> x in acc || exists i :: 0 <= i < |cs| && SubConcept(x, cs[i])
    decreases cs, 1
  {
    if |cs| > 0 {
      DeepVisitFacts(acc, cs[0]);
      DeepFoldFacts(DeepVisit(acc, cs[0]), cs[1..]);
      forall x | x in DeepFold(acc, cs)
        ensures x in acc || exists i :: 0 <= i < |cs| && SubConcept(x, cs[i])
      {
        if x !in DeepVisit(acc, cs[0]) {
          var i :| 0 <= i < |cs[1..]| && SubConcept(x, cs[1..][i]);
          assert SubConcept(x, cs[i + 1]);
        } else if x !in acc {
          assert SubConcept(x, cs[0]);
        }
      }
    }
  }

  lemma {:induction false} DeepVisitFacts(acc: seq<Concept>, c: Concept)
    requires DistinctKeys(acc)
    ensures DistinctKeys(DeepVisit(acc, c))
    ensures KeySet(DeepVisit(acc, c)) == KeySet(acc) + DeepKeys(c)
    ensures forall x :: x in DeepVisit(acc, c) ==> x in acc || SubConcept(x, c)
    decreases c, 0
  {
    SetByKeyFacts(acc, c);
    if c.Compound? {
      DeepFoldFacts(SetByKey(acc, c), c.parts);
    }
    forall x | x in DeepVisit(acc, c)
      ensures x in acc || SubConcept(x, c)
    {
      if x !in SetByKey(acc, c) {
        var i :| 0 <= i < |Parts(c)| && SubConcept(x, Parts(c)[i]);
      }
    }
  }

  /** The values of the `Map` built by `getConceptsDeep`. */
  function ConceptsDeep(cs: seq<Concept>): seq<Concept>
  {
    DeepFold([], cs)
  }

  /**
   * `getConceptsDeep` holds every input and every transitive part, each key
   * exactly once, and nothing else.
   */
  lemma ConceptsDeepFacts(cs: seq<Concept>)
    ensures DistinctKeys(ConceptsDeep(cs))
    ensures KeySet(ConceptsDeep(cs)) == DeepKeysAll(cs)
    ensures forall x :: x in ConceptsDeep(cs) ==> exists i :: 0 <= i < |cs| && SubConcept(x, cs[i])
  {
    DeepFoldFacts([], cs);
  }

  /** A key is in `DeepKeys(c)` exactly when it is the key of a sub-concept of `c`. */
  lemma {:induction false} DeepKeysSubConcept(x: Concept, c: Concept)
    requires SubConcept(x, c)
    ensures Key(x) in DeepKeys(c)
    decreases c
  {
    if x != c {
      var i :| 0 <= i < |Parts(c)| && SubConcept(x, Parts(c)[i]);
      DeepKeysSubConcept(x, Parts(c)[i]);
      DeepKeysAllMember(Parts(c), i);
    }
  }

  lemma {:induction false} DeepKeysAllMember(cs: seq<Concept>, i: nat)
    requires i < |cs|
    ensures DeepKeys(cs[i]) <= DeepKeysAll(cs)
  {
    if i > 0 {
      DeepKeysAllMember(cs[1..], i - 1);
    }
  }

  /** `getConceptsDeep`: the recursive `for ... of` loop filling one `Map`. */
  method GetConceptsDeep(concepts: seq<Concept>) returns (r: seq<Concept>)
    ensures r == ConceptsDeep(concepts)
  {
    r := DeepInto([], concepts);
  }

  /** `recurse(concepts)`, threading the `Map` values through. */
  method DeepInto(acc: seq<Concept>, concepts: seq<Concept>) returns (r: seq<Concept>)
    ensures r == DeepFold(acc, concepts)
    decreases concepts
  {
    r := acc;
    var i := 0;
    while i < |concepts|
      invariant 0 <= i <= |concepts|
      invariant DeepFold(acc, concepts) == DeepFold(r, concepts[i..])
    {
      assert concepts[i..][1..] == concepts[i + 1..];
      var c := concepts[i];
      r := SetByKey(r, c);
      if c.Compound? {
        r := DeepInto(r, c.parts);
      }
      i := i + 1;
    }
  }
}
