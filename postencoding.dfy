/**
 * The bracket "post-encoding" of concept keys used in storage keys
 * (apps/api/src/lib/keys.ts). A key is written as the key with every `[`
 * and `]` removed, followed by `|` and the positions of its `[`, and `|`
 * and the positions of its `]`, each list joined by `;`. Decoding puts the
 * brackets back, in order of position.
 */
module PostEncoding {
  import opened Wrappers
  import opened Strings

  predicate IsBracket(ch: char)
  {
    ch == '[' || ch == ']'
  }

  /** `key.replace(/\[|\]/g, '')`. */
  function Stripped(s: string): (t: string)
    ensures |t| <= |s|
    ensures forall i :: 0 <= i < |t| ==> !IsBracket(t[i])
  {
    if |s| == 0 then ""
    else Stripped(s[..|s| - 1]) + (if IsBracket(s[|s| - 1]) then "" else [s[|s| - 1]])
  }

  /** The positions of `ch` in `s`, in ascending order. */
  function Positions(s: string, ch: char): (ps: seq<nat>)
    ensures forall i :: 0 <= i < |ps| ==> ps[i] < |s| && s[ps[i]] == ch
    ensures forall i, j :: 0 <= i < j < |ps| ==> ps[i] < ps[j]
  {
    if |s| == 0 then []
    else Positions(s[..|s| - 1], ch) + (if s[|s| - 1] == ch then [|s| - 1] else [])
  }

  /** The decimal numerals of a list of positions. */
  function Numerals(ps: seq<nat>): (ss: seq<string>)
    ensures |ss| == |ps|
    ensures forall i :: 0 <= i < |ps| ==> ss[i] == NatToString(ps[i])
  {
    if |ps| == 0 then [] else [NatToString(ps[0])] + Numerals(ps[1..])
  }

  function PositionList(s: string, ch: char): string
  {
    Join(Numerals(Positions(s, ch)), ";")
  }

  /** What `toPostEncoding(key)` returns. */
  function PostEncode(key: string): string
  {
    Join([Stripped(key), PositionList(key, '['), PositionList(key, ']')], "|")
  }

  /** `toPostEncoding`: the regular-expression loop collects the bracket positions. */
  method ToPostEncoding(key: string) returns (r: string)
    ensures r == PostEncode(key)
  {
    var opens: seq<nat> := [];
    var closes: seq<nat> := [];
    var i := 0;
    while i < |key|
      invariant 0 <= i <= |key|
      invariant opens == Positions(key[..i], '[')
      invariant closes == Positions(key[..i], ']')
    {
      assert key[..i + 1][..i] == key[..i];
      if key[i] == '[' {
        opens := opens + [i];
      } else if key[i] == ']' {
        closes := closes + [i];
      }
      i := i + 1;
    }
    assert key[..|key|] == key;
    r := Join([Stripped(key), Join(Numerals(opens), ";"), Join(Numerals(closes), ";")], "|");
  }

  // Decoding.

  /** A bracket to put back; `index` is `None` where `parseInt` gives `NaN`. */
  datatype Replacement = Replacement(index: Option<nat>, value: char)

  function ParseIndexes(fields: seq<string>): (r: seq<Option<nat>>)
    ensures |r| == |fields|
    ensures forall i :: 0 <= i < |fields| ==> r[i] == ParseNat(fields[i])
  {
    if |fields| == 0 then [] else [ParseNat(fields[0])] + ParseIndexes(fields[1..])
  }

  /** The indexes of one field: none for an empty field, else one per `;`-separated numeral. */
  function Indexes(field: string): seq<Option<nat>>
  {
    if |field| == 0 then [] else ParseIndexes(Split(field, ';'))
  }

  function Tag(ixs: seq<Option<nat>>, value: char): (rs: seq<Replacement>)
    ensures |rs| == |ixs|
    ensures forall i :: 0 <= i < |ixs| ==> rs[i] == Replacement(ixs[i], value)
  {
    if |ixs| == 0 then [] else [Replacement(ixs[0], value)] + Tag(ixs[1..], value)
  }

  /** `split.slice(-2)`. */
  function LastTwo(fields: seq<string>): seq<string>
  {
    if |fields| >= 2 then fields[|fields| - 2..] else fields
  }

  /** `split.slice(0, -2)`. */
  function AllButLastTwo(fields: seq<string>): seq<string>
  {
    if |fields| >= 2 then fields[..|fields| - 2] else []
  }

  /** The `flatMap` over the last two fields: the first gives `[`, the second `]`. */
  function Unsorted(fields: seq<string>): seq<Replacement>
  {
    var t := LastTwo(fields);
    (if |t| > 0 then Tag(Indexes(t[0]), '[') else [])
      + (if |t| > 1 then Tag(Indexes(t[1]), ']') else [])
  }

  /** The comparator `a.index - b.index`; a `NaN` result counts as `0`. */
  function Compare(a: Replacement, b: Replacement): int
  {
    if a.index.Some? && b.index.Some? then a.index.value - b.index.value else 0
  }

  /** Insert `x` before the first element that does not sort below it. */
  function InsertReplacement(x: Replacement, s: seq<Replacement>): (r: seq<Replacement>)
    ensures |r| == |s| + 1
    ensures forall y :: y in r <==> y == x || y in s
  {
    if |s| == 0 || Compare(x, s[0]) <= 0 then [x] + s
    else [s[0]] + InsertReplacement(x, s[1..])
  }

  /** The stable `sort` of the replacements. */
  function SortReplacements(rs: seq<Replacement>): (r: seq<Replacement>)
    ensures |r| == |rs|
    ensures forall y :: y in r <==> y in rs
  {
    if |rs| == 0 then [] else InsertReplacement(rs[0], SortReplacements(rs[1..]))
  }

  /** Where `slice` cuts for an index: `NaN` reads as 0, past the end as the end. */
  function Cut(index: Option<nat>, n: nat): (j: nat)
    ensures j <= n
  {
    match index
    case None => 0
    case Some(i) => if i <= n then i else n
  }

  /** `out.slice(0, index) + value + out.slice(index)`. */
  function InsertAt(out: string, r: Replacement): (t: string)
    ensures |t| == |out| + 1
  {
    var j := Cut(r.index, |out|);
    out[..j] + [r.value] + out[j..]
  }

  function PutBack(out: string, rs: seq<Replacement>): string
    decreases |rs|
  {
    if |rs| == 0 then out else PutBack(InsertAt(out, rs[0]), rs[1..])
  }

  /** What `fromPostEncoding(encoded)` returns. */
  function PostDecode(encoded: string): string
  {
    var fields := Split(encoded, '|');
    PutBack(Join(AllButLastTwo(fields), "|"), SortReplacements(Unsorted(fields)))
  }

  /** `fromPostEncoding`: the `forEach` puts the brackets back one by one. */
  method FromPostEncoding(encoded: string) returns (out: string)
    ensures out == PostDecode(encoded)
  {
    var fields := Split(encoded, '|');
    var replacements := SortReplacements(Unsorted(fields));
    out := Join(AllButLastTwo(fields), "|");
    var i := 0;
    while i < |replacements|
      invariant 0 <= i <= |replacements|
      invariant PutBack(out, replacements[i..]) == PostDecode(encoded)
    {
      assert replacements[i..][1..] == replacements[i + 1..];
      out := InsertAt(out, replacements[i]);
      i := i + 1;
    }
  }

  // The round trip.

  lemma {:induction false} JoinAppend(xs: seq<string>, ys: seq<string>, sep: string)
    requires |xs| > 0 && |ys| > 0
    ensures Join(xs + ys, sep) == Join(xs, sep) + sep + Join(ys, sep)
  {
    if |xs| > 1 {
      assert (xs + ys)[1..] == xs[1..] + ys;
      JoinAppend(xs[1..], ys, sep);
    }
  }

  lemma JoinThree(s: string, a: string, b: string, sep: string)
    ensures Join([s, a, b], sep) == s + sep + (a + sep + b)
  {
    assert [s, a, b][1..] == [a, b];
    assert [a, b][1..] == [b];
    assert Join([b], sep) == b;
  }

  lemma {:induction false} StrippedAppend(a: string, b: string)
    ensures Stripped(a + b) == Stripped(a) + Stripped(b)
  {
    if |b| > 0 {
      assert (a + b)[..|a + b| - 1] == a + b[..|b| - 1];
      StrippedAppend(a, b[..|b| - 1]);
    } else {
      assert a + b == a;
    }
  }

  lemma {:induction false} StrippedPlain(s: string)
    requires forall i :: 0 <= i < |s| ==> !IsBracket(s[i])
    ensures Stripped(s) == s
  {
    if |s| > 0 {
      StrippedPlain(s[..|s| - 1]);
    }
  }

  lemma {:induction false} PositionsComplete(s: string, ch: char)
    ensures forall q :: 0 <= q < |s| && s[q] == ch ==> q in Positions(s, ch)
  {
    if |s| > 0 {
      PositionsComplete(s[..|s| - 1], ch);
    }
  }

  lemma NumeralsLack(ps: seq<nat>, c: char)
    requires !IsDigit(c)
    ensures forall k :: 0 <= k < |Numerals(ps)| ==> c !in Numerals(ps)[k]
  {
  }

  lemma {:induction false} ParseNumerals(ps: seq<nat>)
    ensures ParseIndexes(Numerals(ps)) == Somes(ps)
  {
    if |ps| > 0 {
      ParseNumerals(ps[1..]);
      ParseNatToString(ps[0]);
    }
  }

  function Somes(ps: seq<nat>): (r: seq<Option<nat>>)
    ensures |r| == |ps|
    ensures forall i :: 0 <= i < |ps| ==> r[i] == Some(ps[i])
  {
    if |ps| == 0 then [] else [Some(ps[0])] + Somes(ps[1..])
  }

  /** A position list reads back as its positions. */
  lemma PositionListRead(ps: seq<nat>)
    ensures Indexes(Join(Numerals(ps), ";")) == Somes(ps)
  {
    var ns := Numerals(ps);
    if |ps| > 0 {
      assert |Join(ns, ";")| > 0 by {
        assert |ns| == 1 ==> Join(ns, ";") == ns[0];
        assert |ns| > 1 ==> Join(ns, ";") == ns[0] + ";" + Join(ns[1..], ";");
      }
      NumeralsLack(ps, ';');
      SplitJoin(ns, ';');
      ParseNumerals(ps);
    }
  }

  lemma {:induction false} JoinDigitsLack(ss: seq<string>, c: char)
    requires !IsDigit(c) && c != ';'
    requires forall k :: 0 <= k < |ss| ==> forall j :: 0 <= j < |ss[k]| ==> IsDigit(ss[k][j])
    ensures c !in Join(ss, ";")
  {
    forall k | 0 <= k < |ss|
      ensures c !in ss[k]
    {
    }
    JoinLacks(ss, ";", c);
  }

  /** The fields an encoding splits into: those of the stripped key, then the two lists. */
  lemma EncodedFields(key: string)
    ensures Split(PostEncode(key), '|')
      == Split(Stripped(key), '|') + [PositionList(key, '['), PositionList(key, ']')]
  {
    var s, a, b := Stripped(key), PositionList(key, '['), PositionList(key, ']');
    var fs := Split(s, '|');
    JoinThree(s, a, b, "|");
    JoinSplit(s, '|');
    JoinAppend(fs, [a, b], "|");
    assert Join(fs + [a, b], "|") == PostEncode(key);
    SplitFieldsLackSeparator(s, '|');
    JoinDigitsLack(Numerals(Positions(key, '[')), '|');
    JoinDigitsLack(Numerals(Positions(key, ']')), '|');
    forall k | 0 <= k < |fs + [a, b]|
      ensures '|' !in (fs + [a, b])[k]
    {
      if k < |fs| {
        assert (fs + [a, b])[k] == fs[k] && fs[k] in fs;
      }
    }
    SplitJoin(fs + [a, b], '|');
  }

  /** The brackets of `key`, as the decoder collects them. */
  function Brackets(key: string): seq<Replacement>
  {
    Tag(Somes(Positions(key, '[')), '[') + Tag(Somes(Positions(key, ']')), ']')
  }

  lemma EncodedReplacements(key: string)
    ensures Unsorted(Split(PostEncode(key), '|')) == Brackets(key)
    ensures AllButLastTwo(Split(PostEncode(key), '|')) == Split(Stripped(key), '|')
  {
    EncodedFields(key);
    var fs := Split(Stripped(key), '|');
    var all := fs + [PositionList(key, '['), PositionList(key, ']')];
    assert LastTwo(all) == [PositionList(key, '['), PositionList(key, ']')];
    assert all[..|all| - 2] == fs;
    PositionListRead(Positions(key, '['));
    PositionListRead(Positions(key, ']'));
  }

  /** Every element has an index, and the indexes strictly increase. */
  predicate Ascending(rs: seq<Replacement>)
  {
    (forall i :: 0 <= i < |rs| ==> rs[i].index.Some?)
    && forall i, j :: 0 <= i < j < |rs| ==> rs[i].index.value < rs[j].index.value
  }

  lemma AscendingCons(h: Replacement, t: seq<Replacement>)
    requires Ascending(t) && h.index.Some?
    requires forall y :: y in t ==> h.index.value < y.index.value
    ensures Ascending([h] + t)
  {
    var r := [h] + t;
    forall i, j | 0 <= i < j < |r|
      ensures r[i].index.value < r[j].index.value
    {
      assert r[j] == t[j - 1] && t[j - 1] in t;
      if i > 0 {
        assert r[i] == t[i - 1];
      }
    }
  }

  lemma {:induction false} InsertAscending(x: Replacement, s: seq<Replacement>)
    requires Ascending(s) && x.index.Some?
    requires forall y :: y in s ==> y.index != x.index
    ensures Ascending(InsertReplacement(x, s))
  {
    if |s| == 0 {
    } else if Compare(x, s[0]) > 0 {
      InsertAscending(x, s[1..]);
      forall y | y in InsertReplacement(x, s[1..])
        ensures s[0].index.value < y.index.value
      {
        if y != x {
          var k :| 0 <= k < |s[1..]| && s[1..][k] == y;
          assert y == s[k + 1];
        }
      }
      AscendingCons(s[0], InsertReplacement(x, s[1..]));
    } else {
      forall y | y in s
        ensures x.index.value < y.index.value
      {
        var k :| 0 <= k < |s| && s[k] == y;
        assert k > 0 ==> s[0].index.value < s[k].index.value;
        assert s[0] in s;
      }
      AscendingCons(x, s);
    }
  }

  /** Indexes pairwise distinct and all present. */
  predicate DistinctIndexes(rs: seq<Replacement>)
  {
    (forall i :: 0 <= i < |rs| ==> rs[i].index.Some?)
    && forall i, j :: 0 <= i < j < |rs| ==> rs[i].index != rs[j].index
  }

  lemma {:induction false} SortAscending(rs: seq<Replacement>)
    requires DistinctIndexes(rs)
    ensures Ascending(SortReplacements(rs))
  {
    if |rs| > 0 {
      SortAscending(rs[1..]);
      forall y | y in SortReplacements(rs[1..])
        ensures y.index != rs[0].index
      {
        var k :| 0 <= k < |rs[1..]| && rs[1..][k] == y;
        assert y == rs[k + 1];
      }
      InsertAscending(rs[0], SortReplacements(rs[1..]));
    }
  }

  lemma BracketsDistinct(key: string)
    ensures DistinctIndexes(Brackets(key))
  {
    var a, b := Tag(Somes(Positions(key, '[')), '['), Tag(Somes(Positions(key, ']')), ']');
    var rs := a + b;
    forall i, j | 0 <= i < j < |rs|
      ensures rs[i].index != rs[j].index
    {
      if j < |a| {
        assert rs[i] == a[i] && rs[j] == a[j];
      } else if i >= |a| {
        assert rs[i] == b[i - |a|] && rs[j] == b[j - |a|];
      } else {
        assert rs[i] == a[i] && rs[j] == b[j - |a|];
      }
    }
  }

  lemma BracketsSound(key: string)
    ensures forall r :: r in Brackets(key) ==>
      r.index.Some? && r.index.value < |key| && key[r.index.value] == r.value && IsBracket(r.value)
  {
    var a, b := Tag(Somes(Positions(key, '[')), '['), Tag(Somes(Positions(key, ']')), ']');
    var rs := a + b;
    forall r: Replacement | r in rs
      ensures r.index.Some? && r.index.value < |key| && key[r.index.value] == r.value && IsBracket(r.value)
    {
      var k :| 0 <= k < |rs| && rs[k] == r;
      if k >= |a| {
        assert r == b[k - |a|];
      } else {
        assert r == a[k];
      }
    }
  }

  lemma BracketsComplete(key: string)
    ensures forall q :: 0 <= q < |key| && IsBracket(key[q]) ==> Replacement(Some(q), key[q]) in Brackets(key)
  {
    var os, cs := Positions(key, '['), Positions(key, ']');
    var a, b := Tag(Somes(os), '['), Tag(Somes(cs), ']');
    var rs := a + b;
    PositionsComplete(key, '[');
    PositionsComplete(key, ']');
    forall q | 0 <= q < |key| && IsBracket(key[q])
      ensures Replacement(Some(q), key[q]) in rs
    {
      if key[q] == '[' {
        var k :| 0 <= k < |os| && os[k] == q;
        assert rs[k] == a[k];
      } else {
        var k :| 0 <= k < |cs| && cs[k] == q;
        assert rs[|a| + k] == b[k];
      }
    }
  }

  /** `key` with its first `n` characters as they are and the rest stripped. */
  function Partial(key: string, n: nat): string
    requires n <= |key|
  {
    key[..n] + Stripped(key[n..])
  }

  /** Putting back the first bracket at or after `n`. */
  lemma InsertNext(key: string, n: nat, p: nat)
    requires n <= p < |key| && IsBracket(key[p])
    requires forall q :: n <= q < p ==> !IsBracket(key[q])
    ensures InsertAt(Partial(key, n), Replacement(Some(p), key[p])) == Partial(key, p + 1)
  {
    assert key[n..] == key[n..p] + [key[p]] + key[p + 1..];
    StrippedAppend(key[n..p] + [key[p]], key[p + 1..]);
    StrippedAppend(key[n..p], [key[p]]);
    StrippedPlain(key[n..p]);
    assert Stripped([key[p]]) == "" by {
      assert [key[p]][..0] == "";
    }
    var out := Partial(key, n);
    assert out == key[..p] + Stripped(key[p + 1..]);
    assert out[..p] == key[..p];
    assert out[p..] == Stripped(key[p + 1..]);
    assert key[..p] + [key[p]] == key[..p + 1];
  }

  /** What is left after the first replacement, from position `p + 1` on. */
  lemma ApplyRest(key: string, p: nat, rs: seq<Replacement>)
    requires |rs| > 0 && Ascending(rs) && rs[0].index == Some(p)
    requires forall q :: p <= q < |key| && IsBracket(key[q]) ==> Replacement(Some(q), key[q]) in rs
    ensures forall r :: r in rs[1..] ==> r in rs && p + 1 <= r.index.value
    ensures forall q :: p + 1 <= q < |key| && IsBracket(key[q]) ==> Replacement(Some(q), key[q]) in rs[1..]
  {
    forall r | r in rs[1..]
      ensures r in rs && p + 1 <= r.index.value
    {
      var k :| 0 <= k < |rs[1..]| && rs[1..][k] == r;
      assert r == rs[k + 1];
    }
    forall q | p + 1 <= q < |key| && IsBracket(key[q])
      ensures Replacement(Some(q), key[q]) in rs[1..]
    {
      var k :| 0 <= k < |rs| && rs[k] == Replacement(Some(q), key[q]);
      assert k != 0;
      assert rs[1..][k - 1] == rs[k];
    }
  }

  /** No bracket lies between `n` and the first replacement. */
  lemma ApplyFirst(key: string, n: nat, rs: seq<Replacement>)
    requires |rs| > 0 && Ascending(rs)
    requires forall q :: n <= q < |key| && IsBracket(key[q]) ==> Replacement(Some(q), key[q]) in rs
    ensures forall q :: n <= q < |key| && IsBracket(key[q]) ==> rs[0].index.value <= q
  {
    forall q | n <= q < |key| && IsBracket(key[q])
      ensures rs[0].index.value <= q
    {
      var k :| 0 <= k < |rs| && rs[k] == Replacement(Some(q), key[q]);
      assert k > 0 ==> rs[0].index.value < rs[k].index.value;
    }
  }

  lemma {:induction false} ApplyBrackets(key: string, n: nat, rs: seq<Replacement>)
    requires n <= |key| && Ascending(rs)
    requires forall r :: r in rs ==>
      r.index.Some? && n <= r.index.value < |key| && key[r.index.value] == r.value && IsBracket(r.value)
    requires forall q :: n <= q < |key| && IsBracket(key[q]) ==> Replacement(Some(q), key[q]) in rs
    ensures PutBack(Partial(key, n), rs) == key
    decreases |rs|
  {
    if |rs| == 0 {
      StrippedPlain(key[n..]);
      assert key[..n] + key[n..] == key;
    } else {
      assert rs[0] in rs;
      var p := rs[0].index.value;
      ApplyFirst(key, n, rs);
      InsertNext(key, n, p);
      assert rs[0] == Replacement(Some(p), key[p]);
      ApplyRest(key, p, rs);
      assert Ascending(rs[1..]) by {
        forall i | 0 <= i < |rs[1..]|
          ensures rs[1..][i] == rs[i + 1]
        {
        }
      }
      ApplyBrackets(key, p + 1, rs[1..]);
    }
  }

  /** `fromPostEncoding(toPostEncoding(key)) == key`, for every key. */
  lemma PostDecodeEncode(key: string)
    ensures PostDecode(PostEncode(key)) == key
  {
    EncodedReplacements(key);
    JoinSplit(Stripped(key), '|');
    BracketsDistinct(key);
    BracketsSound(key);
    BracketsComplete(key);
    SortAscending(Brackets(key));
    assert key[..0] + Stripped(key[0..]) == Stripped(key) by {
      assert key[0..] == key;
    }
    ApplyBrackets(key, 0, SortReplacements(Brackets(key)));
  }

  lemma StrippedLacks(key: string)
    ensures '[' !in Stripped(key) && ']' !in Stripped(key)
  {
    var t := Stripped(key);
    forall k | 0 <= k < |t|
      ensures t[k] != '[' && t[k] != ']'
    {
      assert !IsBracket(t[k]);
    }
  }

  lemma PositionListLacks(key: string, ch: char, c: char)
    requires c == '[' || c == ']' || c == '|'
    ensures c !in PositionList(key, ch)
  {
    JoinDigitsLack(Numerals(Positions(key, ch)), c);
  }

  /** The encoding holds no brackets. */
  lemma PostEncodeLacksBrackets(key: string)
    ensures '[' !in PostEncode(key) && ']' !in PostEncode(key)
  {
    var s, a, b := Stripped(key), PositionList(key, '['), PositionList(key, ']');
    JoinThree(s, a, b, "|");
    StrippedLacks(key);
    PositionListLacks(key, '[', '[');
    PositionListLacks(key, '[', ']');
    PositionListLacks(key, ']', '[');
    PositionListLacks(key, ']', ']');
  }
}
