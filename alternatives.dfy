/**
 * What the parser makes of the two kinds of source the interpolation writes
 * for plain atoms: a lone key, and a nested block `[k1,k2,…]` of keys.
 */
module Alternatives {
  import opened Wrappers
  import opened Strings
  import opened Concepts
  import opened Tokenization
  import opened Plugins
  import opened Expansion

  /**
   * A key the tokenizer reads as one ATOM token when a `,`, a `]` or the end
   * of the input follows it: no blank, no delimiter, and no start of a
   * comment or of a string literal.
   */
  predicate SimpleKey(k: string)
  {
    |k| > 0 && k[0] != '/' && k[0] != '<'
    && forall i :: 0 <= i < |k| ==> IsAtomTokenChar(k[i]) && k[i] != '\t'
  }

  predicate SimpleAtom(c: Concept)
  {
    c.Atom? && SimpleKey(c.name)
  }

  predicate AllSimple(cs: seq<Concept>)
  {
    forall i :: 0 <= i < |cs| ==> SimpleAtom(cs[i])
  }

  /** One singleton permutation per concept. */
  function Singles(cs: seq<Concept>): (r: seq<seq<Concept>>)
    ensures |r| == |cs| && AllNonEmpty(r)
    ensures forall i :: 0 <= i < |cs| ==> r[i] == [cs[i]]
  {
    seq(|cs|, i requires 0 <= i < |cs| => [cs[i]])
  }

  /** The source text of a nested block of alternatives. */
  function Bracketed(ks: seq<string>): string
  {
    "[" + Join(ks, ",") + "]"
  }

  lemma SimpleKeyPasses(k: string)
    requires SimpleKey(k)
    ensures MakeAtom(k) == Ok(Atom(k))
  {
    assert PassesAtomCheck(k) by {
      forall i | 0 <= i < |k|
        ensures !IsForbiddenAtomChar(k[i])
      {
        assert IsAtomTokenChar(k[i]);
      }
    }
  }

  // The tokens.

  lemma AtomSpan(k: string, more: string)
    requires SimpleKey(k)
    requires |more| == 0 || !IsAtomTokenChar(more[0])
    ensures Span(k + more, 0, IsAtomTokenChar) == |k|
  {
    var s := k + more;
    forall i | 0 <= i < |k|
      ensures IsAtomTokenChar(s[i])
    {
      assert s[i] == k[i];
    }
    if |k| < |s| {
      assert s[|k|] == more[0];
    }
    SpanExact(s, 0, |k|, IsAtomTokenChar);
  }

  lemma {:induction false} SpanExact(s: string, i: nat, n: nat, p: char -> bool)
    requires i <= n <= |s|
    requires forall k :: i <= k < n ==> p(s[k])
    requires n == |s| || !p(s[n])
    ensures Span(s, i, p) == n
    decreases n - i
  {
    if i < n {
      SpanExact(s, i + 1, n, p);
    }
  }

  lemma AtomFirst(k: string, more: string)
    requires SimpleKey(k)
    requires |more| == 0 || more[0] == ',' || more[0] == ']'
    ensures FirstMatch(k + more) == Some((AtomToken, |k|))
  {
    var s := k + more;
    assert s[0] == k[0];
    AtomSpan(k, more);
    AtomCharFirst(s);
  }

  lemma CommaFirst(t: string)
    requires |t| > 0 && !IsBlank(t[0]) && !IsBranchChar(t[0])
    ensures FirstMatch("," + t) == Some((Branch, 1))
  {
    var s := "," + t;
    assert s[1] == t[0];
    assert Span(s, 0, IsBlank) == 0;
    assert Span(s, 0, IsBranchChar) == 1;
    assert Span(s, 1, IsBlank) == 1;
    assert MatchLength(Branch, s) == 1;
  }

  lemma OpenFirst(t: string)
    ensures FirstMatch("[" + t) == Some((LeftSquare, 1))
  {
    var s := "[" + t;
    assert Span(s, 0, IsBlank) == 0;
    assert MatchLength(Branch, s) == 0;
    assert MatchLength(Spaces, s) == 0;
    assert !HasPrefix(s, "/*") && !HasPrefix(s, "<<") by {
      if |s| >= 2 {
        assert s[..2][0] == s[0];
      }
    }
    assert MatchLength(Comment, s) == 0;
    assert MatchLength(MultiLineComment, s) == 0;
    assert MatchLength(StringLit, s) == 0;
    assert MatchLength(LeftSquare, s) == 1;
  }

  lemma CloseFirst()
    ensures FirstMatch("]") == Some((RightSquare, 1))
  {
    var s := "]";
    assert Span(s, 0, IsBlank) == 0;
    assert MatchLength(Branch, s) == 0;
    assert MatchLength(Spaces, s) == 0;
    assert !HasPrefix(s, "/*") && !HasPrefix(s, "<<");
    assert MatchLength(Comment, s) == 0;
    assert MatchLength(MultiLineComment, s) == 0;
    assert MatchLength(StringLit, s) == 0;
    assert MatchLength(LeftSquare, s) == 0;
    assert MatchLength(RightSquare, s) == 1;
  }

  /** The token types and values of `k1,k2,…]`. */
  predicate AltTokens(ts: seq<Token>, ks: seq<string>)
    decreases |ks|
  {
    |ks| > 0 && |ts| >= 2 && ts[0].ttype == AtomToken && ts[0].value == ks[0]
    && if |ks| == 1 then |ts| == 2 && ts[1].ttype == RightSquare
       else ts[1].ttype == Branch && AltTokens(ts[2..], ks[1..])
  }

  lemma JoinHead(ks: seq<string>, sep: string)
    requires |ks| > 0
    ensures |ks| == 1 ==> Join(ks, sep) == ks[0]
    ensures |ks| > 1 ==> Join(ks, sep) == ks[0] + sep + Join(ks[1..], sep)
    ensures HasPrefix(Join(ks, sep), ks[0])
  {
    if |ks| > 1 {
      assert (ks[0] + sep + Join(ks[1..], sep))[..|ks[0]|] == ks[0];
    }
  }

  lemma AtomStep(k: string, more: string, last: Option<Token>)
    requires SimpleKey(k)
    requires |more| == 0 || more[0] == ',' || more[0] == ']'
    ensures var t := PlaceToken(AtomToken, k, last);
      TokenizeFrom(k + more, last) == Prepend([t], TokenizeFrom(more, Some(t)))
  {
    AtomFirst(k, more);
    TokenizeFromStep(k + more, last);
    assert (k + more)[..|k|] == k && (k + more)[|k|..] == more;
  }

  lemma CommaStep(rest: string, last: Option<Token>)
    requires |rest| > 0 && !IsBlank(rest[0]) && !IsBranchChar(rest[0])
    ensures var t := PlaceToken(Branch, ",", last);
      TokenizeFrom("," + rest, last) == Prepend([t], TokenizeFrom(rest, Some(t)))
  {
    CommaFirst(rest);
    TokenizeFromStep("," + rest, last);
    assert ("," + rest)[..1] == "," && ("," + rest)[1..] == rest;
  }

  lemma CloseStep(last: Option<Token>)
    ensures TokenizeFrom("]", last) == Ok([PlaceToken(RightSquare, "]", last)])
  {
    CloseFirst();
    TokenizeFromStep("]", last);
    var t := PlaceToken(RightSquare, "]", last);
    assert "]"[..1] == "]";
    assert "]"[1..] == [];
    assert TokenizeFrom("]"[1..], Some(t)) == Ok([]);
    assert [t] + [] == [t];
  }

  lemma {:induction false} TokenizeAlts(ks: seq<string>, last: Option<Token>)
    requires |ks| > 0 && forall i :: 0 <= i < |ks| ==> SimpleKey(ks[i])
    ensures TokenizeFrom(Join(ks, ",") + "]", last).Ok?
    ensures AltTokens(TokenizeFrom(Join(ks, ",") + "]", last).value, ks)
    decreases |ks|
  {
    if |ks| == 1 {
      TokenizeAltOne(ks, last);
    } else {
      TokenizeAlts(ks[1..], Some(AfterComma(ks[0], last)));
      TokenizeAltsCons(ks, last);
    }
  }

  /** The comma token after the first alternative `k`. */
  function AfterComma(k: string, last: Option<Token>): Token
  {
    PlaceToken(Branch, ",", Some(PlaceToken(AtomToken, k, last)))
  }

  lemma TokenizeAltOne(ks: seq<string>, last: Option<Token>)
    requires |ks| == 1 && SimpleKey(ks[0])
    ensures TokenizeFrom(Join(ks, ",") + "]", last).Ok?
    ensures AltTokens(TokenizeFrom(Join(ks, ",") + "]", last).value, ks)
  {
    var k := ks[0];
    JoinHead(ks, ",");
    var t1 := PlaceToken(AtomToken, k, last);
    assert Join(ks, ",") + "]" == k + "]";
    AtomStep(k, "]", last);
    CloseStep(Some(t1));
    var t2 := PlaceToken(RightSquare, "]", Some(t1));
    assert TokenizeFrom(Join(ks, ",") + "]", last) == Ok([t1] + [t2]);
  }

  lemma TokenizeAltsCons(ks: seq<string>, last: Option<Token>)
    requires |ks| > 1 && forall i :: 0 <= i < |ks| ==> SimpleKey(ks[i])
    requires TokenizeFrom(Join(ks[1..], ",") + "]", Some(AfterComma(ks[0], last))).Ok?
    requires AltTokens(TokenizeFrom(Join(ks[1..], ",") + "]", Some(AfterComma(ks[0], last))).value, ks[1..])
    ensures TokenizeFrom(Join(ks, ",") + "]", last).Ok?
    ensures AltTokens(TokenizeFrom(Join(ks, ",") + "]", last).value, ks)
  {
    var t1 := PlaceToken(AtomToken, ks[0], last);
    var t2 := AfterComma(ks[0], last);
    var tail := TokenizeFrom(Join(ks[1..], ",") + "]", Some(t2)).value;
    TokenizeCons(ks, last);
    AltTokensCons(t1, t2, tail, ks);
  }

  lemma TokenizeCons(ks: seq<string>, last: Option<Token>)
    requires |ks| > 1 && forall i :: 0 <= i < |ks| ==> SimpleKey(ks[i])
    requires TokenizeFrom(Join(ks[1..], ",") + "]", Some(AfterComma(ks[0], last))).Ok?
    ensures TokenizeFrom(Join(ks, ",") + "]", last)
      == Ok([PlaceToken(AtomToken, ks[0], last)]
            + ([AfterComma(ks[0], last)] + TokenizeFrom(Join(ks[1..], ",") + "]", Some(AfterComma(ks[0], last))).value))
  {
    var k := ks[0];
    JoinHead(ks, ",");
    var t1 := PlaceToken(AtomToken, k, last);
    var rest := Join(ks[1..], ",") + "]";
    Regroup(Join(ks, ","), k, Join(ks[1..], ","));
    AtomStep(k, "," + rest, last);
    JoinHead(ks[1..], ",");
    assert rest[0] == ks[1][0];
    assert IsAtomTokenChar(ks[1][0]) && ks[1][0] != '\t';
    CommaStep(rest, Some(t1));
  }

  lemma AltTokensCons(t1: Token, t2: Token, tail: seq<Token>, ks: seq<string>)
    requires |ks| > 1 && t1.ttype == AtomToken && t1.value == ks[0] && t2.ttype == Branch
    requires AltTokens(tail, ks[1..])
    ensures AltTokens([t1] + ([t2] + tail), ks)
  {
    assert ([t1] + ([t2] + tail))[2..] == tail;
  }

  lemma TokenizeBracketed(ks: seq<string>)
    requires |ks| > 0 && forall i :: 0 <= i < |ks| ==> SimpleKey(ks[i])
    ensures Tokenize(Bracketed(ks)).Ok?
    ensures var ts := Tokenize(Bracketed(ks)).value;
      |ts| > 0 && ts[0].ttype == LeftSquare && AltTokens(ts[1..], ks)
  {
    var x := Join(ks, ",") + "]";
    var s := Bracketed(ks);
    assert s == "[" + x;
    OpenFirst(x);
    TokenizeFromStep(s, None);
    assert s[..1] == "[" && s[1..] == x;
    var t0 := PlaceToken(LeftSquare, "[", None);
    TokenizeAlts(ks, Some(t0));
    var ts := Tokenize(s).value;
    assert ts == [t0] + TokenizeFrom(x, Some(t0)).value;
    assert ts[1..] == TokenizeFrom(x, Some(t0)).value;
  }

  // The tree.

  /** The cursor inside a nested block, with the branches closed so far. */
  function InBlock(earlier: seq<seq<Concept>>): Cursor
  {
    Cursor([], true, [Frame(Nested, FlatBranches(earlier), [])], [])
  }

  function Atoms(ks: seq<string>): (r: seq<Concept>)
    ensures |r| == |ks|
    ensures forall i :: 0 <= i < |ks| ==> r[i] == Atom(ks[i])
  {
    seq(|ks|, i requires 0 <= i < |ks| => Atom(ks[i]))
  }

  lemma FlatBranchesSnoc(alts: seq<seq<Concept>>, a: Concept)
    ensures FlatBranches(alts + [[a]]) == FlatBranches(alts) + [BranchNode([Leaf(a)])]
  {
    var l := FlatBranches(alts + [[a]]);
    var r := FlatBranches(alts) + [BranchNode([Leaf(a)])];
    assert |l| == |r|;
    forall i | 0 <= i < |l|
      ensures l[i] == r[i]
    {
      if i < |alts| {
        assert (alts + [[a]])[i] == alts[i];
      } else {
        assert (alts + [[a]])[i] == [a];
        assert Leaves([a]) == [Leaf(a)];
      }
    }
  }

  lemma RunTwo(st: ParseState, ts: seq<Token>)
    requires |ts| >= 2
    ensures Run(st, ts) == Run(Step(Step(st, ts[0]), ts[1]), ts[2..])
  {
    assert ts[1..][0] == ts[1];
    assert ts[1..][1..] == ts[2..];
  }

  /** The cursor after the ATOM token of an alternative. */
  function AfterAtom(earlier: seq<seq<Concept>>, a: Concept): Cursor
  {
    Cursor([], true, [Frame(Nested, FlatBranches(earlier), [])], [Leaf(a)])
  }

  lemma StepAtom(earlier: seq<seq<Concept>>, t: Token)
    requires t.ttype == AtomToken && SimpleKey(t.value)
    ensures Step(Open(InBlock(earlier)), t) == Open(AfterAtom(earlier, Atom(t.value)))
  {
    SimpleKeyPasses(t.value);
  }

  lemma StepComma(earlier: seq<seq<Concept>>, a: Concept, t: Token)
    requires t.ttype == Branch
    ensures Step(Open(AfterAtom(earlier, a)), t) == Open(InBlock(earlier + [[a]]))
  {
    FlatBranchesSnoc(earlier, a);
  }

  lemma StepClose(earlier: seq<seq<Concept>>, a: Concept, t: Token)
    requires t.ttype == RightSquare
    ensures Step(Open(AfterAtom(earlier, a)), t)
      == Open(Cursor([], true, [], [Sub(Block(Nested, FlatBranches(earlier + [[a]])))]))
  {
    FlatBranchesSnoc(earlier, a);
  }

  lemma {:induction false} RunAlts(ts: seq<Token>, ks: seq<string>, earlier: seq<seq<Concept>>)
    requires AltTokens(ts, ks) && forall i :: 0 <= i < |ks| ==> SimpleKey(ks[i])
    ensures Run(Open(InBlock(earlier)), ts)
      == Open(Cursor([], true, [], [Sub(Block(Nested, FlatBranches(earlier + Singles(Atoms(ks)))))]))
    decreases |ks|
  {
    if |ks| == 1 {
      RunAltOne(ts, ks, earlier);
    } else {
      RunAlts(ts[2..], ks[1..], earlier + [[Atom(ks[0])]]);
      RunAltsCons(ts, ks, earlier);
    }
  }

  lemma RunAltOne(ts: seq<Token>, ks: seq<string>, earlier: seq<seq<Concept>>)
    requires AltTokens(ts, ks) && |ks| == 1 && SimpleKey(ks[0])
    ensures Run(Open(InBlock(earlier)), ts)
      == Open(Cursor([], true, [], [Sub(Block(Nested, FlatBranches(earlier + Singles(Atoms(ks)))))]))
  {
    var a := Atom(ks[0]);
    StepAtom(earlier, ts[0]);
    RunTwo(Open(InBlock(earlier)), ts);
    StepClose(earlier, a, ts[1]);
    assert Singles(Atoms(ks)) == [[a]];
    assert ts[2..] == [];
  }

  lemma RunAltsCons(ts: seq<Token>, ks: seq<string>, earlier: seq<seq<Concept>>)
    requires AltTokens(ts, ks) && |ks| > 1 && SimpleKey(ks[0])
    requires Run(Open(InBlock(earlier + [[Atom(ks[0])]])), ts[2..])
      == Open(Cursor([], true, [], [Sub(Block(Nested, FlatBranches(earlier + [[Atom(ks[0])]] + Singles(Atoms(ks[1..])))))]))
    ensures Run(Open(InBlock(earlier)), ts)
      == Open(Cursor([], true, [], [Sub(Block(Nested, FlatBranches(earlier + Singles(Atoms(ks)))))]))
  {
    var a := Atom(ks[0]);
    StepAtom(earlier, ts[0]);
    RunTwo(Open(InBlock(earlier)), ts);
    StepComma(earlier, a, ts[1]);
    SinglesCons(ks, earlier);
  }

  lemma SinglesCons(ks: seq<string>, earlier: seq<seq<Concept>>)
    requires |ks| > 0
    ensures earlier + [[Atom(ks[0])]] + Singles(Atoms(ks[1..])) == earlier + Singles(Atoms(ks))
  {
    assert Singles(Atoms(ks)) == [[Atom(ks[0])]] + Singles(Atoms(ks[1..]));
  }

  lemma Regroup(j: string, k: string, r: string)
    requires j == k + "," + r
    ensures j + "]" == k + ("," + (r + "]"))
  {
  }

  lemma RunOne(st: ParseState, ts: seq<Token>)
    requires |ts| >= 1
    ensures Run(st, ts) == Run(Step(st, ts[0]), ts[1..])
  {
  }

  /** The final close at the top level keeps a non-empty branch as the root's one branch. */
  lemma FinishBranch(children: seq<Node>)
    requires |children| > 0
    ensures Finish(Open(Cursor([], true, [], children))) == Ok(Block(Inline, [BranchNode(children)]))
  {
    var c := Cursor([], true, [], children);
    assert HandleClosing(c) == Open(c);
    assert Plug([], children) == children;
    assert Materialize(c) == Block(Inline, [] + [BranchNode(children)]);
    assert [] + [BranchNode(children)] == [BranchNode(children)];
  }

  lemma TreeBracketed(ks: seq<string>)
    requires |ks| > 0 && forall i :: 0 <= i < |ks| ==> SimpleKey(ks[i])
    ensures Tokenize(Bracketed(ks)).Ok?
    ensures ExpansionTree(Tokenize(Bracketed(ks)).value)
      == Ok(Block(Inline, [BranchNode([Sub(Block(Nested, FlatBranches(Singles(Atoms(ks)))))])]))
  {
    TokenizeBracketed(ks);
    var ts := Tokenize(Bracketed(ks)).value;
    assert Step(Open(Initial), ts[0]) == Open(InBlock([]));
    RunOne(Open(Initial), ts);
    RunAlts(ts[1..], ks, []);
    assert [] + Singles(Atoms(ks)) == Singles(Atoms(ks));
    FinishBranch([Sub(Block(Nested, FlatBranches(Singles(Atoms(ks)))))]);
  }

  // The permutations and the concepts.

  /** A nested block of plain alternatives at the top level is one permutation per alternative. */
  lemma NestedAlone(cs: seq<Concept>)
    requires |cs| > 0
    ensures Permutations(Block(Inline, [BranchNode([Sub(Block(Nested, FlatBranches(Singles(cs))))])])) == Singles(cs)
  {
    var alts := Singles(cs);
    var children := [Sub(Block(Nested, FlatBranches(alts)))];
    VisitOne(BranchNode(children));
    assert children == children + [];
    NestedBlockWraps(alts, [], []);
    var w := Wrap(alts);
    assert Combine([], w) == w;
    forall i | 0 <= i < |w|
      ensures w[i] == alts[i]
    {
      assert w[i] == [Build([cs[i]])];
    }
    assert w == alts;
    var es := Mark(w, false);
    assert PartsOf(es) == alts;
  }

  /** Atoms go through the default plugins and the constructor unchanged. */
  lemma SinglesBuilt(cs: seq<Concept>)
    requires forall i :: 0 <= i < |cs| ==> cs[i].Atom?
    ensures BuildAll(ApplyAll(Singles(cs), AllPlugins)) == cs
  {
    assert AllPlugins[1..] == [];
    var r := BuildAll(ApplyAll(Singles(cs), AllPlugins));
    forall i | 0 <= i < |cs|
      ensures r[i] == cs[i]
    {
      assert ApplyAmpersand([cs[i]]) == [cs[i]];
      assert ApplyPlugins([cs[i]], AllPlugins) == [cs[i]];
    }
  }

  /**
   * `[k1,k2,…]` over plain keys parses as the atoms `k1`, `k2`, … with
   * repeated keys dropped: one concept per alternative.
   */
  lemma ParseBracketed(ks: seq<string>)
    requires |ks| > 0 && forall i :: 0 <= i < |ks| ==> SimpleKey(ks[i])
    ensures Parse(Bracketed(ks)) == Ok(UniqueByKey(Atoms(ks)))
  {
    var s := Bracketed(ks);
    assert Join([s], "\n") == s;
    TreeBracketed(ks);
    var root := Block(Inline, [BranchNode([Sub(Block(Nested, FlatBranches(Singles(Atoms(ks)))))])]);
    ParseThrough([s], AllPlugins, Tokenize(s).value, root);
    NestedAlone(Atoms(ks));
    SinglesBuilt(Atoms(ks));
  }

  lemma TokenizeKey(k: string)
    requires SimpleKey(k)
    ensures Tokenize(k) == Ok([PlaceToken(AtomToken, k, None)])
  {
    AtomStep(k, "", None);
    assert k + "" == k;
    var t := PlaceToken(AtomToken, k, None);
    assert TokenizeFrom("", Some(t)) == Ok([]);
    assert [t] + [] == [t];
  }

  lemma TreeKey(k: string, t: Token)
    requires SimpleKey(k) && t.ttype == AtomToken && t.value == k
    ensures ExpansionTree([t]) == Ok(Block(Inline, [BranchNode([Leaf(Atom(k))])]))
  {
    SimpleKeyPasses(k);
    var c := Cursor([], true, [], [Leaf(Atom(k))]);
    assert Step(Open(Initial), t) == Open(c);
    RunOne(Open(Initial), [t]);
    assert [t][1..] == [];
    FinishBranch([Leaf(Atom(k))]);
  }

  /** A lone plain key parses as its atom. */
  lemma ParseKey(k: string)
    requires SimpleKey(k)
    ensures Parse(k) == Ok([Atom(k)])
  {
    assert Join([k], "\n") == k;
    TokenizeKey(k);
    var t := PlaceToken(AtomToken, k, None);
    TreeKey(k, t);
    var a := Atom(k);
    ParseThrough([k], AllPlugins, [t], Block(Inline, [BranchNode([Leaf(a)])]));
    SingleLeafParts(a);
    SingleAtomBuilt(a);
  }
}
