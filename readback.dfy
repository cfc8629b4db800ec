/**
 * What the parser reads back from the text the engine writes. A concept
 * whose atoms are plain keys parses from its own key as itself, and a row
 * of nested blocks of such concepts, the text the interpolation writes for
 * a compound, parses into one concept per choice of one alternative from
 * each block.
 */
module ReadBack {
  import opened Wrappers
  import opened Strings
  import opened Concepts
  import opened Tokenization
  import opened Plugins
  import opened Expansion
  import opened Alternatives
  import Keys

  // Plain concepts.

  /**
   * A concept every atom of which is a simple key other than `&`, in the
   * shape the constructor gives: at least two parts, a sorted set tail.
   */
  predicate Plain(c: Concept)
    decreases c
  {
    match c
    case Atom(k) => SimpleKey(k) && k != "&"
    case Compound(ps) =>
      |ps| >= 2 && (forall i :: 0 <= i < |ps| ==> Plain(ps[i]))
      && (Key(ps[0]) == ":" ==> SortedByKey(ps[1..]))
  }

  predicate AllPlain(cs: seq<Concept>)
  {
    forall i :: 0 <= i < |cs| ==> Plain(cs[i])
  }

  /** The parts a concept's key lists at its top level: an atom lists itself. */
  function TopParts(c: Concept): (ps: seq<Concept>)
    ensures |ps| > 0 || c == Compound([])
  {
    if c.Atom? then [c] else c.parts
  }

  lemma TopPartsPlain(c: Concept)
    requires Plain(c)
    ensures |TopParts(c)| > 0 && AllPlain(TopParts(c))
    ensures Key(c) == JoinPartKeys(TopParts(c))
    ensures Build(TopParts(c)) == c
  {
    PlainWellFormed(c);
    if c.Atom? {
      assert PartKeys([c]) == [Key(c)];
    } else {
      BuildOfParts(c);
    }
  }

  lemma {:induction false} PlainWellFormed(c: Concept)
    requires Plain(c)
    ensures WellFormed(c)
    decreases c
  {
    match c
    case Atom(k) =>
      SimpleKeyPasses(k);
    case Compound(ps) =>
      forall i | 0 <= i < |ps|
        ensures WellFormed(ps[i])
      {
        PlainWellFormed(ps[i]);
      }
  }

  /** No part of a plain concept, at any depth, has the key `&`. */
  lemma {:induction false} PlainNoAmpersand(c: Concept)
    requires Plain(c)
    ensures !HasAmpersand(c)
    decreases c, 0
  {
    if c.Compound? {
      var ks := PartKeys(c.parts);
      assert Key(c) == ks[0] + " " + Join(ks[1..], " ");
      assert Key(c)[|ks[0]|] == ' ';
      PlainNoAmpersands(c.parts);
    }
  }

  lemma {:induction false} PlainNoAmpersands(ps: seq<Concept>)
    requires AllPlain(ps)
    ensures !AnyAmpersand(ps)
    decreases ps, 1
  {
    if |ps| > 0 {
      PlainNoAmpersand(ps[0]);
      PlainNoAmpersands(ps[1..]);
    }
  }

  /** The plugins leave a list of plain parts as it is. */
  lemma PluginsKeepPlain(ps: seq<Concept>)
    requires AllPlain(ps)
    ensures ApplyPlugins(ps, AllPlugins) == ps
  {
    if |ps| > 0 {
      PlainNoAmpersands(ps[1..]);
    }
    AmpersandShape(ps);
    assert AllPlugins[1..] == [];
  }

  // The tokens: only a token's type and value matter to the parser.

  /** A token of the given type and value; its range plays no part in the parse. */
  function Lexeme(t: TokenType, v: string): Token
  {
    Token(t, v, Range(Position(0, 0), Position(0, 0)))
  }

  /** The tokenizer, run over `rest`, takes the tokens `us` one after another. */
  predicate Lexes(rest: string, us: seq<Token>)
    decreases |us|
  {
    if |us| == 0 then |rest| == 0
    else
      0 < |us[0].value| <= |rest| && rest[..|us[0].value|] == us[0].value
      && FirstMatch(rest) == Some((us[0].ttype, |us[0].value|))
      && Lexes(rest[|us[0].value|..], us[1..])
  }

  predicate SameKinds(ts: seq<Token>, us: seq<Token>)
  {
    |ts| == |us| && forall i :: 0 <= i < |ts| ==> ts[i].ttype == us[i].ttype && ts[i].value == us[i].value
  }

  lemma LexesCons(v: string, t: TokenType, rest: string, us: seq<Token>)
    requires |v| > 0 && FirstMatch(v + rest) == Some((t, |v|)) && Lexes(rest, us)
    ensures Lexes(v + rest, [Lexeme(t, v)] + us)
  {
    assert (v + rest)[..|v|] == v;
    assert (v + rest)[|v|..] == rest;
    assert ([Lexeme(t, v)] + us)[1..] == us;
  }

  /** What the tokenizer takes, it returns: tokens of the same types and values. */
  lemma {:induction false} TokenizeLexes(rest: string, last: Option<Token>, us: seq<Token>)
    requires Lexes(rest, us)
    ensures TokenizeFrom(rest, last).Ok? && SameKinds(TokenizeFrom(rest, last).value, us)
    decreases |us|
  {
    if |us| > 0 {
      var n := |us[0].value|;
      var token := PlaceToken(us[0].ttype, rest[..n], last);
      TokenizeLexes(rest[n..], Some(token), us[1..]);
      var ts := TokenizeFrom(rest[n..], Some(token)).value;
      assert TokenizeFrom(rest, last) == Ok([token] + ts);
      forall i | 0 <= i < |us|
        ensures ([token] + ts)[i].ttype == us[i].ttype && ([token] + ts)[i].value == us[i].value
      {
        if i > 0 {
          assert ([token] + ts)[i] == ts[i - 1];
          assert us[i] == us[1..][i - 1];
        }
      }
    }
  }

  lemma StepKinds(st: ParseState, t: Token, u: Token)
    requires t.ttype == u.ttype && t.value == u.value
    ensures Step(st, t) == Step(st, u)
  {
  }

  lemma {:induction false} RunSameKinds(st: ParseState, ts: seq<Token>, us: seq<Token>)
    requires SameKinds(ts, us)
    ensures Run(st, ts) == Run(st, us)
    decreases |ts|
  {
    if |ts| > 0 {
      StepKinds(st, ts[0], us[0]);
      assert SameKinds(ts[1..], us[1..]) by {
        forall i | 0 <= i < |ts| - 1
          ensures ts[1..][i].ttype == us[1..][i].ttype && ts[1..][i].value == us[1..][i].value
        {
          assert ts[1..][i] == ts[i + 1] && us[1..][i] == us[i + 1];
        }
      }
      RunSameKinds(Step(st, ts[0]), ts[1..], us[1..]);
    }
  }

  lemma {:induction false} RunAppend(st: ParseState, a: seq<Token>, b: seq<Token>)
    ensures Run(st, a + b) == Run(Run(st, a), b)
    decreases |a|
  {
    if |a| == 0 {
      assert a + b == b;
    } else {
      assert (a + b)[0] == a[0];
      assert (a + b)[1..] == a[1..] + b;
      RunAppend(Step(st, a[0]), a[1..], b);
    }
  }

  lemma RunSingle(st: ParseState, t: Token)
    ensures Run(st, [t]) == Step(st, t)
  {
    assert [t][1..] == [];
  }

  // The first match at the start of a part, a separator or a bracket.

  /** A text that starts a part: no SPACES or BRANCH token runs on into it. */
  predicate StartsPart(s: string)
  {
    |s| > 0 && !IsBlank(s[0]) && !IsBranchChar(s[0])
  }

  /** What may follow a key without joining its last token. */
  predicate Follows(s: string)
  {
    |s| == 0 || s[0] == ' ' || s[0] == ',' || s[0] == ']' || s[0] == '}' || s[0] == ')'
  }

  predicate IsDelimiter(ch: char)
  {
    ch == '[' || ch == ']' || ch == '{' || ch == '}' || ch == '(' || ch == ')'
  }

  function DelimiterType(ch: char): TokenType
    requires IsDelimiter(ch)
  {
    match ch
    case '[' => LeftSquare
    case ']' => RightSquare
    case '{' => LeftCurly
    case '}' => RightCurly
    case '(' => LeftParen
    case ')' => RightParen
  }

  lemma {:induction false} FirstMatchFromSkip(s: string, i: nat, j: nat)
    requires i <= j < |TokenTypes| && MatchLength(TokenTypes[j], s) > 0
    requires forall k :: i <= k < j ==> MatchLength(TokenTypes[k], s) == 0
    ensures FirstMatchFrom(s, i) == Some((TokenTypes[j], MatchLength(TokenTypes[j], s)))
    decreases j - i
  {
    if i < j {
      FirstMatchFromSkip(s, i + 1, j);
    }
  }

  lemma DelimiterFirst(ch: char, t: string)
    requires IsDelimiter(ch)
    ensures FirstMatch([ch] + t) == Some((DelimiterType(ch), 1))
  {
    var s := [ch] + t;
    var j := TypeIndex(DelimiterType(ch));
    assert Span(s, 0, IsBlank) == 0;
    assert !HasPrefix(s, "/*") && !HasPrefix(s, "<<") by {
      if |s| >= 2 {
        assert s[..2][0] == ch;
      }
    }
    assert forall k :: 0 <= k < j ==> MatchLength(TokenTypes[k], s) == 0;
    assert MatchLength(TokenTypes[j], s) == 1;
    FirstMatchFromSkip(s, 0, j);
  }

  lemma SpaceFirst(t: string)
    requires StartsPart(t)
    ensures FirstMatch(" " + t) == Some((Spaces, 1))
  {
    var s := " " + t;
    assert s[1] == t[0];
    assert Span(s, 1, IsBlank) == 1;
    assert Span(s, 0, IsBlank) == 1;
    assert MatchLength(Branch, s) == 0;
    FirstMatchFromSkip(s, 0, 1);
  }

  /** `, ` before a part is one BRANCH token. */
  lemma CommaSpaceFirst(t: string)
    requires StartsPart(t)
    ensures FirstMatch(", " + t) == Some((Branch, 2))
  {
    var s := ", " + t;
    assert s[1] == ' ' && s[2] == t[0];
    assert Span(s, 0, IsBlank) == 0;
    assert Span(s, 1, IsBranchChar) == 1;
    assert Span(s, 0, IsBranchChar) == 1;
    assert Span(s, 2, IsBlank) == 2;
    assert Span(s, 1, IsBlank) == 2;
    assert MatchLength(Branch, s) == 2;
  }

  lemma AtomBefore(k: string, follow: string)
    requires SimpleKey(k) && Follows(follow)
    ensures FirstMatch(k + follow) == Some((AtomToken, |k|))
  {
    var s := k + follow;
    assert s[0] == k[0];
    AtomSpan(k, follow);
    AtomCharFirst(s);
  }

  lemma PartsStart(ps: seq<Concept>, x: string)
    requires |ps| > 0 && Plain(ps[0])
    ensures StartsPart(JoinPartKeys(ps) + x)
  {
    var ks := PartKeys(ps);
    JoinHead(ks, " ");
    var k := PartKey(ps[0]);
    assert ks[0] == k;
    if ps[0].Atom? {
      assert Parts(ps[0]) == [] && IsAtom(ps[0]);
      assert Key(ps[0]) == ps[0].name;
      assert k == ps[0].name;
      assert IsAtomTokenChar(k[0]) && k[0] != '\t';
    } else {
      assert k == "[" + Key(ps[0]) + "]";
    }
    var j := Join(ks, " ");
    assert j[..|k|] == k;
    assert j[0] == j[..|k|][0];
    assert (j + x)[0] == j[0];
  }

  // The tokens of a plain concept's key.

  /** A part's tokens: an ATOM, or a bracketed list of the part's own parts. */
  function PartLexemes(p: Concept): seq<Token>
    decreases p, 0
  {
    match p
    case Atom(k) => [Lexeme(AtomToken, k)]
    case Compound(qs) => [Lexeme(LeftSquare, "[")] + PartsLexemes(qs) + [Lexeme(RightSquare, "]")]
  }

  /** The tokens of parts in a row, a SPACES token between two of them. */
  function PartsLexemes(ps: seq<Concept>): seq<Token>
    decreases ps, 1
  {
    if |ps| == 0 then []
    else if |ps| == 1 then PartLexemes(ps[0])
    else PartLexemes(ps[0]) + [Lexeme(Spaces, " ")] + PartsLexemes(ps[1..])
  }

  /** A bracketed list of tokens, `[` … `]`. */
  lemma WrapLexes(inner: string, follow: string, ins: seq<Token>, fs: seq<Token>)
    requires Lexes(inner + ("]" + follow), ins + ([Lexeme(RightSquare, "]")] + fs))
    ensures Lexes("[" + inner + "]" + follow, [Lexeme(LeftSquare, "[")] + ins + [Lexeme(RightSquare, "]")] + fs)
  {
    DelimiterFirst('[', inner + ("]" + follow));
    LexesCons("[", LeftSquare, inner + ("]" + follow), ins + ([Lexeme(RightSquare, "]")] + fs));
    WrapRegroup("[", inner, "]", follow);
    WrapRegroup([Lexeme(LeftSquare, "[")], ins, [Lexeme(RightSquare, "]")], fs);
  }

  lemma WrapRegroup<T>(a: seq<T>, b: seq<T>, c: seq<T>, d: seq<T>)
    ensures a + b + c + d == a + (b + (c + d))
  {
  }

  lemma CloseLexes(follow: string, fs: seq<Token>)
    requires Lexes(follow, fs)
    ensures Lexes("]" + follow, [Lexeme(RightSquare, "]")] + fs)
  {
    DelimiterFirst(']', follow);
    LexesCons("]", RightSquare, follow, fs);
  }

  /** Two token lists with a SPACES token between them. */
  lemma SpaceLexes(first: string, rest: string, lf: seq<Token>, lr: seq<Token>)
    requires Lexes(first + (" " + rest), lf + ([Lexeme(Spaces, " ")] + lr))
    ensures Lexes(first + " " + rest, lf + [Lexeme(Spaces, " ")] + lr)
  {
    assert first + " " + rest == first + (" " + rest);
    assert lf + [Lexeme(Spaces, " ")] + lr == lf + ([Lexeme(Spaces, " ")] + lr);
  }

  lemma {:induction false} PartLexes(p: Concept, follow: string, fs: seq<Token>)
    requires Plain(p) && Follows(follow) && Lexes(follow, fs)
    ensures Lexes(PartKey(p) + follow, PartLexemes(p) + fs)
    decreases p, 0
  {
    if p.Atom? {
      AtomBefore(p.name, follow);
      LexesCons(p.name, AtomToken, follow, fs);
    } else {
      var qs := p.parts;
      CloseLexes(follow, fs);
      PartsLexes(qs, "]" + follow, [Lexeme(RightSquare, "]")] + fs);
      WrapLexes(JoinPartKeys(qs), follow, PartsLexemes(qs), fs);
      assert PartKey(p) == "[" + JoinPartKeys(qs) + "]";
    }
  }

  lemma {:induction false} PartsLexes(ps: seq<Concept>, follow: string, fs: seq<Token>)
    requires |ps| > 0 && AllPlain(ps) && Follows(follow) && Lexes(follow, fs)
    ensures Lexes(JoinPartKeys(ps) + follow, PartsLexemes(ps) + fs)
    decreases ps, 1
  {
    if |ps| == 1 {
      assert JoinPartKeys(ps) == PartKey(ps[0]);
      PartLexes(ps[0], follow, fs);
    } else {
      var rest := JoinPartKeys(ps[1..]);
      var more := PartsLexemes(ps[1..]) + fs;
      PartsLexes(ps[1..], follow, fs);
      SpaceBefore(ps[1..], follow, more);
      PartLexes(ps[0], " " + (rest + follow), [Lexeme(Spaces, " ")] + more);
      SpaceLexes(PartKey(ps[0]), rest + follow, PartLexemes(ps[0]), more);
      JoinPartKeysCons(ps);
      Reassociate(PartKey(ps[0]), " ", rest, follow);
      Reassociate(PartLexemes(ps[0]), [Lexeme(Spaces, " ")], PartsLexemes(ps[1..]), fs);
    }
  }

  lemma Reassociate<T>(a: seq<T>, b: seq<T>, c: seq<T>, d: seq<T>)
    ensures (a + b + c) + d == a + b + (c + d)
  {
  }

  lemma JoinPartKeysCons(ps: seq<Concept>)
    requires |ps| >= 2
    ensures JoinPartKeys(ps) == PartKey(ps[0]) + " " + JoinPartKeys(ps[1..])
  {
    var ks := PartKeys(ps);
    assert ks[1..] == PartKeys(ps[1..]);
  }

  lemma SpaceBefore(ps: seq<Concept>, follow: string, more: seq<Token>)
    requires |ps| > 0 && Plain(ps[0]) && Lexes(JoinPartKeys(ps) + follow, more)
    ensures Lexes(" " + (JoinPartKeys(ps) + follow), [Lexeme(Spaces, " ")] + more)
  {
    PartsStart(ps, follow);
    SpaceFirst(JoinPartKeys(ps) + follow);
    LexesCons(" ", Spaces, JoinPartKeys(ps) + follow, more);
  }

  /** The tokenizer reads a plain concept's key as the tokens of its parts. */
  lemma KeyTokens(c: Concept)
    requires Plain(c)
    ensures Tokenize(Key(c)).Ok? && SameKinds(Tokenize(Key(c)).value, PartsLexemes(TopParts(c)))
  {
    var ps := TopParts(c);
    TopPartsPlain(c);
    PartsLexes(ps, "", []);
    assert Key(c) + "" == Key(c);
    assert PartsLexemes(ps) + [] == PartsLexemes(ps);
    TokenizeLexes(Key(c), None, PartsLexemes(ps));
  }

  // The tree of a plain concept's key.

  /** The node a part becomes: a leaf, or a nested block of one branch. */
  function NodeOf(p: Concept): Node
    decreases p, 0
  {
    match p
    case Atom(_) => Leaf(p)
    case Compound(qs) => Sub(Block(Nested, [BranchNode(NodesOf(qs))]))
  }

  function NodesOf(ps: seq<Concept>): (ns: seq<Node>)
    ensures |ns| == |ps|
    decreases ps, 1
  {
    if |ps| == 0 then [] else [NodeOf(ps[0])] + NodesOf(ps[1..])
  }

  lemma {:induction false} RunPart(cu: Cursor, p: Concept)
    requires Plain(p)
    ensures Run(Open(cu), PartLexemes(p)) == Open(AppendChild(cu, NodeOf(p)))
    decreases p, 0
  {
    if p.Atom? {
      SimpleKeyPasses(p.name);
      RunSingle(Open(cu), Lexeme(AtomToken, p.name));
    } else {
      var qs := p.parts;
      var inner := OpenBlock(cu, Nested);
      RunParts(inner, qs);
      assert inner.cur + NodesOf(qs) == NodesOf(qs);
      RunNested(cu, PartsLexemes(qs), [], NodesOf(qs));
      assert [] + [BranchNode(NodesOf(qs))] == [BranchNode(NodesOf(qs))];
    }
  }

  /**
   * `[` … `]` around tokens that leave the block with the branches `earlier`
   * and a last branch of `ns`.
   */
  lemma RunNested(cu: Cursor, ins: seq<Token>, earlier: seq<Branch>, ns: seq<Node>)
    requires |ns| > 0
    requires Run(Open(OpenBlock(cu, Nested)), ins)
      == Open(Cursor(cu.done, cu.attached, cu.frames + [Frame(Nested, earlier, cu.cur)], ns))
    ensures Run(Open(cu), [Lexeme(LeftSquare, "[")] + ins + [Lexeme(RightSquare, "]")])
      == Open(AppendChild(cu, Sub(Block(Nested, earlier + [BranchNode(ns)]))))
  {
    var open := [Lexeme(LeftSquare, "[")];
    var close := [Lexeme(RightSquare, "]")];
    RunAppend(Open(cu), open + ins, close);
    RunAppend(Open(cu), open, ins);
    RunSingle(Open(cu), open[0]);
    var filled := Cursor(cu.done, cu.attached, cu.frames + [Frame(Nested, earlier, cu.cur)], ns);
    RunSingle(Open(filled), close[0]);
    assert filled.frames[..|filled.frames| - 1] == cu.frames;
  }

  lemma {:induction false} RunParts(cu: Cursor, ps: seq<Concept>)
    requires |ps| > 0 && AllPlain(ps)
    ensures Run(Open(cu), PartsLexemes(ps)) == Open(cu.(cur := cu.cur + NodesOf(ps)))
    decreases ps, 1
  {
    RunPart(cu, ps[0]);
    var after := AppendChild(cu, NodeOf(ps[0]));
    if |ps| == 1 {
      assert NodesOf(ps) == [NodeOf(ps[0])];
    } else {
      var space := [Lexeme(Spaces, " ")];
      RunAppend(Open(cu), PartLexemes(ps[0]) + space, PartsLexemes(ps[1..]));
      RunAppend(Open(cu), PartLexemes(ps[0]), space);
      RunSingle(Open(after), space[0]);
      RunParts(after, ps[1..]);
      assert after.cur + NodesOf(ps[1..]) == cu.cur + NodesOf(ps);
    }
  }

  /** The tree of a top-level list of nodes: one branch holding them. */
  lemma FinishNodes(ns: seq<Node>)
    requires |ns| > 0
    ensures Finish(Open(Cursor([], true, [], ns))) == Ok(Block(Inline, [BranchNode(ns)]))
  {
    assert [] + [BranchNode(Plug([], ns))] == [BranchNode(ns)];
  }

  lemma KeyTree(c: Concept)
    requires Plain(c)
    ensures Tokenize(Key(c)).Ok?
    ensures ExpansionTree(Tokenize(Key(c)).value) == Ok(Block(Inline, [BranchNode(NodesOf(TopParts(c)))]))
  {
    KeyTokens(c);
    TopPartsPlain(c);
    var ps := TopParts(c);
    RunSameKinds(Open(Initial), Tokenize(Key(c)).value, PartsLexemes(ps));
    RunParts(Initial, ps);
    assert Initial.(cur := Initial.cur + NodesOf(ps)) == Cursor([], true, [], NodesOf(ps));
    FinishNodes(NodesOf(ps));
  }

  // The permutations of that tree.

  /** `combine` with a single alternative `[p]` appends `p` to each permutation. */
  lemma {:induction false} CrossOne(ls: seq<seq<Concept>>, p: Concept)
    ensures Cross(ls, [[p]]) == AppendEach(ls, p)
  {
    if |ls| > 0 {
      CrossOne(ls[1..], p);
      assert PrependEach(ls[0], [[p]]) == [ls[0] + [p]];
    }
  }

  lemma CombineOne(prefixes: seq<seq<Concept>>, p: Concept)
    ensures Combine(prefixes, [[p]]) == Extend(prefixes, p)
  {
    if |prefixes| > 0 {
      CrossOne(prefixes, p);
    }
  }

  /** A nested block of one plain compound behaves as that compound does as a leaf. */
  lemma {:induction false} NestedPart(p: Concept, prefixes: seq<seq<Concept>>)
    requires Plain(p) && p.Compound? && AllNonEmpty(prefixes)
    ensures VisitChild(NodeOf(p)) == [Emission(p.parts, false)]
    ensures HandleBlock(Nested, VisitChild(NodeOf(p)), prefixes) == ([], Extend(prefixes, p))
    decreases p, 1
  {
    var qs := p.parts;
    NextNodes(qs, []);
    ExtendAllFresh(qs);
    VisitOne(BranchNode(NodesOf(qs)));
    var inner := [Emission(qs, false)];
    assert inner == Mark([qs], false);
    SplitMarked([qs]);
    PlainWellFormed(p);
    BuildOfParts(p);
    assert [qs] + [] == [qs];
    assert Wrap([qs]) == [[p]];
    CombineOne(prefixes, p);
  }

  lemma {:induction false} NextNodes(ps: seq<Concept>, prefixes: seq<seq<Concept>>)
    requires AllPlain(ps) && AllNonEmpty(prefixes)
    ensures AllNonEmpty(ExtendAll(prefixes, ps))
    ensures Next(NodesOf(ps), prefixes) == Mark(ExtendAll(prefixes, ps), false)
    decreases ps, 0
  {
    ExtendAllNonEmpty(prefixes, ps);
    if |ps| > 0 {
      var nodes := NodesOf(ps);
      assert nodes[1..] == NodesOf(ps[1..]);
      var p := ps[0];
      ExtendNonEmpty(prefixes, p);
      if p.Compound? {
        NestedPart(p, prefixes);
      }
      NextNodes(ps[1..], Extend(prefixes, p));
    }
  }

  /** The tree of a plain concept's key has one permutation: the concept's own parts. */
  lemma KeyPermutations(ps: seq<Concept>)
    requires |ps| > 0 && AllPlain(ps)
    ensures Permutations(Block(Inline, [BranchNode(NodesOf(ps))])) == [ps]
  {
    VisitOne(BranchNode(NodesOf(ps)));
    NextNodes(ps, []);
    ExtendAllFresh(ps);
  }

  // Reading a plain concept back.

  /** A plain concept parses from its own key as itself, and as nothing else. */
  lemma PlainParses(c: Concept)
    requires Plain(c)
    ensures Parse(Key(c)) == Ok([c])
  {
    var ps := TopParts(c);
    TopPartsPlain(c);
    KeyTree(c);
    assert Join([Key(c)], "\n") == Key(c);
    var root := Block(Inline, [BranchNode(NodesOf(ps))]);
    ParseThrough([Key(c)], AllPlugins, Tokenize(Key(c)).value, root);
    KeyPermutations(ps);
    PluginsKeepPlain(ps);
    assert ApplyAll([ps], AllPlugins) == [ps];
    assert BuildAll([ps]) == [c];
    UniqueByKeySingle(c);
  }

  /** `parseConcept(concept.key)` gives the concept back. */
  lemma PlainParsesBack(c: Concept)
    requires Plain(c)
    ensures Keys.ParsesBack(c)
  {
    PlainParses(c);
  }

  // Rows of nested blocks of alternatives: the text the interpolation writes for a compound.

  predicate PlainRows(rows: seq<seq<Concept>>)
  {
    forall i :: 0 <= i < |rows| ==> |rows[i]| > 0 && AllPlain(rows[i])
  }

  /** What stands between two alternatives of a block: `,`, or `, ` as the masks write it. */
  predicate Separator(sep: string)
  {
    sep == "," || sep == ", "
  }

  /** `[a1,a2,…]`, the alternatives' keys between brackets, `sep` between two of them. */
  function BlockText(ks: seq<string>, sep: string): string
  {
    "[" + Join(ks, sep) + "]"
  }

  /** The separator before a part is one BRANCH token. */
  lemma SeparatorFirst(sep: string, t: string)
    requires Separator(sep) && StartsPart(t)
    ensures FirstMatch(sep + t) == Some((Branch, |sep|))
  {
    if sep == "," {
      CommaFirst(t);
    } else {
      CommaSpaceFirst(t);
    }
  }

  /** The blocks `[a1,a2,…]` of a row, each listing the keys of its alternatives. */
  function BlockTexts(rows: seq<seq<Concept>>, sep: string): (ts: seq<string>)
    ensures |ts| == |rows|
    ensures forall i :: 0 <= i < |rows| ==> ts[i] == BlockText(Concepts.Keys(rows[i]), sep)
  {
    if |rows| == 0 then [] else [BlockText(Concepts.Keys(rows[0]), sep)] + BlockTexts(rows[1..], sep)
  }

  /** `[a1,a2,…] [b1,…] …`. */
  function RowText(rows: seq<seq<Concept>>, sep: string): string
  {
    Join(BlockTexts(rows, sep), " ")
  }

  /** Every choice of one alternative from each block, after each prefix, in the order `combine` gives. */
  function Choices(prefixes: seq<seq<Concept>>, rows: seq<seq<Concept>>): seq<seq<Concept>>
    decreases |rows|
  {
    if |rows| == 0 then prefixes else Choices(Combine(prefixes, Singles(rows[0])), rows[1..])
  }

  /** The tokens of the alternatives of one block, a BRANCH token between two of them. */
  function AltLexemes(alts: seq<Concept>, sep: string): seq<Token>
  {
    if |alts| == 0 then []
    else if |alts| == 1 then PartsLexemes(TopParts(alts[0]))
    else PartsLexemes(TopParts(alts[0])) + [Lexeme(Branch, sep)] + AltLexemes(alts[1..], sep)
  }

  function BlockLexemes(alts: seq<Concept>, sep: string): seq<Token>
  {
    [Lexeme(LeftSquare, "[")] + AltLexemes(alts, sep) + [Lexeme(RightSquare, "]")]
  }

  function RowLexemes(rows: seq<seq<Concept>>, sep: string): seq<Token>
  {
    if |rows| == 0 then []
    else if |rows| == 1 then BlockLexemes(rows[0], sep)
    else BlockLexemes(rows[0], sep) + [Lexeme(Spaces, " ")] + RowLexemes(rows[1..], sep)
  }

  lemma JoinFirst(ks: seq<string>, sep: string, x: string)
    requires |ks| > 0 && |ks[0]| > 0
    ensures (Join(ks, sep) + x)[0] == ks[0][0]
  {
    JoinHead(ks, sep);
    var j := Join(ks, sep);
    assert j[..|ks[0]|] == ks[0];
    assert j[0] == j[..|ks[0]|][0];
  }

  lemma KeysCons(alts: seq<Concept>, sep: string)
    requires |alts| >= 2
    ensures Join(Concepts.Keys(alts), sep) == Key(alts[0]) + sep + Join(Concepts.Keys(alts[1..]), sep)
  {
    var ks := Concepts.Keys(alts);
    assert ks[1..] == Concepts.Keys(alts[1..]);
  }

  lemma TextsCons(rows: seq<seq<Concept>>, sep: string)
    requires |rows| >= 2
    ensures RowText(rows, sep) == BlockText(Concepts.Keys(rows[0]), sep) + " " + RowText(rows[1..], sep)
  {
    var ts := BlockTexts(rows, sep);
    assert ts[1..] == BlockTexts(rows[1..], sep);
  }

  /** A plain concept's key, lexed as the tokens of its top-level parts. */
  lemma AltLexes(a: Concept, follow: string, fs: seq<Token>)
    requires Plain(a) && Follows(follow) && Lexes(follow, fs)
    ensures Lexes(Key(a) + follow, PartsLexemes(TopParts(a)) + fs)
  {
    TopPartsPlain(a);
    PartsLexes(TopParts(a), follow, fs);
  }

  /** A plain concept's key, with whatever follows, starts a part. */
  lemma KeyStarts(alts: seq<Concept>, follow: string, sep: string)
    requires |alts| > 0 && Plain(alts[0])
    ensures StartsPart(Join(Concepts.Keys(alts), sep) + follow)
  {
    var a := alts[0];
    TopPartsPlain(a);
    PartsStart(TopParts(a), "");
    assert JoinPartKeys(TopParts(a)) + "" == Key(a);
    JoinFirst(Concepts.Keys(alts), sep, follow);
  }

  lemma CommaBefore(alts: seq<Concept>, follow: string, more: seq<Token>, sep: string)
    requires Separator(sep) && |alts| > 0 && Plain(alts[0]) && Lexes(Join(Concepts.Keys(alts), sep) + follow, more)
    ensures Lexes(sep + (Join(Concepts.Keys(alts), sep) + follow), [Lexeme(Branch, sep)] + more)
  {
    var t := Join(Concepts.Keys(alts), sep) + follow;
    KeyStarts(alts, follow, sep);
    SeparatorFirst(sep, t);
    LexesCons(sep, Branch, t, more);
  }

  /** Two token lists with a BRANCH token between them. */
  lemma CommaLexes(first: string, rest: string, lf: seq<Token>, lr: seq<Token>, sep: string)
    requires Lexes(first + (sep + rest), lf + ([Lexeme(Branch, sep)] + lr))
    ensures Lexes(first + sep + rest, lf + [Lexeme(Branch, sep)] + lr)
  {
    assert first + sep + rest == first + (sep + rest);
    assert lf + [Lexeme(Branch, sep)] + lr == lf + ([Lexeme(Branch, sep)] + lr);
  }

  lemma {:induction false} AltsLexes(alts: seq<Concept>, follow: string, fs: seq<Token>, sep: string)
    requires Separator(sep) && |alts| > 0 && AllPlain(alts) && Follows(follow) && Lexes(follow, fs)
    ensures Lexes(Join(Concepts.Keys(alts), sep) + follow, AltLexemes(alts, sep) + fs)
  {
    var a := alts[0];
    if |alts| == 1 {
      assert Join(Concepts.Keys(alts), sep) == Key(a);
      AltLexes(a, follow, fs);
    } else {
      var rest := Join(Concepts.Keys(alts[1..]), sep);
      var more := AltLexemes(alts[1..], sep) + fs;
      AltsLexes(alts[1..], follow, fs, sep);
      CommaBefore(alts[1..], follow, more, sep);
      AltLexes(a, sep + (rest + follow), [Lexeme(Branch, sep)] + more);
      CommaLexes(Key(a), rest + follow, PartsLexemes(TopParts(a)), more, sep);
      KeysCons(alts, sep);
      Reassociate(Key(a), sep, rest, follow);
      Reassociate(PartsLexemes(TopParts(a)), [Lexeme(Branch, sep)], AltLexemes(alts[1..], sep), fs);
    }
  }

  lemma BlockLexes(alts: seq<Concept>, follow: string, fs: seq<Token>, sep: string)
    requires Separator(sep) && |alts| > 0 && AllPlain(alts) && Follows(follow) && Lexes(follow, fs)
    ensures Lexes(BlockText(Concepts.Keys(alts), sep) + follow, BlockLexemes(alts, sep) + fs)
  {
    CloseLexes(follow, fs);
    AltsLexes(alts, "]" + follow, [Lexeme(RightSquare, "]")] + fs, sep);
    WrapLexes(Join(Concepts.Keys(alts), sep), follow, AltLexemes(alts, sep), fs);
  }

  lemma RowStarts(rows: seq<seq<Concept>>, follow: string, sep: string)
    requires |rows| > 0
    ensures StartsPart(RowText(rows, sep) + follow)
  {
    var ts := BlockTexts(rows, sep);
    assert ts[0] == "[" + Join(Concepts.Keys(rows[0]), sep) + "]";
    JoinFirst(ts, " ", follow);
  }

  lemma BlockSpaceBefore(rows: seq<seq<Concept>>, follow: string, more: seq<Token>, sep: string)
    requires |rows| > 0 && Lexes(RowText(rows, sep) + follow, more)
    ensures Lexes(" " + (RowText(rows, sep) + follow), [Lexeme(Spaces, " ")] + more)
  {
    RowStarts(rows, follow, sep);
    SpaceFirst(RowText(rows, sep) + follow);
    LexesCons(" ", Spaces, RowText(rows, sep) + follow, more);
  }

  lemma {:induction false} RowLexes(rows: seq<seq<Concept>>, follow: string, fs: seq<Token>, sep: string)
    requires Separator(sep) && |rows| > 0 && PlainRows(rows) && Follows(follow) && Lexes(follow, fs)
    ensures Lexes(RowText(rows, sep) + follow, RowLexemes(rows, sep) + fs)
  {
    if |rows| == 1 {
      assert RowText(rows, sep) == BlockText(Concepts.Keys(rows[0]), sep);
      BlockLexes(rows[0], follow, fs, sep);
    } else {
      var rest := RowText(rows[1..], sep);
      var more := RowLexemes(rows[1..], sep) + fs;
      RowLexes(rows[1..], follow, fs, sep);
      BlockSpaceBefore(rows[1..], follow, more, sep);
      BlockLexes(rows[0], " " + (rest + follow), [Lexeme(Spaces, " ")] + more, sep);
      var first := BlockText(Concepts.Keys(rows[0]), sep);
      SpaceLexes(first, rest + follow, BlockLexemes(rows[0], sep), more);
      TextsCons(rows, sep);
      Reassociate(first, " ", rest, follow);
      Reassociate(BlockLexemes(rows[0], sep), [Lexeme(Spaces, " ")], RowLexemes(rows[1..], sep), fs);
    }
  }

  /** The tokenizer reads a row as the tokens of its blocks. */
  lemma RowTokens(rows: seq<seq<Concept>>, sep: string)
    requires Separator(sep) && |rows| > 0 && PlainRows(rows)
    ensures Tokenize(RowText(rows, sep)).Ok? && SameKinds(Tokenize(RowText(rows, sep)).value, RowLexemes(rows, sep))
  {
    RowLexes(rows, "", [], sep);
    assert RowText(rows, sep) + "" == RowText(rows, sep);
    assert RowLexemes(rows, sep) + [] == RowLexemes(rows, sep);
    TokenizeLexes(RowText(rows, sep), None, RowLexemes(rows, sep));
  }

  // The tree of a row.

  /** The branches of a block of alternatives: one per alternative, holding its top-level parts. */
  function AltBranches(alts: seq<Concept>): (bs: seq<Branch>)
    ensures |bs| == |alts|
  {
    if |alts| == 0 then [] else [BranchNode(NodesOf(TopParts(alts[0])))] + AltBranches(alts[1..])
  }

  function RowNodes(rows: seq<seq<Concept>>): (ns: seq<Node>)
    ensures |ns| == |rows|
  {
    if |rows| == 0 then [] else [Sub(Block(Nested, AltBranches(rows[0])))] + RowNodes(rows[1..])
  }

  /** One alternative and the `,` after it: a branch more in the innermost frame. */
  lemma RunAltComma(d: seq<Branch>, att: bool, fr: seq<Frame>, f: Frame, a: Concept, rest: seq<Token>, sep: string)
    requires Plain(a)
    ensures Run(Open(Cursor(d, att, fr + [f], [])), PartsLexemes(TopParts(a)) + [Lexeme(Branch, sep)] + rest)
      == Run(Open(Cursor(d, att, fr + [f.(earlier := f.earlier + [BranchNode(NodesOf(TopParts(a)))])], [])), rest)
  {
    var cu := Cursor(d, att, fr + [f], []);
    TopPartsPlain(a);
    var ns := NodesOf(TopParts(a));
    RunParts(cu, TopParts(a));
    assert cu.cur + ns == ns;
    var filled := Cursor(d, att, fr + [f], ns);
    var comma := [Lexeme(Branch, sep)];
    RunAppend(Open(cu), PartsLexemes(TopParts(a)) + comma, rest);
    RunAppend(Open(cu), PartsLexemes(TopParts(a)), comma);
    RunSingle(Open(filled), comma[0]);
    assert (fr + [f])[..|fr|] == fr;
  }

  /** The branches of all alternatives but the last. */
  function InitBranches(alts: seq<Concept>): seq<Branch>
    requires |alts| > 0
  {
    AltBranches(alts[..|alts| - 1])
  }

  function LastNodes(alts: seq<Concept>): seq<Node>
    requires |alts| > 0
  {
    NodesOf(TopParts(alts[|alts| - 1]))
  }

  lemma InitBranchesCons(alts: seq<Concept>, earlier: seq<Branch>)
    requires |alts| >= 2
    ensures earlier + [BranchNode(NodesOf(TopParts(alts[0])))] + InitBranches(alts[1..]) == earlier + InitBranches(alts)
    ensures LastNodes(alts[1..]) == LastNodes(alts)
  {
    var init := alts[..|alts| - 1];
    assert init[1..] == alts[1..][..|alts| - 2];
    assert alts[1..][|alts[1..]| - 1] == alts[|alts| - 1];
  }

  lemma LastAltAlone(alts: seq<Concept>, f: Frame)
    requires |alts| == 1
    ensures f.(earlier := f.earlier + InitBranches(alts)) == f
    ensures LastNodes(alts) == NodesOf(TopParts(alts[0]))
  {
    assert alts[..0] == [];
  }

  lemma RunLastAlt(d: seq<Branch>, att: bool, fr: seq<Frame>, f: Frame, a: Concept)
    requires Plain(a)
    ensures Run(Open(Cursor(d, att, fr + [f], [])), PartsLexemes(TopParts(a)))
      == Open(Cursor(d, att, fr + [f], NodesOf(TopParts(a))))
  {
    var cu := Cursor(d, att, fr + [f], []);
    TopPartsPlain(a);
    RunParts(cu, TopParts(a));
    assert cu.cur + NodesOf(TopParts(a)) == NodesOf(TopParts(a));
  }

  lemma {:induction false} RunAlts(d: seq<Branch>, att: bool, fr: seq<Frame>, f: Frame, alts: seq<Concept>, sep: string)
    requires |alts| > 0 && AllPlain(alts)
    ensures Run(Open(Cursor(d, att, fr + [f], [])), AltLexemes(alts, sep))
      == Open(Cursor(d, att, fr + [f.(earlier := f.earlier + InitBranches(alts))], LastNodes(alts)))
    decreases |alts|
  {
    var a := alts[0];
    if |alts| == 1 {
      RunLastAlt(d, att, fr, f, a);
      LastAltAlone(alts, f);
    } else {
      RunAltComma(d, att, fr, f, a, AltLexemes(alts[1..], sep), sep);
      var g := f.(earlier := f.earlier + [BranchNode(NodesOf(TopParts(a)))]);
      RunAlts(d, att, fr, g, alts[1..], sep);
      InitBranchesCons(alts, f.earlier);
    }
  }

  lemma RunBlock(cu: Cursor, alts: seq<Concept>, sep: string)
    requires |alts| > 0 && AllPlain(alts)
    ensures Run(Open(cu), BlockLexemes(alts, sep)) == Open(AppendChild(cu, Sub(Block(Nested, AltBranches(alts)))))
  {
    var f := Frame(Nested, [], cu.cur);
    RunAlts(cu.done, cu.attached, cu.frames, f, alts, sep);
    assert OpenBlock(cu, Nested) == Cursor(cu.done, cu.attached, cu.frames + [f], []);
    assert f.(earlier := f.earlier + InitBranches(alts)) == Frame(Nested, InitBranches(alts), cu.cur);
    TopPartsPlain(alts[|alts| - 1]);
    RunNested(cu, AltLexemes(alts, sep), InitBranches(alts), LastNodes(alts));
    LastBranch(alts);
  }

  lemma {:induction false} LastBranch(alts: seq<Concept>)
    requires |alts| > 0
    ensures InitBranches(alts) + [BranchNode(LastNodes(alts))] == AltBranches(alts)
  {
    assert AltBranches(alts) == [BranchNode(NodesOf(TopParts(alts[0])))] + AltBranches(alts[1..]);
    if |alts| == 1 {
      assert alts[..0] == [] && alts[1..] == [];
    } else {
      var b := BranchNode(NodesOf(TopParts(alts[0])));
      LastBranch(alts[1..]);
      InitBranchesCons(alts, []);
      assert [] + [b] + InitBranches(alts[1..]) == [b] + InitBranches(alts[1..]);
      assert [] + InitBranches(alts) == InitBranches(alts);
      assert InitBranches(alts) + [BranchNode(LastNodes(alts))]
        == [b] + (InitBranches(alts[1..]) + [BranchNode(LastNodes(alts[1..]))]);
    }
  }

  /** One block and the space after it: a node more in the current branch. */
  lemma RunBlockSpace(cu: Cursor, alts: seq<Concept>, rest: seq<Token>, sep: string)
    requires |alts| > 0 && AllPlain(alts)
    ensures Run(Open(cu), BlockLexemes(alts, sep) + [Lexeme(Spaces, " ")] + rest)
      == Run(Open(AppendChild(cu, Sub(Block(Nested, AltBranches(alts))))), rest)
  {
    RunBlock(cu, alts, sep);
    var after := AppendChild(cu, Sub(Block(Nested, AltBranches(alts))));
    var space := [Lexeme(Spaces, " ")];
    RunAppend(Open(cu), BlockLexemes(alts, sep) + space, rest);
    RunAppend(Open(cu), BlockLexemes(alts, sep), space);
    RunSingle(Open(after), space[0]);
  }

  lemma RowCons(cu: Cursor, rows: seq<seq<Concept>>, sep: string)
    requires |rows| >= 2
    ensures RowLexemes(rows, sep) == BlockLexemes(rows[0], sep) + [Lexeme(Spaces, " ")] + RowLexemes(rows[1..], sep)
    ensures AppendChild(cu, Sub(Block(Nested, AltBranches(rows[0])))).cur + RowNodes(rows[1..]) == cu.cur + RowNodes(rows)
  {
    RowNodesCons(cu.cur, rows);
  }

  lemma RowNodesCons(cur: seq<Node>, rows: seq<seq<Concept>>)
    requires |rows| > 0
    ensures cur + [Sub(Block(Nested, AltBranches(rows[0])))] + RowNodes(rows[1..]) == cur + RowNodes(rows)
  {
    assert RowNodes(rows) == [Sub(Block(Nested, AltBranches(rows[0])))] + RowNodes(rows[1..]);
  }

  lemma RowAlone(cu: Cursor, rows: seq<seq<Concept>>, sep: string)
    requires |rows| == 1
    ensures RowLexemes(rows, sep) == BlockLexemes(rows[0], sep)
    ensures AppendChild(cu, Sub(Block(Nested, AltBranches(rows[0])))) == cu.(cur := cu.cur + RowNodes(rows))
  {
    assert RowNodes(rows) == [Sub(Block(Nested, AltBranches(rows[0])))];
  }

  lemma {:induction false} RunRow(cu: Cursor, rows: seq<seq<Concept>>, sep: string)
    requires |rows| > 0 && PlainRows(rows)
    ensures Run(Open(cu), RowLexemes(rows, sep)) == Open(cu.(cur := cu.cur + RowNodes(rows)))
    decreases |rows|
  {
    var after := AppendChild(cu, Sub(Block(Nested, AltBranches(rows[0]))));
    if |rows| == 1 {
      RunBlock(cu, rows[0], sep);
      RowAlone(cu, rows, sep);
    } else {
      RowCons(cu, rows, sep);
      RunBlockSpace(cu, rows[0], RowLexemes(rows[1..], sep), sep);
      RunRow(after, rows[1..], sep);
    }
  }

  lemma RowRunLexemes(rows: seq<seq<Concept>>, sep: string)
    requires |rows| > 0 && PlainRows(rows)
    ensures Run(Open(Initial), RowLexemes(rows, sep)) == Open(Cursor([], true, [], RowNodes(rows)))
  {
    RunRow(Initial, rows, sep);
    assert Initial.(cur := Initial.cur + RowNodes(rows)) == Cursor([], true, [], RowNodes(rows));
  }

  lemma RowRun(rows: seq<seq<Concept>>, sep: string)
    requires Separator(sep) && |rows| > 0 && PlainRows(rows)
    ensures Tokenize(RowText(rows, sep)).Ok?
    ensures Run(Open(Initial), Tokenize(RowText(rows, sep)).value) == Open(Cursor([], true, [], RowNodes(rows)))
  {
    RowTokens(rows, sep);
    var ts := Tokenize(RowText(rows, sep)).value;
    RunSameKinds(Open(Initial), ts, RowLexemes(rows, sep));
    RowRunLexemes(rows, sep);
  }

  lemma RowTree(rows: seq<seq<Concept>>, sep: string)
    requires Separator(sep) && |rows| > 0 && PlainRows(rows)
    ensures Tokenize(RowText(rows, sep)).Ok?
    ensures ExpansionTree(Tokenize(RowText(rows, sep)).value) == Ok(Block(Inline, [BranchNode(RowNodes(rows))]))
  {
    RowRun(rows, sep);
    FinishNodes(RowNodes(rows));
  }

  // The permutations of a row.

  /** The top-level parts of each alternative. */
  function TopsOf(alts: seq<Concept>): (ps: seq<seq<Concept>>)
    ensures |ps| == |alts|
    ensures forall i :: 0 <= i < |alts| ==> ps[i] == TopParts(alts[i])
  {
    if |alts| == 0 then [] else [TopParts(alts[0])] + TopsOf(alts[1..])
  }

  lemma OneAlt(a: Concept)
    requires Plain(a)
    ensures Next(NodesOf(TopParts(a)), []) == [Emission(TopParts(a), false)]
  {
    TopPartsPlain(a);
    NextNodes(TopParts(a), []);
    ExtendAllFresh(TopParts(a));
  }

  lemma {:induction false} VisitAlts(alts: seq<Concept>)
    requires AllPlain(alts)
    ensures VisitBranches(AltBranches(alts)) == Mark(TopsOf(alts), false)
  {
    if |alts| > 0 {
      var bs := AltBranches(alts);
      assert bs[1..] == AltBranches(alts[1..]);
      assert TopsOf(alts)[1..] == TopsOf(alts[1..]);
      OneAlt(alts[0]);
      VisitAlts(alts[1..]);
    }
  }

  lemma WrapTops(alts: seq<Concept>)
    requires AllPlain(alts)
    ensures AllNonEmpty(TopsOf(alts))
    ensures Wrap(TopsOf(alts)) == Singles(alts)
  {
    var tops := TopsOf(alts);
    forall i | 0 <= i < |alts|
      ensures |tops[i]| > 0 && Build(tops[i]) == alts[i]
    {
      TopPartsPlain(alts[i]);
    }
  }

  /** A nested block of plain alternatives contributes each alternative as one part. */
  lemma BlockStep(alts: seq<Concept>, prefixes: seq<seq<Concept>>)
    requires |alts| > 0 && AllPlain(alts) && AllNonEmpty(prefixes)
    ensures HandleBlock(Nested, Mark(TopsOf(alts), false), prefixes) == ([], Combine(prefixes, Singles(alts)))
  {
    var tops := TopsOf(alts);
    WrapTops(alts);
    SplitMarked(tops);
    assert tops + [] == tops;
  }

  /** The first block of a row, taken as the `combine` of its alternatives. */
  lemma RowHead(rows: seq<seq<Concept>>, prefixes: seq<seq<Concept>>)
    requires |rows| > 0 && PlainRows(rows) && AllNonEmpty(prefixes)
    ensures AllNonEmpty(Combine(prefixes, Singles(rows[0])))
    ensures Next(RowNodes(rows), prefixes) == Next(RowNodes(rows[1..]), Combine(prefixes, Singles(rows[0])))
  {
    var nodes := RowNodes(rows);
    assert nodes[1..] == RowNodes(rows[1..]);
    VisitAlts(rows[0]);
    BlockStep(rows[0], prefixes);
    var next := Combine(prefixes, Singles(rows[0]));
    CombineNonEmpty(prefixes, Singles(rows[0]));
    assert [] + Next(nodes[1..], next) == Next(nodes[1..], next);
  }

  lemma {:induction false} NextRow(rows: seq<seq<Concept>>, prefixes: seq<seq<Concept>>)
    requires PlainRows(rows) && AllNonEmpty(prefixes)
    ensures AllNonEmpty(Choices(prefixes, rows))
    ensures Next(RowNodes(rows), prefixes) == Mark(Choices(prefixes, rows), false)
    decreases |rows|
  {
    if |rows| > 0 {
      RowHead(rows, prefixes);
      NextRow(rows[1..], Combine(prefixes, Singles(rows[0])));
    }
  }

  /** Lists of plain parts. */
  predicate PlainPerms(ps: seq<seq<Concept>>)
  {
    forall i :: 0 <= i < |ps| ==> AllPlain(ps[i])
  }

  lemma {:induction false} CrossPlain(ls: seq<seq<Concept>>, rs: seq<seq<Concept>>)
    requires PlainPerms(ls) && PlainPerms(rs)
    ensures PlainPerms(Cross(ls, rs))
  {
    if |ls| > 0 {
      CrossPlain(ls[1..], rs);
      var first := PrependEach(ls[0], rs);
      assert PlainPerms(first) by {
        forall j | 0 <= j < |rs|
          ensures AllPlain(first[j])
        {
          assert first[j] == ls[0] + rs[j];
        }
      }
    }
  }

  lemma {:induction false} ChoicesPlain(prefixes: seq<seq<Concept>>, rows: seq<seq<Concept>>)
    requires PlainPerms(prefixes) && PlainRows(rows)
    ensures PlainPerms(Choices(prefixes, rows))
    decreases |rows|
  {
    if |rows| > 0 {
      var singles := Singles(rows[0]);
      assert PlainPerms(singles);
      if |prefixes| > 0 {
        CrossPlain(prefixes, singles);
      }
      ChoicesPlain(Combine(prefixes, singles), rows[1..]);
    }
  }

  lemma ApplyAllPlain(perms: seq<seq<Concept>>)
    requires AllNonEmpty(perms) && PlainPerms(perms)
    ensures ApplyAll(perms, AllPlugins) == perms
  {
    forall i | 0 <= i < |perms|
      ensures ApplyAll(perms, AllPlugins)[i] == perms[i]
    {
      PluginsKeepPlain(perms[i]);
    }
  }

  lemma RowPermutations(rows: seq<seq<Concept>>)
    requires |rows| > 0 && PlainRows(rows)
    ensures AllNonEmpty(Choices([], rows)) && PlainPerms(Choices([], rows))
    ensures Permutations(Block(Inline, [BranchNode(RowNodes(rows))])) == Choices([], rows)
  {
    VisitOne(BranchNode(RowNodes(rows)));
    NextRow(rows, []);
    ChoicesPlain([], rows);
  }

  /**
   * A row of nested blocks of plain alternatives parses into one concept per
   * choice of one alternative from each block, built in the order of the
   * choices, duplicates by key dropped.
   */
  lemma RowParses(rows: seq<seq<Concept>>, sep: string)
    requires Separator(sep) && |rows| > 0 && PlainRows(rows)
    ensures AllNonEmpty(Choices([], rows))
    ensures Parse(RowText(rows, sep)) == Ok(UniqueByKey(BuildAll(Choices([], rows))))
  {
    RowTree(rows, sep);
    assert Join([RowText(rows, sep)], "\n") == RowText(rows, sep);
    var root := Block(Inline, [BranchNode(RowNodes(rows))]);
    ParseThrough([RowText(rows, sep)], AllPlugins, Tokenize(RowText(rows, sep)).value, root);
    RowPermutations(rows);
    ApplyAllPlain(Choices([], rows));
  }

  /** Two rows, the first a single concept: that concept followed by each alternative of the second. */
  lemma ChoicesAfterOne(x: Concept, ys: seq<Concept>)
    requires |ys| > 0
    ensures Choices([], [[x], ys]) == PrependEach([x], Singles(ys))
    ensures AllNonEmpty(Choices([], [[x], ys]))
  {
    var rows := [[x], ys];
    assert Singles([x]) == [[x]];
    assert Combine([], Singles([x])) == [[x]];
    assert rows[1..] == [ys];
    assert Choices([], rows) == Choices([[x]], [ys]);
    assert [ys][1..] == [];
    assert Choices([[x]], [ys]) == Choices(Combine([[x]], Singles(ys)), []);
    CombineSingle([x], Singles(ys));
  }

  /** The key of a two-part compound. */
  lemma PairKey(x: Concept, y: Concept)
    ensures Key(Compound([x, y])) == PartKey(x) + " " + PartKey(y)
  {
    assert PartKeys([x, y]) == [PartKey(x), PartKey(y)] by {
      assert [x, y][1..] == [y];
    }
    var ks := [PartKey(x), PartKey(y)];
    assert ks[1..] == [PartKey(y)];
    assert Join(ks, " ") == ks[0] + " " + Join(ks[1..], " ");
  }

  lemma PlainPair(x: Concept, y: Concept)
    requires Plain(x) && Plain(y) && Key(x) != ":"
    ensures Plain(Compound([x, y]))
  {
  }

  /** `j [k v]`: the key of a compound of an atom and a compound of two atoms. */
  lemma NestedPairKey(j: string, k: string, v: string)
    ensures Key(Compound([Atom(j), Compound([Atom(k), Atom(v)])])) == j + " [" + k + " " + v + "]"
  {
    PairKey(Atom(k), Atom(v));
    PairKey(Atom(j), Compound([Atom(k), Atom(v)]));
    assert PartKey(Compound([Atom(k), Atom(v)])) == "[" + (k + " " + v) + "]";
  }

  /** Texts that differ after a common beginning differ. */
  lemma SuffixDiffers(a: string, s1: string, s2: string)
    requires s1 != s2
    ensures a + s1 != a + s2
  {
    assert (a + s1)[|a|..] == s1 && (a + s2)[|a|..] == s2;
  }

  lemma BracketDiffers(k1: string, k2: string)
    requires k1 != k2
    ensures "[" + k1 + "]" != "[" + k2 + "]"
  {
    if |k1| == |k2| {
      assert ("[" + k1 + "]")[1..|k1| + 1] == k1;
      assert ("[" + k2 + "]")[1..|k2| + 1] == k2;
    }
  }

  /** Two pairs with the same first part and different second parts have different keys. */
  lemma PairKeysDiffer(x: Concept, y1: Concept, y2: Concept)
    requires PartKey(y1) != PartKey(y2)
    ensures Key(Compound([x, y1])) != Key(Compound([x, y2]))
  {
    PairKey(x, y1);
    PairKey(x, y2);
    SuffixDiffers(PartKey(x) + " ", PartKey(y1), PartKey(y2));
  }

  /** Building `x` before each of `ys`. */
  lemma PairBuilt(x: Concept, ys: seq<Concept>)
    requires Key(x) != ":"
    ensures |BuildAll(PrependEach([x], Singles(ys)))| == |ys|
    ensures forall i :: 0 <= i < |ys| ==> BuildAll(PrependEach([x], Singles(ys)))[i] == Compound([x, ys[i]])
  {
    var ps := PrependEach([x], Singles(ys));
    forall i | 0 <= i < |ys|
      ensures BuildAll(ps)[i] == Compound([x, ys[i]])
    {
      assert ps[i] == [x] + [ys[i]] == [x, ys[i]];
      BuildPair(x, ys[i]);
    }
  }

  lemma BuildPair(x: Concept, y: Concept)
    requires Key(x) != ":"
    ensures Build([x, y]) == Compound([x, y])
  {
  }

  /** The row `[x] [y]` gives the one pair. */
  lemma PairChoicesOne(x: Concept, y: Concept)
    requires Key(x) != ":"
    ensures AllNonEmpty(Choices([], [[x], [y]]))
    ensures UniqueByKey(BuildAll(Choices([], [[x], [y]]))) == [Compound([x, y])]
  {
    ChoicesAfterOne(x, [y]);
    PairBuilt(x, [y]);
    assert BuildAll(PrependEach([x], Singles([y]))) == [Compound([x, y])];
    UniqueByKeySingle(Compound([x, y]));
  }

  /** The row `[x] [y1,y2]` gives two pairs, in order. */
  lemma PairChoicesTwo(x: Concept, y1: Concept, y2: Concept)
    requires Key(x) != ":" && PartKey(y1) != PartKey(y2)
    ensures AllNonEmpty(Choices([], [[x], [y1, y2]]))
    ensures UniqueByKey(BuildAll(Choices([], [[x], [y1, y2]]))) == [Compound([x, y1]), Compound([x, y2])]
  {
    ChoicesAfterOne(x, [y1, y2]);
    PairBuilt(x, [y1, y2]);
    var built := [Compound([x, y1]), Compound([x, y2])];
    assert BuildAll(PrependEach([x], Singles([y1, y2]))) == built;
    PairKeysDiffer(x, y1, y2);
    UniqueOfTwo(built[0], built[1]);
  }

  lemma UniqueOfTwo(a: Concept, b: Concept)
    requires Key(a) != Key(b)
    ensures UniqueByKey([a, b]) == [a, b]
  {
    assert DistinctKeys([a, b]);
    UniqueByKeyOfDistinct([a, b]);
  }

  lemma PairRowsPlain(x: Concept, ys: seq<Concept>)
    requires Plain(x) && |ys| > 0 && AllPlain(ys)
    ensures PlainRows([[x], ys])
  {
    assert AllPlain([x]);
  }

  lemma TwoPlain(y1: Concept, y2: Concept)
    requires Plain(y1) && Plain(y2)
    ensures AllPlain([y1, y2])
  {
  }

  lemma OnePlain(y: Concept)
    requires Plain(y)
    ensures AllPlain([y])
  {
  }
}
