/**
 * The expansion examples read from their text: `a b {x, y}`, an inline
 * block of alternatives after two words, and `x (p)`, a parenthetical
 * after one word.
 */
module ExpansionText {
  import opened Wrappers
  import opened Strings
  import opened Concepts
  import opened Tokenization
  import opened Plugins
  import opened Expansion
  import opened Alternatives
  import opened ReadBack

  /** A key that can stand as a word of the examples. */
  predicate Word(k: string)
  {
    SimpleKey(k) && k != "&" && k != ":"
  }

  lemma WordStarts(k: string, t: string)
    requires SimpleKey(k)
    ensures StartsPart(k + t)
  {
    assert (k + t)[0] == k[0];
  }

  // Lexing, one token at a time from the end.

  lemma LexWord(k: string, follow: string, fs: seq<Token>)
    requires SimpleKey(k) && Follows(follow) && Lexes(follow, fs)
    ensures Lexes(k + follow, [Lexeme(AtomToken, k)] + fs)
  {
    AtomBefore(k, follow);
    LexesCons(k, AtomToken, follow, fs);
  }

  lemma LexDelimiter(ch: char, rest: string, fs: seq<Token>)
    requires IsDelimiter(ch) && Lexes(rest, fs)
    ensures Lexes([ch] + rest, [Lexeme(DelimiterType(ch), [ch])] + fs)
  {
    DelimiterFirst(ch, rest);
    LexesCons([ch], DelimiterType(ch), rest, fs);
  }

  lemma LexSpace(rest: string, fs: seq<Token>)
    requires StartsPart(rest) && Lexes(rest, fs)
    ensures Lexes(" " + rest, [Lexeme(Spaces, " ")] + fs)
  {
    SpaceFirst(rest);
    LexesCons(" ", Spaces, rest, fs);
  }

  lemma LexCommaSpace(rest: string, fs: seq<Token>)
    requires StartsPart(rest) && Lexes(rest, fs)
    ensures Lexes(", " + rest, [Lexeme(Branch, ", ")] + fs)
  {
    CommaSpaceFirst(rest);
    LexesCons(", ", Branch, rest, fs);
  }

  // `a b {x, y}`.

  function InlineText(a: string, b: string, x: string, y: string): string
  {
    a + " " + b + " {" + x + ", " + y + "}"
  }

  function InlineLexemes(a: string, b: string, x: string, y: string): seq<Token>
  {
    [Lexeme(AtomToken, a), Lexeme(Spaces, " "), Lexeme(AtomToken, b), Lexeme(Spaces, " "),
     Lexeme(LeftCurly, "{"), Lexeme(AtomToken, x), Lexeme(Branch, ", "), Lexeme(AtomToken, y),
     Lexeme(RightCurly, "}")]
  }

  /** Three texts, regrouped. */
  lemma Assoc(a: string, b: string, c: string)
    ensures a + b + c == a + (b + c)
  {
  }

  /** `a b {x, y}`, grouped from the end, as the tokens are taken from it. */
  lemma InlineRegroup(a: string, b: string, x: string, y: string)
    ensures InlineText(a, b, x, y) == a + (" " + (b + (" " + ("{" + (x + (", " + (y + "}")))))))
  {
    var r3 := x + (", " + (y + "}"));
    var l2 := a + " ";
    var l3 := l2 + b;
    var l4 := l3 + " {";
    var l5 := l4 + x;
    var l6 := l5 + ", ";
    Assoc(l6, y, "}");
    Assoc(l5, ", ", y + "}");
    Assoc(l4, x, ", " + (y + "}"));
    Assoc(l3, " {", r3);
    assert " {" == " " + "{";
    Assoc(" ", "{", r3);
    Assoc(l2, b, " " + ("{" + r3));
    Assoc(a, " ", b + (" " + ("{" + r3)));
  }

  /** The block `{x, y}` and what closes it. */
  lemma InlineBlockLexes(x: string, y: string)
    requires SimpleKey(x) && SimpleKey(y)
    ensures Lexes("{" + (x + (", " + (y + "}"))),
                  [Lexeme(LeftCurly, "{"), Lexeme(AtomToken, x), Lexeme(Branch, ", "), Lexeme(AtomToken, y), Lexeme(RightCurly, "}")])
  {
    LexDelimiter('}', "", []);
    assert "}" + "" == "}";
    LexWord(y, "}", [Lexeme(RightCurly, "}")]);
    WordStarts(y, "}");
    LexCommaSpace(y + "}", [Lexeme(AtomToken, y), Lexeme(RightCurly, "}")]);
    LexWord(x, ", " + (y + "}"), [Lexeme(Branch, ", "), Lexeme(AtomToken, y), Lexeme(RightCurly, "}")]);
    LexDelimiter('{', x + (", " + (y + "}")), [Lexeme(AtomToken, x), Lexeme(Branch, ", "), Lexeme(AtomToken, y), Lexeme(RightCurly, "}")]);
  }

  /** `b {x, y}`, after the first word and its space. */
  lemma InlineRestLexes(a: string, b: string, x: string, y: string)
    requires SimpleKey(b) && SimpleKey(x) && SimpleKey(y)
    ensures Lexes(b + (" " + ("{" + (x + (", " + (y + "}"))))), InlineLexemes(a, b, x, y)[2..])
  {
    var block := "{" + (x + (", " + (y + "}")));
    var us := InlineLexemes(a, b, x, y);
    InlineBlockLexes(x, y);
    assert us[4..] == [Lexeme(LeftCurly, "{"), Lexeme(AtomToken, x), Lexeme(Branch, ", "), Lexeme(AtomToken, y), Lexeme(RightCurly, "}")];
    LexSpace(block, us[4..]);
    assert [Lexeme(Spaces, " ")] + us[4..] == us[3..];
    LexWord(b, " " + block, us[3..]);
    assert [Lexeme(AtomToken, b)] + us[3..] == us[2..];
  }

  lemma InlineLexes(a: string, b: string, x: string, y: string)
    requires SimpleKey(a) && SimpleKey(b) && SimpleKey(x) && SimpleKey(y)
    ensures Lexes(InlineText(a, b, x, y), InlineLexemes(a, b, x, y))
  {
    var rest := b + (" " + ("{" + (x + (", " + (y + "}")))));
    var us := InlineLexemes(a, b, x, y);
    InlineRestLexes(a, b, x, y);
    WordStarts(b, " " + ("{" + (x + (", " + (y + "}")))));
    LexSpace(rest, us[2..]);
    assert [Lexeme(Spaces, " ")] + us[2..] == us[1..];
    LexWord(a, " " + rest, us[1..]);
    assert [Lexeme(AtomToken, a)] + us[1..] == us;
    InlineRegroup(a, b, x, y);
  }

  // The parser, one token at a time.

  lemma StepWord(c: Cursor, k: string)
    requires SimpleKey(k)
    ensures Step(Open(c), Lexeme(AtomToken, k)) == Open(c.(cur := c.cur + [Leaf(Atom(k))]))
  {
    SimpleKeyPasses(k);
  }

  lemma StepSpace(c: Cursor)
    ensures Step(Open(c), Lexeme(Spaces, " ")) == Open(c)
  {
  }

  /** An opening bracket opens a block of its kind below the cursor. */
  lemma StepOpen(c: Cursor, t: TokenType, v: string, kind: BlockKind)
    requires (t == LeftCurly && kind == Inline) || (t == LeftParen && kind == Parenthetical)
    ensures Step(Open(c), Lexeme(t, v)) == Open(c.(frames := c.frames + [Frame(kind, [], c.cur)], cur := []))
  {
  }

  /** `, ` inside one block ends the cursor's branch. */
  lemma StepComma(f: Frame, cur: seq<Node>)
    requires |cur| > 0
    ensures Step(Open(Cursor([], true, [f], cur)), Lexeme(Branch, ", "))
      == Open(Cursor([], true, [f.(earlier := f.earlier + [BranchNode(cur)])], []))
  {
    assert [f][..0] == [];
  }

  /** The bracket that closes the one open block puts it after the children above it. */
  lemma StepClose(f: Frame, cur: seq<Node>, t: TokenType, v: string)
    requires |cur| > 0
    requires (t == RightCurly && f.kind == Inline) || (t == RightParen && f.kind == Parenthetical)
    ensures Step(Open(Cursor([], true, [f], cur)), Lexeme(t, v))
      == Open(Cursor([], true, [], f.above + [Sub(Block(f.kind, f.earlier + [BranchNode(cur)]))]))
  {
    assert [f][..0] == [];
  }

  /** One step of the parser at position `i` of the tokens. */
  lemma RunFrom(st: ParseState, us: seq<Token>, i: nat, next: ParseState)
    requires i < |us| && Step(st, us[i]) == next
    ensures Run(st, us[i..]) == Run(next, us[i + 1..])
  {
    assert us[i..][0] == us[i] && us[i..][1..] == us[i + 1..];
  }

  /** The words before the block: two leaves. */
  lemma InlineRunWords(a: string, b: string, x: string, y: string)
    requires SimpleKey(a) && SimpleKey(b)
    ensures Run(Open(Initial), InlineLexemes(a, b, x, y))
      == Run(Open(Cursor([], true, [], [Leaf(Atom(a)), Leaf(Atom(b))])), InlineLexemes(a, b, x, y)[4..])
  {
    var us := InlineLexemes(a, b, x, y);
    var c1 := Cursor([], true, [], [Leaf(Atom(a))]);
    var c2 := Cursor([], true, [], [Leaf(Atom(a)), Leaf(Atom(b))]);
    StepWord(Initial, a);
    RunFrom(Open(Initial), us, 0, Open(c1));
    StepSpace(c1);
    RunFrom(Open(c1), us, 1, Open(c1));
    StepWord(c1, b);
    RunFrom(Open(c1), us, 2, Open(c2));
    StepSpace(c2);
    RunFrom(Open(c2), us, 3, Open(c2));
  }

  /** The block opened and its first branch ended. */
  lemma InlineRunFirst(a: string, b: string, x: string, y: string)
    requires SimpleKey(x)
    ensures var la, lb := Leaf(Atom(a)), Leaf(Atom(b));
      Run(Open(Cursor([], true, [], [la, lb])), InlineLexemes(a, b, x, y)[4..])
        == Run(Open(Cursor([], true, [Frame(Inline, [BranchNode([Leaf(Atom(x))])], [la, lb])], [])), InlineLexemes(a, b, x, y)[7..])
  {
    var us := InlineLexemes(a, b, x, y);
    var la, lb, lx := Leaf(Atom(a)), Leaf(Atom(b)), Leaf(Atom(x));
    var c2 := Cursor([], true, [], [la, lb]);
    var f := Frame(Inline, [], [la, lb]);
    StepOpen(c2, LeftCurly, "{", Inline);
    RunFrom(Open(c2), us, 4, Open(Cursor([], true, [f], [])));
    StepWord(Cursor([], true, [f], []), x);
    RunFrom(Open(Cursor([], true, [f], [])), us, 5, Open(Cursor([], true, [f], [lx])));
    StepComma(f, [lx]);
    assert f.earlier + [BranchNode([lx])] == [BranchNode([lx])];
    RunFrom(Open(Cursor([], true, [f], [lx])), us, 6, Open(Cursor([], true, [f.(earlier := [BranchNode([lx])])], [])));
  }

  /** The second branch, and the block closed after the words. */
  lemma InlineRunSecond(a: string, b: string, x: string, y: string)
    requires SimpleKey(y)
    ensures var la, lb, lx := Leaf(Atom(a)), Leaf(Atom(b)), Leaf(Atom(x));
      Run(Open(Cursor([], true, [Frame(Inline, [BranchNode([lx])], [la, lb])], [])), InlineLexemes(a, b, x, y)[7..])
        == Open(Cursor([], true, [], [la, lb, Sub(Block(Inline, [BranchNode([lx]), BranchNode([Leaf(Atom(y))])]))]))
  {
    var us := InlineLexemes(a, b, x, y);
    var la, lb, lx, ly := Leaf(Atom(a)), Leaf(Atom(b)), Leaf(Atom(x)), Leaf(Atom(y));
    var g := Frame(Inline, [BranchNode([lx])], [la, lb]);
    var block := Sub(Block(Inline, [BranchNode([lx]), BranchNode([ly])]));
    StepWord(Cursor([], true, [g], []), y);
    RunFrom(Open(Cursor([], true, [g], [])), us, 7, Open(Cursor([], true, [g], [ly])));
    StepClose(g, [ly], RightCurly, "}");
    assert g.earlier + [BranchNode([ly])] == [BranchNode([lx]), BranchNode([ly])];
    assert g.above + [block] == [la, lb, block];
    RunFrom(Open(Cursor([], true, [g], [ly])), us, 8, Open(Cursor([], true, [], [la, lb, block])));
    assert us[9..] == [];
  }

  lemma TwoFlatBranches(x: Concept, y: Concept)
    ensures FlatBranches([[x], [y]]) == [BranchNode([Leaf(x)]), BranchNode([Leaf(y)])]
  {
    assert Leaves([x]) == [Leaf(x)];
    assert Leaves([y]) == [Leaf(y)];
  }

  /** The parser over those tokens: two leaves, then the block of `x` and `y`. */
  lemma InlineRun(a: string, b: string, x: string, y: string)
    requires SimpleKey(a) && SimpleKey(b) && SimpleKey(x) && SimpleKey(y)
    ensures Run(Open(Initial), InlineLexemes(a, b, x, y))
      == Open(Cursor([], true, [], [Leaf(Atom(a)), Leaf(Atom(b)), Sub(Block(Inline, FlatBranches([[Atom(x)], [Atom(y)]])))]))
  {
    InlineRunWords(a, b, x, y);
    InlineRunFirst(a, b, x, y);
    InlineRunSecond(a, b, x, y);
    TwoFlatBranches(Atom(x), Atom(y));
  }

  lemma TripleKey(a: Concept, b: Concept, c: Concept)
    requires IsAtom(a) && IsAtom(b) && IsAtom(c)
    ensures Key(Compound([a, b, c])) == Key(a) + " " + (Key(b) + " " + Key(c))
  {
    var ks := [Key(a), Key(b), Key(c)];
    assert PartKeys([a, b, c]) == ks by {
      assert [c][1..] == [] && PartKeys([c]) == [Key(c)];
      assert [b, c][1..] == [c] && PartKeys([b, c]) == [Key(b), Key(c)];
      assert [a, b, c][1..] == [b, c];
    }
    assert ks[1..] == [Key(b), Key(c)] && ks[1..][1..] == [Key(c)];
    assert Join(ks[1..], " ") == Key(b) + " " + Key(c);
    assert Join(ks, " ") == ks[0] + " " + Join(ks[1..], " ");
  }

  /** `a b x` and `a b y` differ in their keys when `x` and `y` do. */
  lemma InlineKeysDiffer(a: string, b: string, x: string, y: string)
    requires Word(a) && Word(b) && Word(x) && Word(y) && x != y
    ensures Key(Compound([Atom(a), Atom(b), Atom(x)])) != Key(Compound([Atom(a), Atom(b), Atom(y)]))
  {
    TripleKey(Atom(a), Atom(b), Atom(x));
    TripleKey(Atom(a), Atom(b), Atom(y));
    SuffixDiffers(b + " ", x, y);
    SuffixDiffers(a + " ", b + " " + x, b + " " + y);
  }

  /** Three words build into the compound of the three, in order. */
  lemma TripleBuilt(a: string, b: string, c: string)
    requires Word(a) && Word(b) && Word(c)
    ensures AllPlain([Atom(a), Atom(b), Atom(c)])
    ensures Build([Atom(a), Atom(b), Atom(c)]) == Compound([Atom(a), Atom(b), Atom(c)])
  {
  }

  /** `a b {x, y}`'s permutations pass the plugins unchanged and build two compounds. */
  lemma InlineBuilt(a: string, b: string, x: string, y: string)
    requires Word(a) && Word(b) && Word(x) && Word(y)
    ensures var aa, bb, xx, yy := Atom(a), Atom(b), Atom(x), Atom(y);
      BuildAll(ApplyAll([[aa, bb, xx], [aa, bb, yy]], AllPlugins)) == [Compound([aa, bb, xx]), Compound([aa, bb, yy])]
  {
    var aa, bb, xx, yy := Atom(a), Atom(b), Atom(x), Atom(y);
    var perms := [[aa, bb, xx], [aa, bb, yy]];
    TripleBuilt(a, b, x);
    TripleBuilt(a, b, y);
    assert PlainPerms(perms);
    ApplyAllPlain(perms);
  }

  /** The permutations of `a b {x, y}` built and kept: `a b x`, then `a b y`. */
  lemma InlineConcepts(a: string, b: string, x: string, y: string)
    requires Word(a) && Word(b) && Word(x) && Word(y) && x != y
    ensures var aa, bb, xx, yy := Atom(a), Atom(b), Atom(x), Atom(y);
      UniqueByKey(BuildAll(ApplyAll([[aa, bb, xx], [aa, bb, yy]], AllPlugins)))
        == [Compound([aa, bb, xx]), Compound([aa, bb, yy])]
  {
    InlineBuilt(a, b, x, y);
    InlineKeysDiffer(a, b, x, y);
    UniqueOfTwo(Compound([Atom(a), Atom(b), Atom(x)]), Compound([Atom(a), Atom(b), Atom(y)]));
  }

  /** The tree of `a b {x, y}`: the two words, then the block of two alternatives. */
  function InlineRoot(a: string, b: string, x: string, y: string): Block
  {
    Block(Inline, [BranchNode(Leaves([Atom(a), Atom(b)]) + [Sub(Block(Inline, FlatBranches([[Atom(x)], [Atom(y)]])))])])
  }

  /** The children the parser leaves for `a b {x, y}`. */
  function InlineChildren(a: string, b: string, x: string, y: string): seq<Node>
  {
    [Leaf(Atom(a)), Leaf(Atom(b)), Sub(Block(Inline, FlatBranches([[Atom(x)], [Atom(y)]])))]
  }

  lemma InlineTokensRun(a: string, b: string, x: string, y: string)
    requires SimpleKey(a) && SimpleKey(b) && SimpleKey(x) && SimpleKey(y)
    ensures Tokenize(InlineText(a, b, x, y)).Ok?
    ensures Run(Open(Initial), Tokenize(InlineText(a, b, x, y)).value) == Open(Cursor([], true, [], InlineChildren(a, b, x, y)))
  {
    var text := InlineText(a, b, x, y);
    InlineLexes(a, b, x, y);
    TokenizeLexes(text, None, InlineLexemes(a, b, x, y));
    RunSameKinds(Open(Initial), Tokenize(text).value, InlineLexemes(a, b, x, y));
    InlineRun(a, b, x, y);
  }

  lemma InlineTree(a: string, b: string, x: string, y: string)
    requires SimpleKey(a) && SimpleKey(b) && SimpleKey(x) && SimpleKey(y)
    ensures Tokenize(InlineText(a, b, x, y)).Ok?
    ensures ExpansionTree(Tokenize(InlineText(a, b, x, y)).value) == Ok(InlineRoot(a, b, x, y))
  {
    InlineTokensRun(a, b, x, y);
    var children := InlineChildren(a, b, x, y);
    FinishNodes(children);
    assert Leaves([Atom(a), Atom(b)]) == [Leaf(Atom(a)), Leaf(Atom(b))];
    assert Leaves([Atom(a), Atom(b)]) + [children[2]] == children;
  }

  /**
   * `a b {x, y}` reads as two compounds, `a b x` and `a b y`: the inline
   * block splices each alternative in place.
   */
  lemma InlineParses(a: string, b: string, x: string, y: string)
    requires Word(a) && Word(b) && Word(x) && Word(y) && x != y
    ensures Parse(InlineText(a, b, x, y))
      == Ok([Compound([Atom(a), Atom(b), Atom(x)]), Compound([Atom(a), Atom(b), Atom(y)])])
  {
    var text := InlineText(a, b, x, y);
    InlineTree(a, b, x, y);
    assert Join([text], "\n") == text;
    ParseThrough([text], AllPlugins, Tokenize(text).value, InlineRoot(a, b, x, y));
    InlineAfterTwo(Atom(a), Atom(b), Atom(x), Atom(y));
    InlineConcepts(a, b, x, y);
  }

  // `x (p)`.

  function ParentheticalText(x: string, p: string): string
  {
    x + " (" + p + ")"
  }

  function ParentheticalLexemes(x: string, p: string): seq<Token>
  {
    [Lexeme(AtomToken, x), Lexeme(Spaces, " "), Lexeme(LeftParen, "("), Lexeme(AtomToken, p), Lexeme(RightParen, ")")]
  }

  /** The parenthetical `(p)`. */
  lemma ParentheticalBlockLexes(p: string)
    requires SimpleKey(p)
    ensures Lexes("(" + (p + ")"), [Lexeme(LeftParen, "("), Lexeme(AtomToken, p), Lexeme(RightParen, ")")])
  {
    LexDelimiter(')', "", []);
    assert ")" + "" == ")";
    LexWord(p, ")", [Lexeme(RightParen, ")")]);
    LexDelimiter('(', p + ")", [Lexeme(AtomToken, p), Lexeme(RightParen, ")")]);
  }

  lemma ParentheticalLexes(x: string, p: string)
    requires SimpleKey(x) && SimpleKey(p)
    ensures Lexes(ParentheticalText(x, p), ParentheticalLexemes(x, p))
  {
    var us := ParentheticalLexemes(x, p);
    ParentheticalBlockLexes(p);
    assert us[2..] == [Lexeme(LeftParen, "("), Lexeme(AtomToken, p), Lexeme(RightParen, ")")];
    LexSpace("(" + (p + ")"), us[2..]);
    assert [Lexeme(Spaces, " ")] + us[2..] == us[1..];
    LexWord(x, " " + ("(" + (p + ")")), us[1..]);
    assert [Lexeme(AtomToken, x)] + us[1..] == us;
    ParentheticalRegroup(x, p);
  }

  lemma ParentheticalRegroup(x: string, p: string)
    ensures ParentheticalText(x, p) == x + (" " + ("(" + (p + ")")))
  {
    Assoc(x + " (", p, ")");
    Assoc(x, " (", p + ")");
    assert " (" == " " + "(";
    Assoc(" ", "(", p + ")");
  }

  lemma ParentheticalRun(x: string, p: string)
    requires SimpleKey(x) && SimpleKey(p)
    ensures Run(Open(Initial), ParentheticalLexemes(x, p))
      == Open(Cursor([], true, [], [Leaf(Atom(x)), Sub(Block(Parenthetical, FlatBranches([[Atom(p)]])))]))
  {
    var us := ParentheticalLexemes(x, p);
    var lx, lp := Leaf(Atom(x)), Leaf(Atom(p));
    var c1 := Cursor([], true, [], [lx]);
    var f := Frame(Parenthetical, [], [lx]);
    StepWord(Initial, x);
    RunFrom(Open(Initial), us, 0, Open(c1));
    StepSpace(c1);
    RunFrom(Open(c1), us, 1, Open(c1));
    StepOpen(c1, LeftParen, "(", Parenthetical);
    RunFrom(Open(c1), us, 2, Open(Cursor([], true, [f], [])));
    StepWord(Cursor([], true, [f], []), p);
    RunFrom(Open(Cursor([], true, [f], [])), us, 3, Open(Cursor([], true, [f], [lp])));
    StepClose(f, [lp], RightParen, ")");
    assert f.earlier + [BranchNode([lp])] == [BranchNode([lp])];
    assert f.above + [Sub(Block(Parenthetical, [BranchNode([lp])]))] == [lx, Sub(Block(Parenthetical, [BranchNode([lp])]))];
    RunFrom(Open(Cursor([], true, [f], [lp])), us, 4, Open(Cursor([], true, [], [lx, Sub(Block(Parenthetical, [BranchNode([lp])]))])));
    assert us[0..] == us && us[5..] == [];
    assert Leaves([Atom(p)]) == [lp];
    assert FlatBranches([[Atom(p)]]) == [BranchNode([lp])];
  }

  lemma ParentheticalConcepts(x: string, p: string)
    requires Word(x) && Word(p)
    ensures UniqueByKey(BuildAll(ApplyAll([[Atom(x), Atom(p)], [Atom(x)]], AllPlugins)))
      == [Compound([Atom(x), Atom(p)]), Atom(x)]
  {
    var perms := [[Atom(x), Atom(p)], [Atom(x)]];
    assert PlainPerms(perms);
    ApplyAllPlain(perms);
    var c := Compound([Atom(x), Atom(p)]);
    assert BuildAll(perms) == [c, Atom(x)];
    PairKey(Atom(x), Atom(p));
    assert |Key(c)| > |x|;
    UniqueOfTwo(c, Atom(x));
  }

  function ParentheticalRoot(x: string, p: string): Block
  {
    Block(Inline, [BranchNode([Leaf(Atom(x)), Sub(Block(Parenthetical, FlatBranches([[Atom(p)]])))])])
  }

  lemma ParentheticalTree(x: string, p: string)
    requires SimpleKey(x) && SimpleKey(p)
    ensures Tokenize(ParentheticalText(x, p)).Ok?
    ensures ExpansionTree(Tokenize(ParentheticalText(x, p)).value) == Ok(ParentheticalRoot(x, p))
  {
    var text := ParentheticalText(x, p);
    ParentheticalLexes(x, p);
    TokenizeLexes(text, None, ParentheticalLexemes(x, p));
    RunSameKinds(Open(Initial), Tokenize(text).value, ParentheticalLexemes(x, p));
    ParentheticalRun(x, p);
    FinishNodes([Leaf(Atom(x)), Sub(Block(Parenthetical, FlatBranches([[Atom(p)]])))]);
  }

  /**
   * `x (p)` reads as the compound `x p`, the fact the parenthetical states
   * about `x`, and then `x` itself.
   */
  lemma ParentheticalParses(x: string, p: string)
    requires Word(x) && Word(p)
    ensures Parse(ParentheticalText(x, p)) == Ok([Compound([Atom(x), Atom(p)]), Atom(x)])
  {
    var text := ParentheticalText(x, p);
    ParentheticalTree(x, p);
    assert Join([text], "\n") == text;
    ParseThrough([text], AllPlugins, Tokenize(text).value, ParentheticalRoot(x, p));
    ParentheticalAfterOne(Atom(x), Atom(p));
    ParentheticalConcepts(x, p);
  }

  // The two examples with their own words.

  const John := "john"
  const Uses := "uses"
  const Javascript := "javascript"
  const Python := "python"
  const ProgrammingLanguage := "ProgrammingLanguage"

  lemma WordsAreWords()
    ensures Word(John) && Word(Uses) && Word(Javascript) && Word(Python) && Word(ProgrammingLanguage)
    ensures Javascript != Python
  {
  }

  /** `john uses {javascript, python}` reads as `john uses javascript` and `john uses python`. */
  lemma InlineTextExample()
    ensures Parse(John + " " + Uses + " {" + Javascript + ", " + Python + "}")
      == Ok([Compound([Atom(John), Atom(Uses), Atom(Javascript)]), Compound([Atom(John), Atom(Uses), Atom(Python)])])
  {
    WordsAreWords();
    InlineParses(John, Uses, Javascript, Python);
  }

  /** `javascript (ProgrammingLanguage)` reads as `javascript ProgrammingLanguage` and `javascript`. */
  lemma ParentheticalTextExample()
    ensures Parse(Javascript + " (" + ProgrammingLanguage + ")")
      == Ok([Compound([Atom(Javascript), Atom(ProgrammingLanguage)]), Atom(Javascript)])
  {
    WordsAreWords();
    ParentheticalParses(Javascript, ProgrammingLanguage);
  }
}
