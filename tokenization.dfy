/**
 * The ConceptML tokenizer: an ordered table of anchored regular expressions,
 * tried in order at the start of the unconsumed input; the first one that
 * matches a non-empty prefix produces the next token.
 */
module Tokenization {
  import opened Wrappers
  import opened Strings
  import opened Concepts

  datatype TokenType =
    | Branch | Spaces | Comment | MultiLineComment | StringLit
    | LeftSquare | RightSquare | LeftCurly | RightCurly | LeftParen | RightParen
    | AtomToken

  /** The order of the `tokenTypes` table. */
  const TokenTypes: seq<TokenType> :=
    [Branch, Spaces, Comment, MultiLineComment, StringLit,
     LeftSquare, RightSquare, LeftCurly, RightCurly, LeftParen, RightParen,
     AtomToken]

  datatype Position = Position(line: int, column: int)
  datatype Range = Range(start: Position, end: Position)
  datatype Token = Token(ttype: TokenType, value: string, range: Range)

  // Character classes of the table's regular expressions.

  predicate IsBlank(ch: char) { ch == ' ' || ch == '\t' }

  predicate IsBranchChar(ch: char) { ch == '\n' || ch == ',' }

  /** `.`: anything but a line terminator. */
  predicate IsDot(ch: char) { !IsLineTerminator(ch) }

  /** The class `[^,\{\}\[\]\(\)\n ]` of ATOM. */
  predicate IsAtomTokenChar(ch: char)
  {
    !(ch == ',' || ch == '{' || ch == '}' || ch == '[' || ch == ']' || ch == '(' || ch == ')' || ch == '\n' || ch == ' ')
  }

  /** Where a greedy run of `p` starting at `i` ends. */
  function Span(s: string, i: nat, p: char -> bool): (j: nat)
    requires i <= |s|
    ensures i <= j <= |s|
    ensures forall k :: i <= k < j ==> p(s[k])
    ensures j < |s| ==> !p(s[j])
    decreases |s| - i
  {
    if i < |s| && p(s[i]) then Span(s, i + 1, p) else i
  }

  /** `close` occurs in `s` at `q`. */
  predicate CloseAt(s: string, q: nat, close: string)
  {
    q + |close| <= |s| && s[q..q + |close|] == close
  }

  /**
   * The end of a lazy match `open (body)+? close` whose body starts at
   * `start`: the first `p > start` with `close` at `p` and every body
   * character in the class; 0 when there is none.
   */
  function LazyEnd(s: string, start: nat, p: nat, close: string, inBody: char -> bool): (e: nat)
    requires 0 < start < p
    requires |close| == 2
    ensures e <= |s|
    decreases |s| - p
  {
    if p + 2 > |s| || !inBody(s[p - 1]) then 0
    else if s[p..p + 2] == close then p + 2
    else LazyEnd(s, start, p + 1, close, inBody)
  }

  lemma {:induction false} LazyEndFacts(s: string, start: nat, p: nat, close: string, inBody: char -> bool)
    requires 0 < start < p <= |s| + 1
    requires |close| == 2
    requires forall k :: start <= k < p - 1 ==> inBody(s[k])
    requires forall q :: start < q < p ==> !CloseAt(s, q, close)
    ensures var e := LazyEnd(s, start, p, close, inBody);
      e == 0 || (p + 2 <= e <= |s| && CloseAt(s, e - 2, close)
        && (forall k :: start <= k < e - 2 ==> inBody(s[k]))
        && (forall q :: start < q < e - 2 ==> !CloseAt(s, q, close)))
    decreases |s| - p
  {
    if p + 2 > |s| || !inBody(s[p - 1]) {
    } else if s[p..p + 2] == close {
    } else {
      LazyEndFacts(s, start, p + 1, close, inBody);
    }
  }

  function BranchLength(s: string): nat
  {
    var a := Span(s, 0, IsBlank);
    if a < |s| && IsBranchChar(s[a]) then
      var b := Span(s, a, IsBranchChar);
      Span(s, b, IsBlank)
    else 0
  }

  /** `^\/\*.+?\*\/`, `^\/\*(.|\n)+?\*\/` and `^<<(.|\n)+?>>`. */
  function DelimitedLength(s: string, open: string, close: string, inBody: char -> bool): nat
    requires |open| == 2 && |close| == 2
  {
    if HasPrefix(s, open) then LazyEnd(s, 2, 3, close, inBody) else 0
  }

  function CharLength(s: string, ch: char): nat
  {
    if |s| > 0 && s[0] == ch then 1 else 0
  }

  /** The length of the prefix a token type's expression matches; 0 is no match. */
  function MatchLength(t: TokenType, s: string): (n: nat)
    ensures n <= |s|
  {
    match t
    case Branch => BranchLength(s)
    case Spaces => Span(s, 0, IsBlank)
    case Comment => DelimitedLength(s, "/*", "*/", IsDot)
    case MultiLineComment => DelimitedLength(s, "/*", "*/", DotOrNewline)
    case StringLit => DelimitedLength(s, "<<", ">>", DotOrNewline)
    case LeftSquare => CharLength(s, '[')
    case RightSquare => CharLength(s, ']')
    case LeftCurly => CharLength(s, '{')
    case RightCurly => CharLength(s, '}')
    case LeftParen => CharLength(s, '(')
    case RightParen => CharLength(s, ')')
    case AtomToken => Span(s, 0, IsAtomTokenChar)
  }

  /** The first entry of the table, from index `j` on, with a non-empty match. */
  function FirstMatchFrom(s: string, j: nat): (m: Option<(TokenType, nat)>)
    requires j <= |TokenTypes|
    decreases |TokenTypes| - j
  {
    if j == |TokenTypes| then None
    else if MatchLength(TokenTypes[j], s) > 0 then Some((TokenTypes[j], MatchLength(TokenTypes[j], s)))
    else FirstMatchFrom(s, j + 1)
  }

  function FirstMatch(s: string): Option<(TokenType, nat)>
  {
    FirstMatchFrom(s, 0)
  }

  function TypeIndex(t: TokenType): (j: nat)
    ensures j < |TokenTypes| && TokenTypes[j] == t
  {
    match t
    case Branch => 0
    case Spaces => 1
    case Comment => 2
    case MultiLineComment => 3
    case StringLit => 4
    case LeftSquare => 5
    case RightSquare => 6
    case LeftCurly => 7
    case RightCurly => 8
    case LeftParen => 9
    case RightParen => 10
    case AtomToken => 11
  }

  lemma {:induction false} FirstMatchFromFacts(s: string, j: nat)
    requires j <= |TokenTypes|
    ensures match FirstMatchFrom(s, j)
      case None => forall k :: j <= k < |TokenTypes| ==> MatchLength(TokenTypes[k], s) == 0
      case Some(m) =>
        0 < m.1 <= |s| && m.1 == MatchLength(m.0, s) && j <= TypeIndex(m.0)
        && forall k :: j <= k < TypeIndex(m.0) ==> MatchLength(TokenTypes[k], s) == 0
    decreases |TokenTypes| - j
  {
    if j < |TokenTypes| && MatchLength(TokenTypes[j], s) == 0 {
      FirstMatchFromFacts(s, j + 1);
    }
  }

  /** Every non-empty input has a matching entry: ATOM covers what the others do not. */
  lemma FirstMatchExists(s: string)
    requires |s| > 0
    ensures FirstMatch(s).Some?
  {
    FirstMatchFromFacts(s, 0);
    var ch := s[0];
    if IsBlank(ch) {
      assert MatchLength(TokenTypes[1], s) > 0;
    } else if IsBranchChar(ch) {
      assert MatchLength(TokenTypes[0], s) > 0;
    } else if ch == '[' {
      assert MatchLength(TokenTypes[5], s) > 0;
    } else if ch == ']' {
      assert MatchLength(TokenTypes[6], s) > 0;
    } else if ch == '{' {
      assert MatchLength(TokenTypes[7], s) > 0;
    } else if ch == '}' {
      assert MatchLength(TokenTypes[8], s) > 0;
    } else if ch == '(' {
      assert MatchLength(TokenTypes[9], s) > 0;
    } else if ch == ')' {
      assert MatchLength(TokenTypes[10], s) > 0;
    } else {
      assert MatchLength(TokenTypes[11], s) > 0;
    }
  }

  /** A character only ATOM accepts starts an ATOM token, as long as ATOM's run of such characters. */
  lemma AtomCharFirst(s: string)
    requires |s| > 0 && IsAtomTokenChar(s[0]) && !IsBlank(s[0]) && s[0] != '/' && s[0] != '<'
    ensures FirstMatch(s) == Some((AtomToken, Span(s, 0, IsAtomTokenChar)))
  {
    OnlyAtomMatches(s);
    assert MatchLength(AtomToken, s) > 0;
    FirstMatchFromFacts(s, 0);
  }

  lemma OnlyAtomMatches(s: string)
    requires |s| > 0 && IsAtomTokenChar(s[0]) && !IsBlank(s[0]) && s[0] != '/' && s[0] != '<'
    ensures forall j :: 0 <= j < 11 ==> MatchLength(TokenTypes[j], s) == 0
  {
    assert !HasPrefix(s, "/*") && !HasPrefix(s, "<<") by {
      if |s| >= 2 {
        assert s[..2][0] == s[0];
      }
    }
    assert Span(s, 0, IsBlank) == 0;
    assert BranchLength(s) == 0;
    assert MatchLength(Comment, s) == 0;
    assert MatchLength(MultiLineComment, s) == 0;
    assert MatchLength(StringLit, s) == 0;
  }

  /** The range `maybeMatchTokenType` gives, adjusted as `parseTokens` does after a previous token. */
  function PlaceToken(t: TokenType, value: string, last: Option<Token>): Token
  {
    var lines := Split(value, '\n');
    var endLine := |lines|;
    var endColumn := |lines[|lines| - 1]|;
    match last
    case None => Token(t, value, Range(Position(1, 1), Position(endLine, endColumn)))
    case Some(prev) =>
      var start := Position(prev.range.end.line, prev.range.end.column + 1);
      var column := if endLine == 1 then endColumn + start.column else endColumn;
      Token(t, value, Range(start, Position(start.line + endLine - 1, column)))
  }

  function NoMatchMessage(rest: string): string
  {
    "Could not find a matching TokenType for at: \"" + rest[..if |rest| < 20 then |rest| else 20] + "\""
  }

  function Prepend(tokens: seq<Token>, r: Result<seq<Token>>): Result<seq<Token>>
  {
    match r
    case Ok(ts) => Ok(tokens + ts)
    case Err(m) => Err(m)
  }

  /** What the `parseLoop` produces from the unconsumed input `rest`. */
  function TokenizeFrom(rest: string, last: Option<Token>): Result<seq<Token>>
    decreases |rest|
  {
    if |rest| == 0 then Ok([])
    else
      match FirstMatch(rest)
      case None => Err(NoMatchMessage(rest))
      case Some(m) =>
        FirstMatchFromFacts(rest, 0);
        var token := PlaceToken(m.0, rest[..m.1], last);
        Prepend([token], TokenizeFrom(rest[m.1..], Some(token)))
  }

  function Tokenize(source: string): Result<seq<Token>>
  {
    TokenizeFrom(source, None)
  }

  /** `parseTokens`. */
  method ParseTokens(source: string) returns (r: Result<seq<Token>>)
    ensures r == Tokenize(source)
  {
    var tokens: seq<Token> := [];
    var rest := source;
    var last: Option<Token> := None;
    assert Prepend([], Tokenize(source)) == Tokenize(source) by {
      if Tokenize(source).Ok? {
        assert [] + Tokenize(source).value == Tokenize(source).value;
      }
    }
    while |rest| > 0
      invariant Tokenize(source) == Prepend(tokens, TokenizeFrom(rest, last))
      decreases |rest|
    {
      var m := MatchTokenType(rest);
      if m.None? {
        return Err(NoMatchMessage(rest));
      }
      var (t, n) := m.value;
      FirstMatchFromFacts(rest, 0);
      var token := PlaceToken(t, rest[..n], last);
      TokenizeFromStep(rest, last);
      PrependAssoc(tokens, [token], TokenizeFrom(rest[n..], Some(token)));
      tokens := tokens + [token];
      last := Some(token);
      rest := rest[n..];
    }
    assert tokens + [] == tokens;
    r := Ok(tokens);
  }

  lemma TokenizeFromStep(rest: string, last: Option<Token>)
    requires |rest| > 0 && FirstMatch(rest).Some?
    ensures FirstMatch(rest).value.1 <= |rest|
    ensures var (t, n) := FirstMatch(rest).value; var token := PlaceToken(t, rest[..n], last);
      TokenizeFrom(rest, last) == Prepend([token], TokenizeFrom(rest[n..], Some(token)))
  {
    FirstMatchFromFacts(rest, 0);
  }

  lemma PrependAssoc(a: seq<Token>, b: seq<Token>, r: Result<seq<Token>>)
    ensures Prepend(a, Prepend(b, r)) == Prepend(a + b, r)
  {
    if r.Ok? {
      assert a + (b + r.value) == (a + b) + r.value;
    }
  }

  /** The inner loop of `parseTokens`: try the table in order, stop at the first match. */
  method MatchTokenType(rest: string) returns (m: Option<(TokenType, nat)>)
    ensures m == FirstMatch(rest)
  {
    var j := 0;
    while j < |TokenTypes|
      invariant 0 <= j <= |TokenTypes|
      invariant FirstMatch(rest) == FirstMatchFrom(rest, j)
    {
      var n := MatchLength(TokenTypes[j], rest);
      if n > 0 {
        return Some((TokenTypes[j], n));
      }
      j := j + 1;
    }
    return None;
  }

  // Properties of the tokenization.

  function Values(tokens: seq<Token>): string
  {
    if |tokens| == 0 then "" else tokens[0].value + Values(tokens[1..])
  }

  /** Tokenizing never fails: the error path of the loop is unreachable. */
  lemma {:induction false} TokenizeFromTotal(rest: string, last: Option<Token>)
    ensures TokenizeFrom(rest, last).Ok?
    decreases |rest|
  {
    if |rest| > 0 {
      FirstMatchExists(rest);
      FirstMatchFromFacts(rest, 0);
      var m := FirstMatch(rest).value;
      TokenizeFromTotal(rest[m.1..], Some(PlaceToken(m.0, rest[..m.1], last)));
    }
  }

  /** The offset in the source at which `tokens[i]` starts. */
  function Offset(tokens: seq<Token>, i: nat): nat
    requires i <= |tokens|
  {
    |Values(tokens[..i])|
  }

  /**
   * `t` is what the loop takes from `at`: the non-empty match of its type, and
   * every earlier type of the table has no match there.
   */
  predicate IsFirstMatch(at: string, t: Token)
  {
    0 < |t.value| <= |at| && t.value == at[..|t.value|]
    && MatchLength(t.ttype, at) == |t.value|
    && forall k :: 0 <= k < TypeIndex(t.ttype) ==> MatchLength(TokenTypes[k], at) == 0
  }

  /** The token list of `rest`: each token is the first match at what the previous ones leave. */
  predicate TokensOf(rest: string, tokens: seq<Token>)
    decreases |tokens|
  {
    if |tokens| == 0 then |rest| == 0
    else IsFirstMatch(rest, tokens[0]) && TokensOf(rest[|tokens[0].value|..], tokens[1..])
  }

  lemma {:induction false} TokenizeFromMeaning(rest: string, last: Option<Token>)
    ensures TokenizeFrom(rest, last).Ok? ==> TokensOf(rest, TokenizeFrom(rest, last).value)
    decreases |rest|
  {
    if |rest| > 0 && FirstMatch(rest).Some? {
      FirstMatchFromFacts(rest, 0);
      var m := FirstMatch(rest).value;
      var token := PlaceToken(m.0, rest[..m.1], last);
      TokenizeFromMeaning(rest[m.1..], Some(token));
      if TokenizeFrom(rest, last).Ok? {
        var ts := TokenizeFrom(rest, last).value;
        assert ts[0] == token;
        assert ts[1..] == TokenizeFrom(rest[m.1..], Some(token)).value;
      }
    }
  }

  lemma {:induction false} TokensOfValues(rest: string, tokens: seq<Token>)
    requires TokensOf(rest, tokens)
    ensures Values(tokens) == rest
    decreases |tokens|
  {
    if |tokens| > 0 {
      TokensOfValues(rest[|tokens[0].value|..], tokens[1..]);
      assert rest == rest[..|tokens[0].value|] + rest[|tokens[0].value|..];
    }
  }

  lemma {:induction false} ValuesPrefix(tokens: seq<Token>, i: nat)
    requires i < |tokens|
    ensures Values(tokens[..i + 1]) == Values(tokens[..i]) + tokens[i].value
  {
    if i == 0 {
      assert tokens[..1] == [tokens[0]];
      assert Values([tokens[0]]) == tokens[0].value + Values([]);
    } else {
      assert tokens[..i + 1][1..] == tokens[1..][..i];
      assert tokens[..i][1..] == tokens[1..][..i - 1];
      ValuesPrefix(tokens[1..], i - 1);
    }
  }

  /** Where token `i` of a token list of `rest` sits: it is the first match at its offset. */
  lemma {:induction false} TokensOfAt(rest: string, tokens: seq<Token>, i: nat)
    requires TokensOf(rest, tokens)
    requires i < |tokens|
    ensures Offset(tokens, i) <= |rest| && IsFirstMatch(rest[Offset(tokens, i)..], tokens[i])
    decreases i
  {
    if i > 0 {
      var v := tokens[0].value;
      TokensOfAt(rest[|v|..], tokens[1..], i - 1);
      assert tokens[1..][..i - 1] == tokens[..i][1..];
      assert Values(tokens[..i]) == v + Values(tokens[1..][..i - 1]) by {
        assert tokens[..i][0] == tokens[0];
      }
      assert rest[|v|..][Offset(tokens[1..], i - 1)..] == rest[Offset(tokens, i)..];
    }
  }

  /**
   * `parseTokens` as a whole: it always succeeds, the values concatenate to the
   * source, and token `i` is the non-empty match at its offset of the first
   * type in the table that matches there.
   */
  lemma TokenizeCorrect(source: string)
    ensures Tokenize(source).Ok?
    ensures Values(Tokenize(source).value) == source
    ensures var ts := Tokenize(source).value;
      forall i :: 0 <= i < |ts| ==>
        Offset(ts, i) <= |source| && IsFirstMatch(source[Offset(ts, i)..], ts[i])
  {
    TokenizeFromTotal(source, None);
    TokenizeFromMeaning(source, None);
    var ts := Tokenize(source).value;
    TokensOfValues(source, ts);
    forall i | 0 <= i < |ts|
      ensures Offset(ts, i) <= |source| && IsFirstMatch(source[Offset(ts, i)..], ts[i])
    {
      TokensOfAt(source, ts, i);
    }
  }

  // What a token of each type looks like.

  /** ATOM and STRING tokens pass the atom check of the concept constructor. */
  lemma TokenAtomsPassCheck(t: TokenType, s: string)
    requires t == AtomToken || t == StringLit
    requires 0 < MatchLength(t, s)
    ensures PassesAtomCheck(s[..MatchLength(t, s)])
  {
    var n := MatchLength(t, s);
    if t == StringLit {
      StringTokenShape(s);
    }
  }

  /** An ATOM token never contains `, { } [ ] ( )`, a newline or a space. */
  lemma AtomTokenShape(s: string)
    ensures var n := MatchLength(AtomToken, s);
      forall k :: 0 <= k < n ==> IsAtomTokenChar(s[k])
  {
  }

  /**
   * A STRING token starts with `<<`, ends at the first `>>` after at least one
   * character, and is a string literal of the atom check.
   */
  lemma StringTokenShape(s: string)
    requires MatchLength(StringLit, s) > 0
    ensures var n := MatchLength(StringLit, s); var v := s[..n];
      n >= 5 && v[..2] == "<<" && v[n - 2..] == ">>"
      && (forall q :: 2 < q < n - 2 ==> !CloseAt(v, q, ">>"))
      && IsStringLiteral(v)
  {
    var n := MatchLength(StringLit, s);
    assert n == LazyEnd(s, 2, 3, ">>", DotOrNewline);
    LazyEndFacts(s, 2, 3, ">>", DotOrNewline);
    var v := s[..n];
    forall q | 2 < q < n - 2
      ensures !CloseAt(v, q, ">>")
    {
      assert !CloseAt(s, q, ">>");
      assert v[q..q + 2] == s[q..q + 2];
    }
    assert forall k :: 2 <= k < n - 2 ==> v[k] == s[k];
  }

  /** A BRANCH token holds a comma or a newline; a SPACES token only blanks. */
  lemma SeparatorTokenShape(s: string)
    ensures var n := MatchLength(Branch, s);
      n > 0 ==> exists k :: 0 <= k < n && IsBranchChar(s[k])
    ensures var n := MatchLength(Spaces, s);
      forall k :: 0 <= k < n ==> IsBlank(s[k])
  {
    var a := Span(s, 0, IsBlank);
    if a < |s| && IsBranchChar(s[a]) {
      assert Span(s, a, IsBranchChar) > a;
    }
  }

  function CountChar(s: string, c: char): nat
  {
    if |s| == 0 then 0 else (if s[0] == c then 1 else 0) + CountChar(s[1..], c)
  }

  lemma {:induction false} SplitCount(s: string, c: char)
    ensures |Split(s, c)| == CountChar(s, c) + 1
    decreases |s|
  {
    var i := IndexOf(s, c);
    CountPrefixAbsent(s, c, i);
    assert s[..|s|] == s;
    if i < |s| {
      SplitCount(s[i + 1..], c);
      CountSplitAt(s, c, i);
    }
  }

  lemma {:induction false} CountPrefixAbsent(s: string, c: char, i: nat)
    requires i <= |s|
    requires forall j :: 0 <= j < i ==> s[j] != c
    ensures CountChar(s[..i], c) == 0
  {
    if i > 0 {
      assert s[..i][1..] == s[1..][..i - 1];
      CountPrefixAbsent(s[1..], c, i - 1);
    }
  }

  lemma {:induction false} CountConcat(a: string, b: string, c: char)
    ensures CountChar(a + b, c) == CountChar(a, c) + CountChar(b, c)
  {
    if |a| > 0 {
      assert (a + b)[0] == a[0];
      assert (a + b)[1..] == a[1..] + b;
      CountConcat(a[1..], b, c);
    } else {
      assert a + b == b;
    }
  }

  lemma CountSplitAt(s: string, c: char, i: nat)
    requires i < |s| && s[i] == c
    ensures CountChar(s, c) == CountChar(s[..i], c) + 1 + CountChar(s[i + 1..], c)
  {
    assert s == s[..i] + [c] + s[i + 1..];
    CountConcat(s[..i] + [c], s[i + 1..], c);
    CountConcat(s[..i], [c], c);
  }

  /** A token's end line is its start line plus the number of newlines in its value. */
  lemma TokenLines(t: TokenType, value: string, last: Option<Token>)
    ensures var tok := PlaceToken(t, value, last);
      tok.range.end.line == tok.range.start.line + CountChar(value, '\n')
  {
    SplitCount(value, '\n');
  }

  /** Each token starts on the line the previous one ends on, one column after it. */
  lemma TokenFollows(t: TokenType, value: string, prev: Token)
    ensures var tok := PlaceToken(t, value, Some(prev));
      tok.range.start == Position(prev.range.end.line, prev.range.end.column + 1)
  {
  }
}
