/**
 * ConceptML expansion: the token list is built into a tree of branches and
 * blocks (`{…}` inline, `(…)` parenthetical, `[…]` nested) through a cursor,
 * and the tree is expanded into permutations: one part list per fact.
 *
 * The node objects and their parent pointers become a zipper value: the
 * finished top-level branches, whether the cursor's top-level branch is still
 * in the root, the open blocks from the outside in, and the cursor's
 * children.
 */
module Expansion {
  import opened Wrappers
  import opened Strings
  import opened Concepts
  import opened Tokenization
  import opened Plugins

  datatype BlockKind = Inline | Parenthetical | Nested

  /** A branch child: a concept or a block. */
  datatype Node = Leaf(c: Concept) | Sub(b: Block)

  datatype Block = Block(kind: BlockKind, branches: seq<Branch>)

  datatype Branch = BranchNode(children: seq<Node>)

  /**
   * An open block, seen from the cursor: its kind, its branches before the
   * one the cursor is in, and the children of the branch holding it before
   * the block itself.
   */
  datatype Frame = Frame(kind: BlockKind, earlier: seq<Branch>, above: seq<Node>)

  /**
   * `curBranch` with the tree around it. `attached` says whether the cursor's
   * top-level branch is still the root's last branch; a closing at the root
   * can take it out.
   */
  datatype Cursor = Cursor(done: seq<Branch>, attached: bool, frames: seq<Frame>, cur: seq<Node>)

  /**
   * The parser's state: a cursor; `Lost` once `curBranch` is `null`; `Failed`
   * once a step has thrown.
   */
  datatype ParseState = Open(cursor: Cursor) | Lost | Failed(msg: string)

  const Initial := Cursor([], true, [], [])

  /** The message of a property read on a `null` `curBranch`. */
  function NullRead(property: string): string
  {
    "Cannot read properties of null (reading '" + property + "')"
  }

  /** The kind of `curBranch.parentBlock`; the root is an inline block. */
  function ParentKind(c: Cursor): BlockKind
  {
    if |c.frames| == 0 then Inline else c.frames[|c.frames| - 1].kind
  }

  /** `curBranch.appendChild(child)`. */
  function AppendChild(c: Cursor, child: Node): Cursor
  {
    c.(cur := c.cur + [child])
  }

  /** `handleBranching`: a new branch of the parent block, unless the current one is empty. */
  function HandleBranching(c: Cursor): Cursor
  {
    if |c.cur| == 0 then c
    else if |c.frames| == 0 then
      Cursor(if c.attached then c.done + [BranchNode(c.cur)] else c.done, true, [], [])
    else
      var f := c.frames[|c.frames| - 1];
      c.(frames := c.frames[..|c.frames| - 1] + [f.(earlier := f.earlier + [BranchNode(c.cur)])], cur := [])
  }

  /** `curBranch = curBranch.add…Block().addBranch()`. */
  function OpenBlock(c: Cursor, kind: BlockKind): Cursor
  {
    c.(frames := c.frames + [Frame(kind, [], c.cur)], cur := [])
  }

  /**
   * `handleClosing`. Inside a block: an empty cursor branch is popped, a block
   * left without branches is popped from its parent branch, and the cursor
   * moves to that branch. At the root, `upBranch` is the root's last branch
   * or `null`, and an empty cursor branch pops the root's last branch, which
   * is the cursor's own branch only while it is attached.
   */
  function HandleClosing(c: Cursor): ParseState
  {
    if |c.frames| > 0 then
      var f := c.frames[|c.frames| - 1];
      var branches := if |c.cur| == 0 then f.earlier else f.earlier + [BranchNode(c.cur)];
      var children := if |branches| == 0 then f.above else f.above + [Sub(Block(f.kind, branches))];
      Open(c.(frames := c.frames[..|c.frames| - 1], cur := children))
    else if c.attached then
      if |c.cur| == 0 then Open(Cursor(c.done, false, [], [])) else Open(c)
    else if |c.done| == 0 then Lost
    else
      var last := c.done[|c.done| - 1].children;
      var init := c.done[..|c.done| - 1];
      if |c.cur| == 0 then Open(Cursor(init, false, [], last))
      else Open(Cursor(init, true, [], last))
  }

  /** One pass of the `for (const token of tokens)` loop. */
  function Step(st: ParseState, t: Token): ParseState
  {
    match st
    case Failed(m) => st
    case Lost =>
      (match t.ttype
       case AtomToken => Failed(NullRead("appendChild"))
       case StringLit => Failed(NullRead("appendChild"))
       case Branch => Failed(NullRead("children"))
       case MultiLineComment => Failed(NullRead("children"))
       case LeftSquare => Failed(NullRead("addNestedBlock"))
       case LeftCurly => Failed(NullRead("addInlineBlock"))
       case LeftParen => Failed(NullRead("addParentheticalBlock"))
       case RightSquare => Failed(NullRead("parentBlock"))
       case RightCurly => Failed(NullRead("parentBlock"))
       case RightParen => Failed(NullRead("parentBlock"))
       case _ => Lost)
    case Open(c) =>
      match t.ttype
      case AtomToken => (match MakeAtom(t.value) case Ok(a) => Open(AppendChild(c, Leaf(a))) case Err(m) => Failed(m))
      case StringLit => (match MakeAtom(t.value) case Ok(a) => Open(AppendChild(c, Leaf(a))) case Err(m) => Failed(m))
      case Branch => Open(HandleBranching(c))
      case MultiLineComment => Open(HandleBranching(c))
      case LeftSquare => Open(OpenBlock(c, Nested))
      case LeftCurly => Open(OpenBlock(c, Inline))
      case LeftParen => Open(OpenBlock(c, Parenthetical))
      case RightSquare => if ParentKind(c) == Nested then HandleClosing(c) else st
      case RightCurly => if ParentKind(c) == Inline then HandleClosing(c) else st
      case RightParen => if ParentKind(c) == Parenthetical then HandleClosing(c) else st
      case _ => st
  }

  function Run(st: ParseState, tokens: seq<Token>): ParseState
    decreases |tokens|
  {
    if |tokens| == 0 then st else Run(Step(st, tokens[0]), tokens[1..])
  }

  /** The cursor's top-level branch with every open block closed around it, as the tree holds it. */
  function Plug(frames: seq<Frame>, cur: seq<Node>): seq<Node>
    decreases |frames|
  {
    if |frames| == 0 then cur
    else
      var f := frames[|frames| - 1];
      Plug(frames[..|frames| - 1], f.above + [Sub(Block(f.kind, f.earlier + [BranchNode(cur)]))])
  }

  /** The root block the tree holds for a cursor. */
  function Materialize(c: Cursor): Block
  {
    Block(Inline, c.done + (if c.attached then [BranchNode(Plug(c.frames, c.cur))] else []))
  }

  /** The final `handleClosing` and the returned root; a `null` cursor there throws. */
  function Finish(st: ParseState): Result<Block>
  {
    match st
    case Failed(m) => Err(m)
    case Lost => Err(NullRead("parentBlock"))
    case Open(c) =>
      match HandleClosing(c)
      case Open(d) => Ok(Materialize(d))
      case _ => Ok(Block(Inline, []))
  }

  /** What `parseExpansionTree` returns or throws. */
  function ExpansionTree(tokens: seq<Token>): Result<Block>
  {
    Finish(Run(Open(Initial), tokens))
  }

  lemma {:induction false} RunFailed(m: string, tokens: seq<Token>)
    ensures Run(Failed(m), tokens) == Failed(m)
    decreases |tokens|
  {
    if |tokens| > 0 {
      RunFailed(m, tokens[1..]);
    }
  }

  /** `parseExpansionTree`: the cursor loop over the tokens, then one implicit close. */
  method ParseExpansionTree(tokens: seq<Token>) returns (r: Result<Block>)
    ensures r == ExpansionTree(tokens)
  {
    var st := Open(Initial);
    var i := 0;
    while i < |tokens|
      invariant 0 <= i <= |tokens|
      invariant Run(Open(Initial), tokens) == Run(st, tokens[i..])
    {
      assert tokens[i..][1..] == tokens[i + 1..];
      st := Step(st, tokens[i]);
      if st.Failed? {
        RunFailed(st.msg, tokens[i + 1..]);
        return Err(st.msg);
      }
      i := i + 1;
    }
    r := Finish(st);
  }

  // The shape of what the parser has closed.

  predicate GoodNode(n: Node)
    decreases n, 0
  {
    match n
    case Leaf(_) => true
    case Sub(b) => |b.branches| > 0 && forall i :: 0 <= i < |b.branches| ==> GoodBranch(b.branches[i])
  }

  predicate GoodBranch(br: Branch)
    decreases br, 1
  {
    |br.children| > 0 && forall j :: 0 <= j < |br.children| ==> GoodNode(br.children[j])
  }

  predicate GoodNodes(ns: seq<Node>)
  {
    forall i :: 0 <= i < |ns| ==> GoodNode(ns[i])
  }

  predicate GoodBranches(bs: seq<Branch>)
  {
    forall i :: 0 <= i < |bs| ==> GoodBranch(bs[i])
  }

  /**
   * Every branch the parser has finished is non-empty, and every block it
   * has closed keeps at least one branch.
   */
  predicate GoodCursor(c: Cursor)
  {
    GoodBranches(c.done) && GoodNodes(c.cur)
    && forall i :: 0 <= i < |c.frames| ==> GoodBranches(c.frames[i].earlier) && GoodNodes(c.frames[i].above)
  }

  predicate GoodState(st: ParseState)
  {
    st.Open? ==> GoodCursor(st.cursor)
  }

  lemma HandleClosingGood(c: Cursor)
    requires GoodCursor(c)
    ensures GoodState(HandleClosing(c))
  {
    if |c.frames| > 0 {
      var f := c.frames[|c.frames| - 1];
      var branches := if |c.cur| == 0 then f.earlier else f.earlier + [BranchNode(c.cur)];
      assert GoodBranches(branches);
      if |branches| > 0 {
        assert GoodNode(Sub(Block(f.kind, branches)));
      }
    }
  }

  /** Every step keeps the closed part of the tree in shape. */
  lemma StepGood(st: ParseState, t: Token)
    requires GoodState(st)
    ensures GoodState(Step(st, t))
  {
    if st.Open? {
      var c := st.cursor;
      match t.ttype {
        case RightSquare => HandleClosingGood(c);
        case RightCurly => HandleClosingGood(c);
        case RightParen => HandleClosingGood(c);
        case _ =>
      }
    }
  }

  lemma {:induction false} RunGood(st: ParseState, tokens: seq<Token>)
    requires GoodState(st)
    ensures GoodState(Run(st, tokens))
    decreases |tokens|
  {
    if |tokens| > 0 {
      StepGood(st, tokens[0]);
      RunGood(Step(st, tokens[0]), tokens[1..]);
    }
  }

  /**
   * Branches with no children are discarded: when every opened block has
   * been closed, every branch of the returned root, at every depth, is
   * non-empty.
   */
  lemma ExpansionTreeShape(tokens: seq<Token>)
    requires Run(Open(Initial), tokens).Open?
    requires |Run(Open(Initial), tokens).cursor.frames| == 0
    ensures ExpansionTree(tokens).Ok?
    ensures GoodBranches(ExpansionTree(tokens).value.branches)
  {
    RunGood(Open(Initial), tokens);
    var c := Run(Open(Initial), tokens).cursor;
    HandleClosingGood(c);
    var d := HandleClosing(c);
    if d.Open? {
      if d.cursor.attached {
        assert Plug(d.cursor.frames, d.cursor.cur) == d.cursor.cur;
        assert GoodBranch(BranchNode(d.cursor.cur));
      } else {
        assert Materialize(d.cursor).branches == d.cursor.done;
      }
    }
  }

  /** A closing bracket that does not match the innermost open block is ignored. */
  lemma MismatchedCloseIgnored(c: Cursor, t: Token)
    requires t.ttype == RightSquare || t.ttype == RightCurly || t.ttype == RightParen
    requires t.ttype == RightSquare ==> ParentKind(c) != Nested
    requires t.ttype == RightCurly ==> ParentKind(c) != Inline
    requires t.ttype == RightParen ==> ParentKind(c) != Parenthetical
    ensures Step(Open(c), t) == Open(c)
  {
  }

  // `visitPermutations`: each call of `visit(parts, passthrough)` is one emission.

  datatype Emission = Emission(parts: seq<Concept>, passthrough: bool)

  predicate AllNonEmpty(ps: seq<seq<Concept>>)
  {
    forall i :: 0 <= i < |ps| ==> |ps[i]| > 0
  }

  predicate EmissionsNonEmpty(es: seq<Emission>)
  {
    forall i :: 0 <= i < |es| ==> |es[i].parts| > 0
  }

  /** `visit(parts, flag)` for each of `ps`, in order. */
  function Mark(ps: seq<seq<Concept>>, flag: bool): (es: seq<Emission>)
    ensures |es| == |ps|
    ensures forall i :: 0 <= i < |ps| ==> es[i] == Emission(ps[i], flag)
  {
    if |ps| == 0 then [] else [Emission(ps[0], flag)] + Mark(ps[1..], flag)
  }

  /** The emissions collected into `subpermutations`. */
  function Subs(es: seq<Emission>): (ps: seq<seq<Concept>>)
    ensures EmissionsNonEmpty(es) ==> AllNonEmpty(ps)
  {
    if |es| == 0 then []
    else (if es[0].passthrough then [] else [es[0].parts]) + Subs(es[1..])
  }

  /** The emissions collected into `passthroughs`. */
  function Passes(es: seq<Emission>): (ps: seq<seq<Concept>>)
    ensures EmissionsNonEmpty(es) ==> AllNonEmpty(ps)
  {
    if |es| == 0 then []
    else (if es[0].passthrough then [es[0].parts] else []) + Passes(es[1..])
  }

  /** `permutation.concat(head)` for each permutation. */
  function AppendEach(ps: seq<seq<Concept>>, c: Concept): (r: seq<seq<Concept>>)
    ensures |r| == |ps|
    ensures forall i :: 0 <= i < |ps| ==> r[i] == ps[i] + [c]
  {
    if |ps| == 0 then [] else [ps[0] + [c]] + AppendEach(ps[1..], c)
  }

  /** `left.concat(right)` for each suffix. */
  function PrependEach(left: seq<Concept>, rs: seq<seq<Concept>>): (r: seq<seq<Concept>>)
    ensures |r| == |rs|
    ensures forall j :: 0 <= j < |rs| ==> r[j] == left + rs[j]
  {
    if |rs| == 0 then [] else [left + rs[0]] + PrependEach(left, rs[1..])
  }

  /** The `flatMap` of `combine`: every left followed by every right. */
  /** `i` blocks of `m`, counted without multiplying. */
  function Blocks(i: nat, m: nat): nat
  {
    if i == 0 then 0 else m + Blocks(i - 1, m)
  }

  lemma {:induction false} BlocksIsProduct(i: nat, m: nat)
    ensures Blocks(i, m) == i * m
  {
    if i > 0 {
      BlocksIsProduct(i - 1, m);
      MulStep(i, m);
    }
  }

  function Cross(ls: seq<seq<Concept>>, rs: seq<seq<Concept>>): (r: seq<seq<Concept>>)
    ensures |r| == Blocks(|ls|, |rs|)
  {
    if |ls| == 0 then [] else PrependEach(ls[0], rs) + Cross(ls[1..], rs)
  }

  /** `combine(suffixes)`. */
  function Combine(perms: seq<seq<Concept>>, suffixes: seq<seq<Concept>>): seq<seq<Concept>>
  {
    if |suffixes| == 0 then perms
    else if |perms| == 0 then suffixes
    else Cross(perms, suffixes)
  }

  /** The flatMap over `permutations` of each one's last part. */
  function Lasts(perms: seq<seq<Concept>>): seq<Concept>
  {
    if |perms| == 0 then []
    else (if |perms[0]| > 0 then [perms[0][|perms[0]| - 1]] else []) + Lasts(perms[1..])
  }

  /** `tails`. */
  function Tails(perms: seq<seq<Concept>>): seq<Concept>
  {
    UniqueByKey(Lasts(perms))
  }

  /**
   * A passthrough of a nested block, against each tail: after a directive
   * it becomes one of the block's own permutations, otherwise it is passed on.
   */
  function PassAgainst(parts: seq<Concept>, tails: seq<Concept>): (r: (seq<Emission>, seq<seq<Concept>>))
  {
    if |tails| == 0 then ([], [])
    else
      var more := PassAgainst(parts, tails[1..]);
      if IsDirective(tails[0]) then (more.0, [parts] + more.1)
      else ([Emission(parts, true)] + more.0, more.1)
  }

  /** The `passthroughs.forEach` of a nested block: the emissions, and what it pushes on `subpermutations`. */
  function NestedPassthroughs(passes: seq<seq<Concept>>, tails: seq<Concept>): (r: (seq<Emission>, seq<seq<Concept>>))
  {
    if |passes| == 0 then ([], [])
    else
      var first := if |tails| == 0 then ([Emission(passes[0], true)], []) else PassAgainst(passes[0], tails);
      var more := NestedPassthroughs(passes[1..], tails);
      (first.0 + more.0, first.1 + more.1)
  }

  /** `[new Concept(parts)]` for each permutation of a nested block. */
  function Wrap(ps: seq<seq<Concept>>): (r: seq<seq<Concept>>)
    requires AllNonEmpty(ps)
    ensures |r| == |ps|
    ensures forall i :: 0 <= i < |ps| ==> r[i] == [Build(ps[i])]
  {
    if |ps| == 0 then [] else [[Build(ps[0])]] + Wrap(ps[1..])
  }

  /** The emissions of a parenthetical block: each permutation, after each tail when there are tails. */
  function ParentheticalEmissions(subs: seq<seq<Concept>>, tails: seq<Concept>): seq<Emission>
  {
    if |subs| == 0 then []
    else
      (if |tails| == 0 then [Emission(subs[0], true)] else Mark(PrependTails(tails, subs[0]), true))
      + ParentheticalEmissions(subs[1..], tails)
  }

  /** `[left, ...right]` for each tail `left`. */
  function PrependTails(tails: seq<Concept>, right: seq<Concept>): (r: seq<seq<Concept>>)
    ensures |r| == |tails|
    ensures forall i :: 0 <= i < |tails| ==> r[i] == [tails[i]] + right
  {
    if |tails| == 0 then [] else [[tails[0]] + right] + PrependTails(tails[1..], right)
  }

  /**
   * What a block child does to `permutations`, given the block's own emissions
   * `inner`: the emissions it makes now, and the new `permutations`.
   */
  function HandleBlock(kind: BlockKind, inner: seq<Emission>, perms: seq<seq<Concept>>): (r: (seq<Emission>, seq<seq<Concept>>))
    requires EmissionsNonEmpty(inner)
  {
    var subs := Subs(inner);
    var passes := Passes(inner);
    var tails := Tails(perms);
    match kind
    case Nested =>
      var np := NestedPassthroughs(passes, tails);
      NestedExtraNonEmpty(passes, tails);
      (np.0, Combine(perms, Wrap(subs + np.1)))
    case Inline => (Mark(passes, true), Combine(perms, subs))
    case Parenthetical => (ParentheticalEmissions(subs, tails) + Mark(passes, true), perms)
  }

  lemma {:induction false} NestedExtraNonEmpty(passes: seq<seq<Concept>>, tails: seq<Concept>)
    requires AllNonEmpty(passes)
    ensures AllNonEmpty(NestedPassthroughs(passes, tails).1)
  {
    if |passes| > 0 {
      PassAgainstExtra(passes[0], tails);
      NestedExtraNonEmpty(passes[1..], tails);
    }
  }

  lemma {:induction false} PassAgainstExtra(parts: seq<Concept>, tails: seq<Concept>)
    ensures forall i :: 0 <= i < |PassAgainst(parts, tails).1| ==> PassAgainst(parts, tails).1[i] == parts
  {
    if |tails| > 0 {
      PassAgainstExtra(parts, tails[1..]);
    }
  }

  /** `permutations` after a concept child. */
  function Extend(perms: seq<seq<Concept>>, c: Concept): seq<seq<Concept>>
  {
    if |perms| == 0 then [[c]] else AppendEach(perms, c)
  }

  /** `next(nodes, prefixes)`. */
  function Next(nodes: seq<Node>, prefixes: seq<seq<Concept>>): (es: seq<Emission>)
    requires AllNonEmpty(prefixes)
    ensures EmissionsNonEmpty(es)
    decreases nodes, 0
  {
    if |nodes| == 0 then Mark(prefixes, false)
    else
      match nodes[0]
      case Leaf(c) => Next(nodes[1..], Extend(prefixes, c))
      case Sub(b) =>
        var inner := VisitChild(nodes[0]);
        var handled := HandleBlock(b.kind, inner, prefixes);
        HandleBlockNonEmpty(b.kind, inner, prefixes);
        handled.0 + Next(nodes[1..], handled.1)
  }

  /** `visitPermutations(block, visit)`: `next` over each branch in order. */
  function VisitBlock(b: Block): (es: seq<Emission>)
    ensures EmissionsNonEmpty(es)
  {
    VisitBranches(b.branches)
  }

  /** `visitPermutations` of a block child. */
  function VisitChild(n: Node): (es: seq<Emission>)
    requires n.Sub?
    ensures EmissionsNonEmpty(es)
    decreases n, 2
  {
    VisitBranches(n.b.branches)
  }

  function VisitBranches(bs: seq<Branch>): (es: seq<Emission>)
    ensures EmissionsNonEmpty(es)
    decreases bs, 1
  {
    if |bs| == 0 then [] else Next(bs[0].children, []) + VisitBranches(bs[1..])
  }

  lemma HandleBlockNonEmpty(kind: BlockKind, inner: seq<Emission>, perms: seq<seq<Concept>>)
    requires EmissionsNonEmpty(inner) && AllNonEmpty(perms)
    ensures EmissionsNonEmpty(HandleBlock(kind, inner, perms).0)
    ensures AllNonEmpty(HandleBlock(kind, inner, perms).1)
  {
    var subs := Subs(inner);
    var passes := Passes(inner);
    var tails := Tails(perms);
    match kind {
      case Nested =>
        NestedEmissionsNonEmpty(passes, tails);
        NestedExtraNonEmpty(passes, tails);
        CombineNonEmpty(perms, Wrap(subs + NestedPassthroughs(passes, tails).1));
      case Inline =>
        CombineNonEmpty(perms, subs);
      case Parenthetical =>
        ParentheticalNonEmpty(subs, tails);
    }
  }

  lemma {:induction false} NestedEmissionsNonEmpty(passes: seq<seq<Concept>>, tails: seq<Concept>)
    requires AllNonEmpty(passes)
    ensures EmissionsNonEmpty(NestedPassthroughs(passes, tails).0)
  {
    if |passes| > 0 {
      PassAgainstEmissions(passes[0], tails);
      NestedEmissionsNonEmpty(passes[1..], tails);
    }
  }

  lemma {:induction false} PassAgainstEmissions(parts: seq<Concept>, tails: seq<Concept>)
    ensures forall i :: 0 <= i < |PassAgainst(parts, tails).0| ==> PassAgainst(parts, tails).0[i] == Emission(parts, true)
  {
    if |tails| > 0 {
      PassAgainstEmissions(parts, tails[1..]);
    }
  }

  lemma CrossLength(ls: seq<seq<Concept>>, rs: seq<seq<Concept>>)
    ensures |Cross(ls, rs)| == |ls| * |rs|
  {
    BlocksIsProduct(|ls|, |rs|);
  }

  /** The cross product lists, for each left in order, that left followed by each right. */
  lemma CrossAt(ls: seq<seq<Concept>>, rs: seq<seq<Concept>>, i: nat, j: nat)
    requires i < |ls| && j < |rs|
    ensures i * |rs| + j < |Cross(ls, rs)|
    ensures Cross(ls, rs)[i * |rs| + j] == ls[i] + rs[j]
  {
    CrossAtOffset(ls, rs, i, j);
    BlocksIsProduct(i, |rs|);
  }

  lemma {:induction false} CrossAtOffset(ls: seq<seq<Concept>>, rs: seq<seq<Concept>>, i: nat, j: nat)
    requires i < |ls| && j < |rs|
    ensures Blocks(i, |rs|) + j < |Cross(ls, rs)|
    ensures Cross(ls, rs)[Blocks(i, |rs|) + j] == ls[i] + rs[j]
  {
    if i > 0 {
      CrossAtOffset(ls[1..], rs, i - 1, j);
      CrossShift(ls, rs, i, j);
    } else {
      CrossFirst(ls, rs, j);
    }
  }

  /** The first block of the cross product pairs the first left with each right. */
  lemma CrossFirst(ls: seq<seq<Concept>>, rs: seq<seq<Concept>>, j: nat)
    requires 0 < |ls| && j < |rs|
    ensures j < |Cross(ls, rs)| && Cross(ls, rs)[j] == ls[0] + rs[j]
  {
    assert Cross(ls, rs)[j] == PrependEach(ls[0], rs)[j];
  }

  /** An entry of the cross product of the later lefts, one block of `|rs|` further on. */
  lemma CrossShift(ls: seq<seq<Concept>>, rs: seq<seq<Concept>>, i: nat, j: nat)
    requires 0 < i < |ls| && j < |rs|
    requires Blocks(i - 1, |rs|) + j < |Cross(ls[1..], rs)|
    requires Cross(ls[1..], rs)[Blocks(i - 1, |rs|) + j] == ls[1..][i - 1] + rs[j]
    ensures Blocks(i, |rs|) + j < |Cross(ls, rs)| && Cross(ls, rs)[Blocks(i, |rs|) + j] == ls[i] + rs[j]
  {
    var k := Blocks(i - 1, |rs|) + j;
    assert Blocks(i, |rs|) + j == |rs| + k;
    CrossLater(ls, rs, k);
    assert ls[i] == ls[1..][i - 1];
  }

  lemma CrossLater(ls: seq<seq<Concept>>, rs: seq<seq<Concept>>, k: nat)
    requires |ls| > 0 && k < |Cross(ls[1..], rs)|
    ensures |rs| + k < |Cross(ls, rs)| && Cross(ls, rs)[|rs| + k] == Cross(ls[1..], rs)[k]
  {
  }

  lemma MulStep(i: nat, m: nat)
    requires i > 0
    ensures i * m == m + (i - 1) * m
  {
  }

  lemma {:induction false} MulBound(i: nat, n: nat, m: nat, j: nat)
    requires i < n && j < m
    ensures i * m + j < n * m
    decreases n
  {
    MulStep(n, m);
    if i < n - 1 {
      MulBound(i, n - 1, m, j);
    }
  }

  lemma CombineNonEmpty(perms: seq<seq<Concept>>, suffixes: seq<seq<Concept>>)
    requires AllNonEmpty(perms) && AllNonEmpty(suffixes)
    ensures AllNonEmpty(Combine(perms, suffixes))
  {
    if |suffixes| > 0 && |perms| > 0 {
      CrossNonEmpty(perms, suffixes);
    }
  }

  lemma {:induction false} CrossNonEmpty(ls: seq<seq<Concept>>, rs: seq<seq<Concept>>)
    requires AllNonEmpty(rs)
    ensures AllNonEmpty(Cross(ls, rs))
  {
    if |ls| > 0 {
      CrossNonEmpty(ls[1..], rs);
    }
  }

  lemma {:induction false} ParentheticalNonEmpty(subs: seq<seq<Concept>>, tails: seq<Concept>)
    requires AllNonEmpty(subs)
    ensures EmissionsNonEmpty(ParentheticalEmissions(subs, tails))
  {
    if |subs| > 0 {
      ParentheticalNonEmpty(subs[1..], tails);
    }
  }

  /** `getPermutations`: the parts of every emission, passthrough or not. */
  function Permutations(root: Block): (ps: seq<seq<Concept>>)
    ensures AllNonEmpty(ps)
  {
    PartsOf(VisitBlock(root))
  }

  function PartsOf(es: seq<Emission>): (ps: seq<seq<Concept>>)
    ensures |ps| == |es|
    ensures forall i :: 0 <= i < |es| ==> ps[i] == es[i].parts
  {
    if |es| == 0 then [] else [es[0].parts] + PartsOf(es[1..])
  }

  // `parseConcepts` and `parseConcept`.

  /** `applyPlugins` on each permutation. */
  function ApplyAll(perms: seq<seq<Concept>>, plugins: seq<Plugin>): (r: seq<seq<Concept>>)
    requires AllNonEmpty(perms)
    ensures |r| == |perms| && AllNonEmpty(r)
    ensures forall i :: 0 <= i < |perms| ==> r[i] == ApplyPlugins(perms[i], plugins)
  {
    if |perms| == 0 then []
    else
      ApplyPluginsNonEmpty(perms[0], plugins);
      [ApplyPlugins(perms[0], plugins)] + ApplyAll(perms[1..], plugins)
  }

  /** `new Concept(permutation)` for each permutation. */
  function BuildAll(perms: seq<seq<Concept>>): (r: seq<Concept>)
    requires AllNonEmpty(perms)
    ensures |r| == |perms|
    ensures forall i :: 0 <= i < |perms| ==> r[i] == Build(perms[i])
  {
    if |perms| == 0 then [] else [Build(perms[0])] + BuildAll(perms[1..])
  }

  /**
   * `parseConcepts(source, plugins)`: the sources joined by newlines are
   * tokenized, built into a tree and expanded; each permutation goes through
   * the plugins and the constructor, and the concepts are deduplicated by key.
   */
  function ParseConcepts(sources: seq<string>, plugins: seq<Plugin>): Result<seq<Concept>>
  {
    match Tokenize(Join(sources, "\n"))
    case Err(m) => Err(m)
    case Ok(tokens) =>
      match ExpansionTree(tokens)
      case Err(m) => Err(m)
      case Ok(root) => Ok(UniqueByKey(BuildAll(ApplyAll(Permutations(root), plugins))))
  }

  /** `parseConcepts(source)` with the default plugins. */
  function Parse(source: string): Result<seq<Concept>>
  {
    ParseConcepts([source], AllPlugins)
  }

  /** `parseConcept`: the first parsed concept. */
  function ParseConcept(source: string, plugins: seq<Plugin>): (r: Result<Concept>)
    ensures ParseConcepts([source], plugins).Ok? && |ParseConcepts([source], plugins).value| > 0
      ==> r == Ok(ParseConcepts([source], plugins).value[0])
    ensures ParseConcepts([source], plugins).Ok? && |ParseConcepts([source], plugins).value| == 0
      ==> r == Err("Invalid concept source")
    ensures ParseConcepts([source], plugins).Err? ==> r.Err? && r.msg == ParseConcepts([source], plugins).msg
  {
    match ParseConcepts([source], plugins)
    case Err(m) => Err(m)
    case Ok(cs) => if |cs| == 0 then Err("Invalid concept source") else Ok(cs[0])
  }

  /** The result never holds two concepts with the same key. */
  lemma ParseConceptsDistinct(sources: seq<string>, plugins: seq<Plugin>)
    requires ParseConcepts(sources, plugins).Ok?
    ensures DistinctKeys(ParseConcepts(sources, plugins).value)
  {
    TokenizeCorrect(Join(sources, "\n"));
    var root := ExpansionTree(Tokenize(Join(sources, "\n")).value).value;
    UniqueByKeyFacts(BuildAll(ApplyAll(Permutations(root), plugins)));
  }

  // What the parser does to ATOM and STRING tokens of the tokenizer.

  /** Every ATOM and STRING token passes the atom check. */
  predicate AtomsPass(tokens: seq<Token>)
  {
    forall i :: 0 <= i < |tokens| && (tokens[i].ttype == AtomToken || tokens[i].ttype == StringLit)
      ==> PassesAtomCheck(tokens[i].value)
  }

  lemma TokenizeAtomsPass(source: string)
    ensures Tokenize(source).Ok? && AtomsPass(Tokenize(source).value)
  {
    TokenizeCorrect(source);
    var ts := Tokenize(source).value;
    forall i | 0 <= i < |ts| && (ts[i].ttype == AtomToken || ts[i].ttype == StringLit)
      ensures PassesAtomCheck(ts[i].value)
    {
      var at := source[Offset(ts, i)..];
      TokenAtomsPassCheck(ts[i].ttype, at);
    }
  }

  /** A failure of the parser other than the atom check is a read through a `null` cursor. */
  predicate NullFailure(st: ParseState)
  {
    st.Failed? ==> HasPrefix(st.msg, "Cannot read properties of null")
  }

  lemma {:induction false} RunNullFailure(st: ParseState, tokens: seq<Token>)
    requires NullFailure(st) && AtomsPass(tokens)
    ensures NullFailure(Run(st, tokens))
    decreases |tokens|
  {
    if |tokens| > 0 {
      assert AtomsPass(tokens[1..]) by {
        forall i | 0 <= i < |tokens[1..]|
          ensures tokens[1..][i] == tokens[i + 1]
        {
        }
      }
      RunNullFailure(Step(st, tokens[0]), tokens[1..]);
    }
  }

  /**
   * Tokenizing never fails and its atoms always pass the check, so the only
   * way `parseConcepts` throws is through the cursor going `null` after
   * unbalanced closing braces at the top level.
   */
  lemma ParseConceptsErrors(sources: seq<string>, plugins: seq<Plugin>)
    ensures ParseConcepts(sources, plugins).Err? ==> HasPrefix(ParseConcepts(sources, plugins).msg, "Cannot read properties of null")
  {
    var source := Join(sources, "\n");
    TokenizeAtomsPass(source);
    RunNullFailure(Open(Initial), Tokenize(source).value);
  }

  // How each kind of block expands, for blocks whose alternatives are plain concepts.

  function Leaves(cs: seq<Concept>): (ns: seq<Node>)
    ensures |ns| == |cs|
    ensures forall i :: 0 <= i < |cs| ==> ns[i] == Leaf(cs[i])
  {
    if |cs| == 0 then [] else [Leaf(cs[0])] + Leaves(cs[1..])
  }

  /** A block's branches, one per alternative, each a list of concepts. */
  function FlatBranches(alts: seq<seq<Concept>>): (bs: seq<Branch>)
    ensures |bs| == |alts|
    ensures forall i :: 0 <= i < |alts| ==> bs[i] == BranchNode(Leaves(alts[i]))
  {
    if |alts| == 0 then [] else [BranchNode(Leaves(alts[0]))] + FlatBranches(alts[1..])
  }

  /** `permutations` after a run of concept children. */
  function ExtendAll(perms: seq<seq<Concept>>, cs: seq<Concept>): seq<seq<Concept>>
    decreases |cs|
  {
    if |cs| == 0 then perms else ExtendAll(Extend(perms, cs[0]), cs[1..])
  }

  lemma ExtendNonEmpty(perms: seq<seq<Concept>>, c: Concept)
    requires AllNonEmpty(perms)
    ensures AllNonEmpty(Extend(perms, c))
  {
  }

  lemma {:induction false} ExtendAllNonEmpty(perms: seq<seq<Concept>>, cs: seq<Concept>)
    requires AllNonEmpty(perms)
    ensures AllNonEmpty(ExtendAll(perms, cs))
    decreases |cs|
  {
    if |cs| > 0 {
      ExtendNonEmpty(perms, cs[0]);
      ExtendAllNonEmpty(Extend(perms, cs[0]), cs[1..]);
    }
  }

  /** Concept children extend every permutation; the first one starts a permutation of its own. */
  lemma ExtendAllFacts(perms: seq<seq<Concept>>, cs: seq<Concept>)
    requires |cs| > 0 || |perms| > 0
    ensures |perms| == 0 ==> ExtendAll(perms, cs) == [cs]
    ensures |perms| > 0 ==> (|ExtendAll(perms, cs)| == |perms|
      && forall i :: 0 <= i < |perms| ==> ExtendAll(perms, cs)[i] == perms[i] + cs)
  {
    if |perms| == 0 {
      ExtendAllFresh(cs);
    } else {
      ExtendAllEach(perms, cs);
    }
  }

  lemma ExtendAllFresh(cs: seq<Concept>)
    requires |cs| > 0
    ensures ExtendAll([], cs) == [cs]
  {
    var first: seq<seq<Concept>> := [[cs[0]]];
    assert ExtendAll([], cs) == ExtendAll(first, cs[1..]);
    ExtendAllEach(first, cs[1..]);
    var r := ExtendAll(first, cs[1..]);
    assert r[0] == [cs[0]] + cs[1..] == cs;
    assert r == [r[0]];
  }

  lemma {:induction false} ExtendAllEach(perms: seq<seq<Concept>>, cs: seq<Concept>)
    requires |perms| > 0
    ensures |ExtendAll(perms, cs)| == |perms|
    ensures forall i :: 0 <= i < |perms| ==> ExtendAll(perms, cs)[i] == perms[i] + cs
    decreases |cs|
  {
    if |cs| == 0 {
      forall i | 0 <= i < |perms|
        ensures ExtendAll(perms, cs)[i] == perms[i] + cs
      {
        assert perms[i] + cs == perms[i];
      }
    } else {
      var e := AppendEach(perms, cs[0]);
      assert Extend(perms, cs[0]) == e;
      ExtendAllEach(e, cs[1..]);
      var r := ExtendAll(e, cs[1..]);
      assert ExtendAll(perms, cs) == r;
      AppendThenRest(perms, cs[0], e, cs[1..], r);
      assert [cs[0]] + cs[1..] == cs;
    }
  }

  /** Appending `c` to each of several lists, then `rest`, appends `[c] + rest` to each. */
  lemma AppendThenRest(perms: seq<seq<Concept>>, c: Concept, e: seq<seq<Concept>>, rest: seq<Concept>, r: seq<seq<Concept>>)
    requires |e| == |perms| && forall i :: 0 <= i < |perms| ==> e[i] == perms[i] + [c]
    requires |r| == |e| && forall i :: 0 <= i < |e| ==> r[i] == e[i] + rest
    ensures forall i :: 0 <= i < |perms| ==> r[i] == perms[i] + ([c] + rest)
  {
    forall i | 0 <= i < |perms|
      ensures r[i] == perms[i] + ([c] + rest)
    {
      assert perms[i] + [c] + rest == perms[i] + ([c] + rest);
    }
  }

  /** `next` over concept children only extends the permutations. */
  lemma {:induction false} LeavesThen(cs: seq<Concept>, rest: seq<Node>, prefixes: seq<seq<Concept>>)
    requires AllNonEmpty(prefixes)
    ensures AllNonEmpty(ExtendAll(prefixes, cs))
    ensures Next(Leaves(cs) + rest, prefixes) == Next(rest, ExtendAll(prefixes, cs))
    decreases |cs|
  {
    ExtendAllNonEmpty(prefixes, cs);
    if |cs| > 0 {
      var nodes := Leaves(cs) + rest;
      assert nodes[0] == Leaf(cs[0]);
      assert nodes[1..] == Leaves(cs[1..]) + rest;
      ExtendNonEmpty(prefixes, cs[0]);
      LeavesThen(cs[1..], rest, Extend(prefixes, cs[0]));
    } else {
      assert Leaves(cs) + rest == rest;
    }
  }

  /** Each branch of plain concepts is one permutation of its own. */
  lemma {:induction false} VisitFlat(alts: seq<seq<Concept>>)
    requires AllNonEmpty(alts)
    ensures VisitBranches(FlatBranches(alts)) == Mark(alts, false)
  {
    if |alts| > 0 {
      var bs := FlatBranches(alts);
      assert bs[1..] == FlatBranches(alts[1..]);
      LeavesThen(alts[0], [], []);
      ExtendAllFacts([], alts[0]);
      assert Leaves(alts[0]) + [] == Leaves(alts[0]);
      VisitFlat(alts[1..]);
    }
  }

  lemma {:induction false} SplitMarked(ps: seq<seq<Concept>>)
    ensures Subs(Mark(ps, false)) == ps
    ensures Passes(Mark(ps, false)) == []
  {
    if |ps| > 0 {
      assert Mark(ps, false)[1..] == Mark(ps[1..], false);
      SplitMarked(ps[1..]);
    }
  }

  /**
   * An inline block `{a, b}` gives one permutation per alternative, spliced
   * into each permutation so far.
   */
  lemma InlineBlockSplices(alts: seq<seq<Concept>>, rest: seq<Node>, prefixes: seq<seq<Concept>>)
    requires AllNonEmpty(alts) && AllNonEmpty(prefixes)
    ensures AllNonEmpty(Combine(prefixes, alts))
    ensures Next([Sub(Block(Inline, FlatBranches(alts)))] + rest, prefixes) == Next(rest, Combine(prefixes, alts))
  {
    CombineNonEmpty(prefixes, alts);
    var nodes := [Sub(Block(Inline, FlatBranches(alts)))] + rest;
    assert nodes[1..] == rest;
    VisitFlat(alts);
    SplitMarked(alts);
  }

  /** A nested block `[a, b]` contributes each alternative as one compound part. */
  lemma NestedBlockWraps(alts: seq<seq<Concept>>, rest: seq<Node>, prefixes: seq<seq<Concept>>)
    requires AllNonEmpty(alts) && AllNonEmpty(prefixes)
    ensures AllNonEmpty(Combine(prefixes, Wrap(alts)))
    ensures Next([Sub(Block(Nested, FlatBranches(alts)))] + rest, prefixes) == Next(rest, Combine(prefixes, Wrap(alts)))
  {
    CombineNonEmpty(prefixes, Wrap(alts));
    var nodes := [Sub(Block(Nested, FlatBranches(alts)))] + rest;
    assert nodes[1..] == rest;
    VisitFlat(alts);
    SplitMarked(alts);
    assert alts + [] == alts;
  }

  /**
   * A parenthetical block `x (a, b)` emits each alternative after each
   * distinct last part so far, as facts of their own, and leaves the
   * permutations so far as they were.
   */
  lemma ParentheticalBlockEmits(alts: seq<seq<Concept>>, rest: seq<Node>, prefixes: seq<seq<Concept>>)
    requires AllNonEmpty(alts) && AllNonEmpty(prefixes)
    ensures Next([Sub(Block(Parenthetical, FlatBranches(alts)))] + rest, prefixes)
      == ParentheticalEmissions(alts, Tails(prefixes)) + Next(rest, prefixes)
  {
    var nodes := [Sub(Block(Parenthetical, FlatBranches(alts)))] + rest;
    assert nodes[1..] == rest;
    VisitFlat(alts);
    SplitMarked(alts);
    assert ParentheticalEmissions(alts, Tails(prefixes)) + Mark([], true) == ParentheticalEmissions(alts, Tails(prefixes));
  }

  lemma VisitOne(br: Branch)
    ensures VisitBranches([br]) == Next(br.children, [])
  {
    assert [br][1..] == [];
  }

  /** A block after a single permutation `p` splices each alternative after `p`. */
  lemma CombineSingle(p: seq<Concept>, alts: seq<seq<Concept>>)
    requires |alts| > 0
    ensures Combine([p], alts) == PrependEach(p, alts)
  {
    var ls := [p];
    assert ls[1..] == [];
    assert Cross(ls[1..], alts) == [];
    assert Cross(ls, alts) == PrependEach(p, alts) + [];
  }

  /** `john uses {javascript, python}` expands to `john uses javascript` and `john uses python`. */
  lemma InlineExample()
    ensures var john, uses, js, py := Atom("john"), Atom("uses"), Atom("javascript"), Atom("python");
      Permutations(Block(Inline, [BranchNode(Leaves([john, uses]) + [Sub(Block(Inline, FlatBranches([[js], [py]])))])]))
      == [[john, uses, js], [john, uses, py]]
  {
    InlineAfterTwo(Atom("john"), Atom("uses"), Atom("javascript"), Atom("python"));
  }

  lemma InlineAfterTwo(a: Concept, b: Concept, x: Concept, y: Concept)
    ensures Permutations(Block(Inline, [BranchNode(Leaves([a, b]) + [Sub(Block(Inline, FlatBranches([[x], [y]])))])]))
      == [[a, b, x], [a, b, y]]
  {
    var inner := [Sub(Block(Inline, FlatBranches([[x], [y]])))];
    var br := BranchNode(Leaves([a, b]) + inner);
    VisitOne(br);
    LeavesThen([a, b], inner, []);
    ExtendAllFacts([], [a, b]);
    assert inner == [Sub(Block(Inline, FlatBranches([[x], [y]])))] + [];
    InlineBlockSplices([[x], [y]], [], [[a, b]]);
    CombineSingle([a, b], [[x], [y]]);
    PrependedTwo(a, b, x, y);
  }

  lemma PrependedTwo(a: Concept, b: Concept, x: Concept, y: Concept)
    ensures PartsOf(Mark(PrependEach([a, b], [[x], [y]]), false)) == [[a, b, x], [a, b, y]]
  {
    var ps := PrependEach([a, b], [[x], [y]]);
    assert ps[0] == [a, b, x] && ps[1] == [a, b, y];
    var es := Mark(ps, false);
    assert PartsOf(es) == [[a, b, x], [a, b, y]];
  }

  /**
   * `javascript (ProgrammingLanguage)` emits `javascript ProgrammingLanguage`
   * as a fact of its own besides the fact `javascript` it was attached to.
   */
  lemma ParentheticalExample()
    ensures var js, pl := Atom("javascript"), Atom("ProgrammingLanguage");
      Permutations(Block(Inline, [BranchNode([Leaf(js), Sub(Block(Parenthetical, FlatBranches([[pl]])))])]))
      == [[js, pl], [js]]
  {
    ParentheticalAfterOne(Atom("javascript"), Atom("ProgrammingLanguage"));
  }

  lemma ParentheticalAfterOne(x: Concept, p: Concept)
    ensures Permutations(Block(Inline, [BranchNode([Leaf(x), Sub(Block(Parenthetical, FlatBranches([[p]])))])]))
      == [[x, p], [x]]
  {
    var paren := [Sub(Block(Parenthetical, FlatBranches([[p]])))];
    var root := Block(Inline, [BranchNode([Leaf(x)] + paren)]);
    assert [Leaf(x)] + paren == [Leaf(x), Sub(Block(Parenthetical, FlatBranches([[p]])))];
    VisitLeafThen(x, paren);
    ParenAfterLeaf(x, p);
    var es := [Emission([x, p], true), Emission([x], false)];
    assert VisitBlock(root) == es;
    assert PartsOf(es) == [[x, p], [x]];
  }

  lemma VisitLeafThen(x: Concept, rest: seq<Node>)
    ensures VisitBlock(Block(Inline, [BranchNode([Leaf(x)] + rest)])) == Next(rest, [[x]])
  {
    var children := [Leaf(x)] + rest;
    VisitOne(BranchNode(children));
    assert children[0] == Leaf(x) && children[1..] == rest;
    assert Extend([], x) == [[x]];
  }

  lemma ParenAfterLeaf(x: Concept, p: Concept)
    ensures Next([Sub(Block(Parenthetical, FlatBranches([[p]])))], [[x]]) == [Emission([x, p], true), Emission([x], false)]
  {
    var paren := [Sub(Block(Parenthetical, FlatBranches([[p]])))];
    assert paren == [Sub(Block(Parenthetical, FlatBranches([[p]])))] + [];
    ParentheticalBlockEmits([[p]], [], [[x]]);
    TailsSingle(x);
    ParentheticalOne(x, p);
    assert Next([], [[x]]) == [Emission([x], false)];
  }

  lemma TailsSingle(x: Concept)
    ensures Tails([[x]]) == [x]
  {
    var ps := [[x]];
    assert ps[1..] == [];
    assert Lasts(ps) == [x] + [];
    UniqueByKeySingle(x);
  }

  lemma ParentheticalOne(x: Concept, p: Concept)
    ensures ParentheticalEmissions([[p]], [x]) == [Emission([x, p], true)]
  {
    var subs := [[p]];
    assert subs[1..] == [];
    var ts := [x];
    assert ts[1..] == [];
    assert [x] + [p] == [x, p];
    assert PrependTails(ts, [p]) == [[x, p]] + [];
    assert Mark([[x, p]], true) == [Emission([x, p], true)];
    assert ParentheticalEmissions(subs, [x]) == Mark(PrependTails([x], [p]), true) + [];
  }

  lemma UniqueByKeySingle(c: Concept)
    ensures UniqueByKey([c]) == [c]
  {
    UniqueByKeyOfDistinct([c]);
  }

  /** A source that is one `<<…>>` literal, over any number of lines, parses as that one atom. */
  lemma StringLiteralSource(s: string)
    requires |s| > 0 && MatchLength(StringLit, s) == |s|
    ensures Parse(s) == Ok([Atom(s)])
    ensures IsStringLiteral(s) && Text(Atom(s)) == s[2..|s| - 2]
  {
    StringLiteralTokens(s);
    StringLiteralParses(s);
    LiteralText(s);
  }

  lemma StringLiteralParses(s: string)
    requires |s| > 0 && MatchLength(StringLit, s) == |s|
    ensures Parse(s) == Ok([Atom(s)])
  {
    var tok := PlaceToken(StringLit, s, None);
    assert Join([s], "\n") == s;
    StringLiteralTokens(s);
    StringLiteralTree(s, tok);
    var a := Atom(s);
    var root := Block(Inline, [BranchNode([Leaf(a)])]);
    ParseThrough([s], AllPlugins, [tok], root);
    SingleLeafParts(a);
    SingleAtomBuilt(a);
  }

  lemma LiteralText(s: string)
    requires IsStringLiteral(s)
    ensures Text(Atom(s)) == s[2..|s| - 2]
  {
    assert IsAtom(Atom(s)) && Key(Atom(s)) == s;
    StripDelimitersShape(s);
  }

  lemma ParseThrough(sources: seq<string>, plugins: seq<Plugin>, tokens: seq<Token>, root: Block)
    requires Tokenize(Join(sources, "\n")) == Ok(tokens)
    requires ExpansionTree(tokens) == Ok(root)
    ensures ParseConcepts(sources, plugins) == Ok(UniqueByKey(BuildAll(ApplyAll(Permutations(root), plugins))))
  {
  }

  lemma SingleAtomBuilt(a: Concept)
    requires a.Atom?
    ensures UniqueByKey(BuildAll(ApplyAll([[a]], AllPlugins))) == [a]
  {
    assert ApplyAmpersand([a]) == [a];
    assert AllPlugins[1..] == [];
    assert ApplyPlugins([a], AllPlugins) == [a];
    assert ApplyAll([[a]], AllPlugins) == [[a]];
    assert BuildAll([[a]]) == [a];
    UniqueByKeySingle(a);
  }

  lemma StringLiteralTokens(s: string)
    requires |s| > 0 && MatchLength(StringLit, s) == |s|
    ensures Tokenize(s) == Ok([PlaceToken(StringLit, s, None)])
    ensures IsStringLiteral(s)
  {
    StringTokenShape(s);
    assert s[..|s|] == s;
    assert s[0] == '<';
    assert MatchLength(Branch, s) == 0;
    assert MatchLength(Spaces, s) == 0;
    assert MatchLength(Comment, s) == 0;
    assert MatchLength(MultiLineComment, s) == 0;
    assert FirstMatch(s) == Some((StringLit, |s|));
    var tok := PlaceToken(StringLit, s, None);
    assert s[|s|..] == [];
    assert TokenizeFrom(s[|s|..], Some(tok)) == Ok([]);
    assert Tokenize(s) == Prepend([tok], Ok([]));
    assert [tok] + [] == [tok];
  }

  lemma StringLiteralTree(s: string, tok: Token)
    requires IsStringLiteral(s) && tok.ttype == StringLit && tok.value == s
    ensures ExpansionTree([tok]) == Ok(Block(Inline, [BranchNode([Leaf(Atom(s))])]))
  {
    var a := Atom(s);
    assert MakeAtom(s) == Ok(a);
    var c := Cursor([], true, [], [Leaf(a)]);
    assert Step(Open(Initial), tok) == Open(c);
    assert [tok][1..] == [];
    assert Run(Open(Initial), [tok]) == Open(c);
    assert HandleClosing(c) == Open(c);
    assert Materialize(c) == Block(Inline, [BranchNode([Leaf(a)])]);
  }

  lemma SingleLeafParts(a: Concept)
    ensures Permutations(Block(Inline, [BranchNode([Leaf(a)])])) == [[a]]
  {
    var root := Block(Inline, [BranchNode([Leaf(a)])]);
    VisitOne(BranchNode([Leaf(a)]));
    assert [Leaf(a)] == Leaves([a]) + [];
    LeavesThen([a], [], []);
    ExtendAllFacts([], [a]);
    assert VisitBlock(root) == [Emission([a], false)];
  }
}
