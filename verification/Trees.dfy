/** Every tree of the language can be printed, with any binary operators, and parses back to itself. */
module TreePrinting {
  import opened Tokens
  import opened Numbers
  import opened Syntax
  import opened ParserSpec
  import opened Grammar
  import opened Brackets
  import opened ParserTheorems
  import opened Pool

  // ----- The trees of the language -----

  ghost predicate ExprTree(t: Tree)
    decreases t, 0
  {
    match t
    case NumberTree(n) => 0 <= n <= INT64_MAX
    case StringTree(_) => true
    case IdentTree(_) => true
    case NilTree => true
    case BoolTree(_) => true
    case UnaryTree(op, e) => (op == TMinus || op == TNot) && ExprTree(e)
    case ArrayTree(elems, length) =>
      ExprTrees(elems) && (length.NoTree? || (ExprTree(length) && elems.Trees? && elems.tail.NoTrees?))
    case BinaryTree(l, r) => ExprTree(l) && ExprTree(r)
    case RangeTree(l, _, r) => ExprTree(l) && ExprTree(r)
    case AssignTree(l, r) => ExprTree(l) && ExprTree(r)
    case TernaryTree(c, y, n) => ExprTree(c) && ExprTree(y) && ExprTree(n)
    case CallTree(f, args) => ExprTree(f) && ExprTrees(args)
    case IndexTree(b, i) => ExprTree(b) && ExprTree(i)
    case DotTree(l, member) => ExprTree(l) && member.Some?
    case IfTree(c, thenArm, elseArm) =>
      && ExprTree(c) && thenArm.BlockTree? && StmtTrees(thenArm.stmts)
      && (elseArm.NoTree? || (elseArm.IfTree? && ExprTree(elseArm)) || (elseArm.BlockTree? && StmtTrees(elseArm.stmts)))
    case _ => false
  }

  ghost predicate ExprTrees(ts: Trees)
    decreases ts, 0
  {
    ts.NoTrees? || (ExprTree(ts.head) && ExprTrees(ts.tail))
  }

  ghost predicate StmtTree(t: Tree)
    decreases t, 1
  {
    match t
    case ReturnTree(e) => ExprTree(e)
    case DeclTree(_, ident, init) => ident.IdentTree? && (init.NoTree? || ExprTree(init))
    case FuncTree(ident, _, block) => ident.IdentTree? && block.BlockTree? && StmtTrees(block.stmts)
    case _ => ExprTree(t)
  }

  ghost predicate StmtTrees(ts: Trees)
    decreases ts, 0
  {
    ts.NoTrees? || (StmtTree(ts.head) && StmtTrees(ts.tail))
  }

  // ----- A derivation for each -----

  /** A derivation of `t`, whose first node has index `at`; `pick` chooses the operator of the binary node at an index. */

  ghost function Derive(t: Tree, pick: nat -> TokenType, at: nat): Syn
    requires ExprTree(t)
    decreases t, 0
  {
    match t
    case NumberTree(n) => Leaf(Tok(TNum, DecimalText(n)))
    case StringTree(text) => Leaf(Tok(TString, text))
    case IdentTree(name) => Leaf(Tok(TIdent, name))
    case NilTree => Leaf(Fixed(TNil))
    case BoolTree(b) => Leaf(Fixed(if b then TTrue else TFalse))
    case UnaryTree(op, e) => Unary(op, Derive(e, pick, at + 1))
    case ArrayTree(elems, length) =>
      Array(DeriveAll(elems, pick, at + 1), false,
            if length.NoTree? then Missing else Derive(length, pick, at + 1 + SizeAll(elems)))
    case BinaryTree(l, r) => Infix(Derive(l, pick, at), pick(at + Size(l)), Derive(r, pick, at + Size(l) + 1))
    case RangeTree(l, inclusive, r) =>
      Infix(Derive(l, pick, at), if inclusive then TDotDotEq else TDotDot, Derive(r, pick, at + Size(l) + 1))
    case AssignTree(l, r) => Infix(Derive(l, pick, at), TEquals, Derive(r, pick, at + Size(l) + 1))
    case TernaryTree(c, y, n) =>
      Ternary(Derive(c, pick, at), Derive(y, pick, at + Size(c) + 1), Derive(n, pick, at + Size(c) + 1 + Size(y)))
    case CallTree(f, args) => Call(Derive(f, pick, at), DeriveAll(args, pick, at + Size(f) + 1))
    case IndexTree(b, i) => Index(Derive(b, pick, at), Derive(i, pick, at + Size(b) + 1))
    case DotTree(l, member) => Dot(Derive(l, pick, at), member)
    case IfTree(c, thenArm, elseArm) =>
      var els := at + Size(c) + Size(thenArm);
      If(Derive(c, pick, at), [], DeriveBlock(thenArm.stmts, pick, at + Size(c) + 1),
         if elseArm.NoTree? then NoElse
         else if elseArm.BlockTree? then ElseBlock([], [], DeriveBlock(elseArm.stmts, pick, els + 1))
         else ElseIf([], [], Derive(elseArm, pick, els)))
  }

  ghost function DeriveAll(ts: Trees, pick: nat -> TokenType, at: nat): Syns
    requires ExprTrees(ts)
    decreases ts, 0
  {
    if ts.NoTrees? then NoSyns else Syns(Derive(ts.head, pick, at), DeriveAll(ts.tail, pick, at + Size(ts.head)))
  }

  ghost function DeriveStmt(t: Tree, pick: nat -> TokenType, at: nat): Stmt
    requires StmtTree(t)
    decreases t, 1
  {
    if t.ReturnTree? then Return(Derive(t.result, pick, at + 1))
    else if t.DeclTree? then
      Decl(t.isConst, Tok(TIdent, t.ident.name), if t.init.NoTree? then Missing else Derive(t.init, pick, at + 2))
    else if t.FuncTree? then
      Func(Fixed(TFunc), Some(t.ident.name), DeriveParams(t.params), DeriveBlock(t.block.stmts, pick, at + 3))
    else Expression(Derive(t, pick, at))
  }

  ghost function DeriveParams(ps: seq<Param>): Params {
    if ps == [] then NoParams else Params(Tok(TIdent, ps[0].name), ps[0].typ, DeriveParams(ps[1..]))
  }

  /** A newline after every statement. */
  ghost function DeriveBlock(ts: Trees, pick: nat -> TokenType, at: nat): Items
    requires StmtTrees(ts)
    decreases ts, 0
  {
    if ts.NoTrees? then NoItems
    else Item(DeriveStmt(ts.head, pick, at), Sep(Tok(TNewline, "\n"), DeriveBlock(ts.tail, pick, at + Size(ts.head))))
  }

  ghost predicate PicksBinary(pick: nat -> TokenType) {
    forall i :: RuleOf(pick(i)).infix.BinaryInfix?
  }

  ghost predicate Derived(t: Tree, s: Syn) {
    Shaped(s) && Erase(s) == t
  }

  /** For every tree and every choice of an operator at each of its binary nodes there is a derivation. */
  lemma {:induction false} DeriveIsFaithful(t: Tree, pick: nat -> TokenType, at: nat)
    requires ExprTree(t) && PicksBinary(pick)
    ensures Derived(t, Derive(t, pick, at)) && !Derive(t, pick, at).Missing?
    ensures t.IfTree? ==> Derive(t, pick, at).If?
    decreases t, 1
  {
    hide Shaped, Erase, RuleOf, IsInfix, InfixTree, Spelling, DecimalText, ExprTrees, StmtTrees, DeriveAll, DeriveBlock;
    hide ShapedAll, ShapedItems, EraseAll, EraseItems, FittingNumeral, NumberValue, Derived, Size, SizeAll;
    match t
    case NumberTree(n) => NumberLeaf(n);
    case UnaryTree(op, e) => DeriveIsFaithful(e, pick, at + 1); DerivedUnary(op, e, Derive(e, pick, at + 1));
    case BinaryTree(l, r) =>
      PickedInfix(l, r, pick(at + Size(l)), false);
      DeriveInfix(t, pick(at + Size(l)), pick, at);
    case RangeTree(l, inclusive, r) =>
      PickedInfix(l, r, pick(0), inclusive);
      DeriveInfix(t, if inclusive then TDotDotEq else TDotDot, pick, at);
    case AssignTree(l, r) =>
      PickedInfix(l, r, pick(0), false);
      DeriveInfix(t, TEquals, pick, at);
    case StringTree(_) => DerivedLeaf(t, Derive(t, pick, at));
    case IdentTree(_) => DerivedLeaf(t, Derive(t, pick, at));
    case NilTree => DerivedLeaf(t, Derive(t, pick, at));
    case BoolTree(_) => DerivedLeaf(t, Derive(t, pick, at));
    case IfTree(_, _, _) => DeriveIf(t, pick, at);
    case ArrayTree(_, _) => DerivePostfix(t, pick, at);
    case TernaryTree(_, _, _) => DerivePostfix(t, pick, at);
    case CallTree(_, _) => DerivePostfix(t, pick, at);
    case IndexTree(_, _) => DerivePostfix(t, pick, at);
    case DotTree(_, _) => DerivePostfix(t, pick, at);
  }

  lemma {:induction false} DerivePostfix(t: Tree, pick: nat -> TokenType, at: nat)
    requires ExprTree(t) && PicksBinary(pick)
    requires t.ArrayTree? || t.TernaryTree? || t.CallTree? || t.IndexTree? || t.DotTree?
    ensures Derived(t, Derive(t, pick, at)) && !Derive(t, pick, at).Missing?
    decreases t, 0
  {
    hide Shaped, Erase, RuleOf, IsInfix, InfixTree, Spelling, DecimalText, ExprTrees, StmtTrees, DeriveAll, DeriveBlock;
    hide ShapedAll, ShapedItems, EraseAll, EraseItems, FittingNumeral, NumberValue, Derived, Size, SizeAll;
    match t
    case ArrayTree(elems, length) =>
      var after := at + 1 + SizeAll(elems);
      DeriveAllIsFaithful(elems, pick, at + 1);
      if !length.NoTree? { DeriveIsFaithful(length, pick, after); }
      DerivedArray(elems, DeriveAll(elems, pick, at + 1), length, if length.NoTree? then Missing else Derive(length, pick, after));
    case TernaryTree(c, y, n) =>
      var yesAt := at + Size(c) + 1;
      DeriveIsFaithful(c, pick, at);
      DeriveIsFaithful(y, pick, yesAt);
      DeriveIsFaithful(n, pick, yesAt + Size(y));
      DerivedTernary(c, Derive(c, pick, at), y, Derive(y, pick, yesAt), n, Derive(n, pick, yesAt + Size(y)));
    case CallTree(f, args) =>
      DeriveIsFaithful(f, pick, at);
      DeriveAllIsFaithful(args, pick, at + Size(f) + 1);
      DerivedCall(f, Derive(f, pick, at), args, DeriveAll(args, pick, at + Size(f) + 1));
    case IndexTree(b, i) =>
      DeriveIsFaithful(b, pick, at);
      DeriveIsFaithful(i, pick, at + Size(b) + 1);
      DerivedIndex(b, Derive(b, pick, at), i, Derive(i, pick, at + Size(b) + 1));
    case DotTree(l, member) => DeriveIsFaithful(l, pick, at); DerivedDot(l, Derive(l, pick, at), member);
  }

  lemma {:induction false} DeriveIf(t: Tree, pick: nat -> TokenType, at: nat)
    requires t.IfTree? && ExprTree(t) && PicksBinary(pick)
    ensures Derived(t, Derive(t, pick, at)) && Derive(t, pick, at).If?
    decreases t, 0
  {
    hide Shaped, Erase, RuleOf, IsInfix, InfixTree, Spelling, DecimalText, ExprTrees, StmtTrees, DeriveAll, DeriveBlock;
    hide ShapedAll, ShapedItems, EraseAll, EraseItems, FittingNumeral, NumberValue, Derived, Size, SizeAll;
    var c, ts, elseArm := t.test, t.thenArm.stmts, t.elseArm;
    var els := at + Size(c) + Size(t.thenArm);
    DeriveIsFaithful(c, pick, at);
    DeriveBlockIsFaithful(ts, pick, at + Size(c) + 1);
    if elseArm.BlockTree? { DeriveBlockIsFaithful(elseArm.stmts, pick, els + 1); }
    if elseArm.IfTree? { DeriveIsFaithful(elseArm, pick, els); }
    DerivedIf(c, Derive(c, pick, at), ts, DeriveBlock(ts, pick, at + Size(c) + 1), elseArm, Derive(t, pick, at).els);
  }

  lemma {:induction false} DeriveInfix(t: Tree, op: TokenType, pick: nat -> TokenType, at: nat)
    requires (t.BinaryTree? || t.RangeTree? || t.AssignTree?) && ExprTree(t.lhs) && ExprTree(t.rhs)
    requires PicksBinary(pick) && IsInfix(op)
    ensures Derived(InfixTree(t.lhs, op, t.rhs), Infix(Derive(t.lhs, pick, at), op, Derive(t.rhs, pick, at + Size(t.lhs) + 1)))
    decreases t, 0
  {
    hide ExprTree, Derive, Derived, Size, IsInfix, InfixTree;
    DeriveIsFaithful(t.lhs, pick, at);
    DeriveIsFaithful(t.rhs, pick, at + Size(t.lhs) + 1);
    DerivedInfix(t.lhs, Derive(t.lhs, pick, at), op, t.rhs, Derive(t.rhs, pick, at + Size(t.lhs) + 1));
  }

  lemma PickedInfix(l: Tree, r: Tree, op: TokenType, inclusive: bool)
    requires RuleOf(op).infix.BinaryInfix?
    ensures IsInfix(op) && InfixTree(l, op, r) == BinaryTree(l, r)
    ensures var range := if inclusive then TDotDotEq else TDotDot;
            IsInfix(range) && InfixTree(l, range, r) == RangeTree(l, inclusive, r)
    ensures IsInfix(TEquals) && InfixTree(l, TEquals, r) == AssignTree(l, r)
  {
  }

  lemma {:induction false} NumberLeaf(n: nat)
    requires n <= INT64_MAX
    ensures Derived(NumberTree(n), Leaf(Tok(TNum, DecimalText(n))))
  {
    hide FittingNumeral, DecimalText;
    DecimalRoundTrip(n);
  }

  lemma DerivedLeaf(t: Tree, s: Syn)
    requires match t
             case StringTree(text) => s == Leaf(Tok(TString, text))
             case IdentTree(name) => s == Leaf(Tok(TIdent, name))
             case NilTree => s == Leaf(Fixed(TNil))
             case BoolTree(b) => s == Leaf(Fixed(if b then TTrue else TFalse))
             case _ => false
    ensures Derived(t, s)
  {
  }

  lemma DerivedUnary(op: TokenType, t: Tree, e: Syn)
    requires (op == TMinus || op == TNot) && Derived(t, e)
    ensures Derived(UnaryTree(op, t), Unary(op, e))
  {
  }

  lemma {:induction false} DerivedArray(ts: Trees, ss: Syns, t: Tree, length: Syn)
    requires ShapedAll(ss) && EraseAll(ss) == ts
    requires if t.NoTree? then length.Missing? else Derived(t, length) && ts.Trees? && ts.tail.NoTrees?
    ensures Derived(ArrayTree(ts, t), Array(ss, false, length))
  {
    assert Erase(Missing) == NoTree;
  }

  lemma DerivedInfix(tl: Tree, l: Syn, op: TokenType, tr: Tree, r: Syn)
    requires IsInfix(op) && Derived(tl, l) && Derived(tr, r)
    ensures Derived(InfixTree(tl, op, tr), Infix(l, op, r))
  {
    hide InfixTree, IsInfix, RuleOf;
  }

  lemma DerivedTernary(tc: Tree, c: Syn, ty: Tree, y: Syn, tn: Tree, n: Syn)
    requires Derived(tc, c) && Derived(ty, y) && Derived(tn, n)
    ensures Derived(TernaryTree(tc, ty, tn), Ternary(c, y, n))
  {
  }

  lemma {:induction false} DerivedCall(tf: Tree, f: Syn, ts: Trees, args: Syns)
    requires Derived(tf, f) && ShapedAll(args) && EraseAll(args) == ts
    ensures Derived(CallTree(tf, ts), Call(f, args))
  {
  }

  lemma DerivedIndex(tb: Tree, b: Syn, ti: Tree, i: Syn)
    requires Derived(tb, b) && Derived(ti, i)
    ensures Derived(IndexTree(tb, ti), Index(b, i))
  {
  }

  lemma DerivedDot(tl: Tree, l: Syn, member: Option<string>)
    requires Derived(tl, l) && member.Some?
    ensures Derived(DotTree(tl, member), Dot(l, member))
  {
  }

  /** A block whose statements denote `ts`. */
  ghost predicate DerivedBlock(ts: Trees, items: Items) {
    ShapedItems(items) && EraseItems(items) == ts
  }

  lemma DerivedIf(tc: Tree, c: Syn, ts: Trees, body: Items, te: Tree, els: Else)
    requires Derived(tc, c) && DerivedBlock(ts, body)
    requires match els
             case NoElse => te.NoTree?
             case ElseIf(before, after, nested) => before == after == [] && nested.If? && Derived(te, nested)
             case ElseBlock(before, after, items) => before == after == [] && te.BlockTree? && DerivedBlock(te.stmts, items)
    ensures Derived(IfTree(tc, BlockTree(ts), te), If(c, [], body, els))
  {
    hide ShapedItems, EraseItems;
    assert ShapedElse(els) && EraseElse(els) == te;
  }

  lemma {:induction false} DeriveAllIsFaithful(ts: Trees, pick: nat -> TokenType, at: nat)
    requires ExprTrees(ts) && PicksBinary(pick)
    ensures var ss := DeriveAll(ts, pick, at);
            && ShapedAll(ss) && EraseAll(ss) == ts
            && (ts.Trees? ==> ss.Syns? && ss.tail.NoSyns? == ts.tail.NoTrees?)
    decreases ts, 0
  {
    hide Shaped, Erase, ExprTree, Derive, Size;
    if ts.Trees? {
      DeriveIsFaithful(ts.head, pick, at);
      DeriveAllIsFaithful(ts.tail, pick, at + Size(ts.head));
    }
  }

  lemma {:induction false} DeriveBlockIsFaithful(ts: Trees, pick: nat -> TokenType, at: nat)
    requires StmtTrees(ts) && PicksBinary(pick)
    ensures DerivedBlock(ts, DeriveBlock(ts, pick, at))
    decreases ts, 0
  {
    hide ShapedStmt, EraseStmt, StmtTree, DeriveStmt, Size;
    if ts.Trees? {
      DeriveStmtIsFaithful(ts.head, pick, at);
      DeriveBlockIsFaithful(ts.tail, pick, at + Size(ts.head));
      var rest := DeriveBlock(ts.tail, pick, at + Size(ts.head));
      assert ShapedItems(Sep(Tok(TNewline, "\n"), rest));
      assert EraseItems(Sep(Tok(TNewline, "\n"), rest)) == ts.tail;
    }
  }

  lemma {:induction false} DeriveStmtIsFaithful(t: Tree, pick: nat -> TokenType, at: nat)
    requires StmtTree(t) && PicksBinary(pick)
    ensures ShapedStmt(DeriveStmt(t, pick, at)) && EraseStmt(DeriveStmt(t, pick, at)) == t
    decreases t, 2
  {
    hide Shaped, Erase, ExprTree, Derive, StmtTrees, DeriveBlock, ShapedItems, EraseItems, ParamList, DeriveParams, Spelling, Size;
    if t.ReturnTree? {
      DeriveIsFaithful(t.result, pick, at + 1);
    } else if t.DeclTree? {
      if t.init.NoTree? { EraseMissing(); } else { DeriveIsFaithful(t.init, pick, at + 2); }
    } else if t.FuncTree? {
      ParamsAreFaithful(t.params);
      DeriveBlockIsFaithful(t.block.stmts, pick, at + 3);
    } else {
      DeriveIsFaithful(t, pick, at);
    }
  }

  lemma EraseMissing()
    ensures Erase(Missing) == NoTree
  {
  }

  lemma {:induction false} ParamsAreFaithful(ps: seq<Param>)
    ensures ParamList(DeriveParams(ps)) == ps
  {
    if ps != [] { ParamsAreFaithful(ps[1..]); }
  }

  /**
   Round trip for trees. Whatever derivation of `t` is printed, that is with any operators at its
   binary nodes, any parentheses and newlines of its own and any spellings of its numbers, and
   wherever it is printed: with the parentheses the place asks for, before any token that leaves it
   alone, parsing gives `t` back and stops at that token.
   */
  lemma {:induction false} TreeRoundTrip(t: Tree, s: Syn, ts: seq<Tok>, pos: nat, prec: nat, op: nat)
    requires Shaped(s) && Erase(s) == t && prec <= PREC_HIGHEST && op <= PREC_COUNT
    requires StandsAt(ts, pos, Bracket(s, prec, op), prec)
    ensures var printed := Bracket(s, prec, op);
            var r := Expr(ts, pos, prec);
            r == Done(printed, pos + |Yield(printed)|, 0) && Erase(r.value) == t && op <= Edge(printed)
  {
    hide Bracket, Yield, Expr, Shaped, Bound, Erase, Edge, StandsAt;
    BracketPlaces(s, prec, op);
    ExpressionRoundTrip(ts, pos, Bracket(s, prec, op), prec);
  }

  /** Round trip for programs, whatever derivation of the trees is printed. */
  lemma {:induction false} ProgramTreeRoundTrip(trees: Trees, items: Items, rest: seq<Tok>)
    requires ShapedItems(items) && EraseItems(items) == trees && rest != [] && rest[0].kind == TEnd
    ensures var printed := BracketItems(items);
            var r := Program(YieldItems(printed) + rest);
            r == Done(printed, |YieldItems(printed)|, 0) && EraseItems(r.value) == trees
  {
    hide BracketItems, YieldItems, Program, ShapedItems, BoundItems, EraseItems;
    BracketItemsFit(items);
    ProgramRoundTrip(BracketItems(items), rest);
  }
}
