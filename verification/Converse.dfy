/** Whatever the parser returns without error is a well-bound derivation of the tokens it consumed. */
module Converse {
  import opened Tokens
  import opened Syntax
  import opened ParserSpec
  import opened Grammar
  import opened RoundTrip

  ghost predicate AllSpelled(ts: seq<Tok>) {
    forall i :: 0 <= i < |ts| ==> Spelled(ts[i])
  }

  /** What comes next does not extend `s`, if anything comes next. */
  ghost predicate Unextended(ts: seq<Tok>, pos: nat, s: Syn) {
    && (pos < |ts| ==> Precedence(ts[pos].kind) <= Edge(s))
    && (OpenIf(s) ==> ElseFree(ts, pos))
  }

  ghost predicate Clean<T>(r: Run<T>) {
    r.Done? && r.errors == 0
  }

  /** A run built `s` from the tokens at `pos`, which ends where the run stopped. */
  ghost predicate Built(ts: seq<Tok>, pos: nat, r: Run<Syn>, prec: nat) {
    r.Done? && Fits(ts, pos, r.value, prec) && r.pos == pos + Len(r.value) && Unextended(ts, r.pos, r.value)
  }

  lemma FixedAt(ts: seq<Tok>, i: nat, k: TokenType)
    requires AllSpelled(ts) && KindAt(ts, i, k) && Spelling(k).Some?
    ensures TokenAt(ts, i, Fixed(k))
  {
    assert Spelled(ts[i]);
  }

  // ----- Putting derivations together -----

  lemma {:induction false} MakeInfix(ts: seq<Tok>, pos: nat, l: Syn, op: TokenType, r: Syn, prec: nat)
    requires Fits(ts, pos, l, prec) && TokenAt(ts, pos + Len(l), Fixed(op)) && IsInfix(op)
    requires prec < Precedence(op) <= Edge(l)
    requires Fits(ts, pos + Len(l) + 1, r, RightPrecedence(op))
    ensures Fits(ts, pos, Infix(l, op, r), prec) && Len(Infix(l, op, r)) == Len(l) + 1 + Len(r)
  {
    hide TokenAt, Fixed, RuleOf, IsInfix, Precedence, RightPrecedence, Edge;
  }

  lemma {:induction false} MakeTernary(ts: seq<Tok>, pos: nat, c: Syn, y: Syn, n: Syn, prec: nat)
    requires Fits(ts, pos, c, prec) && TokenAt(ts, pos + Len(c), Fixed(TQuestion))
    requires prec < PREC_TERNARY <= Edge(c) && Fits(ts, pos + Len(c) + 1, y, PREC_LOWEST)
    requires TokenAt(ts, pos + Len(c) + 1 + Len(y), Fixed(TColon))
    requires Fits(ts, pos + Len(c) + 1 + Len(y) + 1, n, PREC_TERNARY)
    ensures Fits(ts, pos, Ternary(c, y, n), prec) && Len(Ternary(c, y, n)) == Len(c) + 1 + Len(y) + 1 + Len(n)
  {
    hide TokenAt, Fixed, RuleOf, IsInfix, Precedence, RightPrecedence, Edge;
  }

  lemma {:induction false} MakeCall(ts: seq<Tok>, pos: nat, f: Syn, args: Syns, prec: nat)
    requires Fits(ts, pos, f, prec) && TokenAt(ts, pos + Len(f), Fixed(TLParen)) && prec < PREC_CALL <= Edge(f)
    requires FitsList(ts, pos + Len(f) + 1, args, PREC_COMMA, false)
    requires TokenAt(ts, pos + Len(f) + 1 + LenList(args), Fixed(TRParen))
    ensures Fits(ts, pos, Call(f, args), prec) && Len(Call(f, args)) == Len(f) + 1 + LenList(args) + 1
  {
    hide TokenAt, Fixed, RuleOf, IsInfix, Precedence, RightPrecedence, Edge;
  }

  lemma {:induction false} MakeIndex(ts: seq<Tok>, pos: nat, b: Syn, e: Syn, prec: nat)
    requires Fits(ts, pos, b, prec) && TokenAt(ts, pos + Len(b), Fixed(TLSqBracket)) && prec < PREC_CALL <= Edge(b)
    requires Fits(ts, pos + Len(b) + 1, e, PREC_LOWEST)
    requires TokenAt(ts, pos + Len(b) + 1 + Len(e), Fixed(TRSqBracket))
    ensures Fits(ts, pos, Index(b, e), prec) && Len(Index(b, e)) == Len(b) + 1 + Len(e) + 1
  {
    hide TokenAt, Fixed, RuleOf, IsInfix, Precedence, RightPrecedence, Edge;
  }

  lemma {:induction false} MakeDot(ts: seq<Tok>, pos: nat, l: Syn, member: string, prec: nat)
    requires Fits(ts, pos, l, prec) && TokenAt(ts, pos + Len(l), Fixed(TDot)) && prec < PREC_CALL <= Edge(l)
    requires TokenAt(ts, pos + Len(l) + 1, Tok(TIdent, member))
    ensures Fits(ts, pos, Dot(l, Some(member)), prec) && Len(Dot(l, Some(member))) == Len(l) + 2
  {
    hide TokenAt, Fixed, RuleOf, IsInfix, Precedence, RightPrecedence, Edge;
  }

  lemma {:induction false} MakeUnary(ts: seq<Tok>, pos: nat, op: TokenType, e: Syn, prec: nat)
    requires TokenAt(ts, pos, Fixed(op)) && (op == TMinus || op == TNot) && Fits(ts, pos + 1, e, PREC_UNARY)
    ensures Fits(ts, pos, Unary(op, e), prec) && Len(Unary(op, e)) == 1 + Len(e)
  {
    hide TokenAt, Fixed, RuleOf, IsInfix, Precedence, RightPrecedence, Edge;
  }

  lemma {:induction false} MakeGroup(ts: seq<Tok>, pos: nat, e: Syn, prec: nat)
    requires TokenAt(ts, pos, Fixed(TLParen)) && Fits(ts, pos + 1, e, PREC_LOWEST)
    requires TokenAt(ts, pos + 1 + Len(e), Fixed(TRParen))
    ensures Fits(ts, pos, Group(e), prec) && Len(Group(e)) == 1 + Len(e) + 1
  {
    hide TokenAt, Fixed, RuleOf, IsInfix, Precedence, RightPrecedence, Edge;
  }

  lemma {:induction false} MakeArray(ts: seq<Tok>, pos: nat, elems: Syns, comma: bool, prec: nat)
    requires TokenAt(ts, pos, Fixed(TLSqBracket)) && FitsList(ts, pos + 1, elems, PREC_HIGHEST, comma)
    requires comma ==> elems.Syns? && TokenAt(ts, pos + 1 + LenList(elems), Fixed(TComma))
    requires TokenAt(ts, pos + 1 + LenList(elems) + (if comma then 1 else 0), Fixed(TRSqBracket))
    ensures var s := Array(elems, comma, Missing);
            Fits(ts, pos, s, prec) && Len(s) == 1 + LenList(elems) + (if comma then 1 else 0) + 1
  {
    hide ShapedAll, BoundList, SpellsList, LenList, TokenAt, Fixed;
    assert Bound(Missing, PREC_LOWEST);
  }

  lemma {:induction false} MakeRepeat(ts: seq<Tok>, pos: nat, elems: Syns, length: Syn, prec: nat)
    requires TokenAt(ts, pos, Fixed(TLSqBracket)) && FitsList(ts, pos + 1, elems, PREC_HIGHEST, false)
    requires elems.Syns? && elems.tail.NoSyns? && TokenAt(ts, pos + 1 + LenList(elems), Fixed(TSemicolon))
    requires !length.Missing? && Fits(ts, pos + 1 + LenList(elems) + 1, length, PREC_LOWEST)
    requires TokenAt(ts, pos + 1 + LenList(elems) + 1 + Len(length), Fixed(TRSqBracket))
    ensures var s := Array(elems, false, length);
            Fits(ts, pos, s, prec) && Len(s) == 1 + LenList(elems) + 1 + Len(length) + 1
  {
    hide ShapedAll, BoundList, SpellsList, LenList, TokenAt, Fixed;
  }

  lemma {:induction false} MakeIf(ts: seq<Tok>, pos: nat, c: Syn, newlines: seq<Tok>, body: Items, els: Else, prec: nat)
    requires TokenAt(ts, pos, Fixed(TIf)) && Fits(ts, pos + 1, c, PREC_LOWEST)
    requires TokensAt(ts, pos + 1 + Len(c), newlines) && Newlines(newlines)
    requires var brace := pos + 1 + Len(c) + |newlines|;
             && Braces(ts, brace, brace + 1 + LenItems(body)) && FitsItems(ts, brace + 1, body)
             && FitsElse(ts, brace + 1 + LenItems(body) + 1, els)
    ensures var s := If(c, newlines, body, els);
            && Fits(ts, pos, s, prec) && Len(s) == 1 + Len(c) + |newlines| + 1 + LenItems(body) + 1 + LenElse(els)
            && OpenIf(s) == OpenElse(els) && Edge(s) == PREC_COUNT
  {
    hide ShapedItems, BoundItems, SpellsItems, LenItems, ShapedElse, BoundElse, SpellsElse, LenElse, TokensAt, Newlines;
    hide TokenAt, Fixed;
  }

  // ----- What the parser did, one step at a time -----

  lemma {:induction false} UndoExtendInfix(ts: seq<Tok>, q: nat, l: Syn)
    requires q < |ts| && IsInfix(ts[q].kind) && Clean(Extend(ts, q, l))
    ensures var e := Expr(ts, q + 1, RightPrecedence(ts[q].kind));
            Clean(e) && Extend(ts, q, l) == Done(Infix(l, ts[q].kind, e.value), e.pos, 0)
  {
  }

  lemma {:induction false} UndoExtendTernary(ts: seq<Tok>, q: nat, c: Syn)
    requires KindAt(ts, q, TQuestion) && Clean(Extend(ts, q, c))
    ensures var y := Expr(ts, q + 1, PREC_LOWEST);
            && Clean(y) && KindAt(ts, y.pos, TColon)
            && var n := Expr(ts, y.pos + 1, PREC_TERNARY);
               Clean(n) && Extend(ts, q, c) == Done(Ternary(c, y.value, n.value), n.pos, 0)
  {
  }

  lemma {:induction false} UndoExtendCall(ts: seq<Tok>, q: nat, f: Syn)
    requires KindAt(ts, q, TLParen) && Clean(Extend(ts, q, f))
    ensures var args := Arguments(ts, q + 1);
            Clean(args) && KindAt(ts, args.pos, TRParen) && Extend(ts, q, f) == Done(Call(f, args.value), args.pos + 1, 0)
  {
  }

  lemma {:induction false} UndoExtendIndex(ts: seq<Tok>, q: nat, b: Syn)
    requires KindAt(ts, q, TLSqBracket) && Clean(Extend(ts, q, b))
    ensures var e := Expr(ts, q + 1, PREC_LOWEST);
            Clean(e) && KindAt(ts, e.pos, TRSqBracket) && Extend(ts, q, b) == Done(Index(b, e.value), e.pos + 1, 0)
  {
  }

  lemma {:induction false} UndoExtendDot(ts: seq<Tok>, q: nat, l: Syn)
    requires KindAt(ts, q, TDot) && Clean(Extend(ts, q, l))
    ensures KindAt(ts, q + 1, TIdent) && Extend(ts, q, l) == Done(Dot(l, Some(ts[q + 1].text)), q + 2, 0)
  {
  }

  /** The tokens that take a left operand. */
  lemma Operators(k: TokenType)
    requires Precedence(k) > PREC_NONE
    ensures IsInfix(k) || k in {TQuestion, TLParen, TLSqBracket, TDot, TComma}
    ensures IsInfix(k) ==> Spelling(k).Some?
    ensures k == TQuestion ==> Precedence(k) == PREC_TERNARY
    ensures k in {TLParen, TLSqBracket, TDot} ==> Precedence(k) == PREC_CALL
  {
  }

  lemma {:induction false} NoCommaOperator(ts: seq<Tok>, q: nat, l: Syn)
    requires KindAt(ts, q, TComma)
    ensures Extend(ts, q, l) == Halt(CommaOperator)
  {
  }

  lemma {:induction false} UndoExpr(ts: seq<Tok>, pos: nat, prec: nat)
    requires Clean(Expr(ts, pos, prec))
    ensures pos < |ts| && !RuleOf(ts[pos].kind).prefix.NoPrefix?
    ensures var head := Prefix(ts, pos);
            Clean(head) && Expr(ts, pos, prec) == Loop(ts, head.pos, head.value, prec)
  {
  }

  lemma {:induction false} UndoLoop(ts: seq<Tok>, pos: nat, l: Syn, prec: nat)
    requires Clean(Loop(ts, pos, l, prec))
    ensures pos < |ts|
    ensures Precedence(ts[pos].kind) <= prec ==> Loop(ts, pos, l, prec) == Done(l, pos, 0)
    ensures prec < Precedence(ts[pos].kind) ==>
              var longer := Extend(ts, pos, l);
              Clean(longer) && Loop(ts, pos, l, prec) == Loop(ts, longer.pos, longer.value, prec)
  {
  }

  lemma Prefixes(k: TokenType)
    requires !RuleOf(k).prefix.NoPrefix?
    ensures k in {TNum, TString, TIdent, TNil, TTrue, TFalse, TLParen, TLSqBracket, TMinus, TNot, TIf, TFor}
  {
  }

  lemma {:induction false} UndoLeaf(ts: seq<Tok>, pos: nat)
    requires AllSpelled(ts) && pos < |ts| && ts[pos].kind in {TNum, TString, TIdent, TNil, TTrue, TFalse}
    requires !RuleOf(ts[pos].kind).prefix.NoPrefix? && Clean(Prefix(ts, pos))
    ensures Prefix(ts, pos) == Done(Leaf(ts[pos]), pos + 1, 0) && ShapedLeaf(ts[pos])
  {
    assert Spelled(ts[pos]);
  }

  lemma {:induction false} UndoUnary(ts: seq<Tok>, pos: nat)
    requires pos < |ts| && (ts[pos].kind == TMinus || ts[pos].kind == TNot) && Clean(Prefix(ts, pos))
    ensures var e := Expr(ts, pos + 1, PREC_UNARY);
            Clean(e) && Prefix(ts, pos) == Done(Unary(ts[pos].kind, e.value), e.pos, 0)
  {
    hide Expr, IfExpr, ArrayLiteral;
  }

  lemma {:induction false} UndoGroup(ts: seq<Tok>, pos: nat)
    requires KindAt(ts, pos, TLParen) && Clean(Prefix(ts, pos))
    ensures var e := Expr(ts, pos + 1, PREC_LOWEST);
            Clean(e) && KindAt(ts, e.pos, TRParen) && Prefix(ts, pos) == Done(Group(e.value), e.pos + 1, 0)
  {
    hide Expr, IfExpr, ArrayLiteral;
  }

  lemma {:induction false} UndoArray(ts: seq<Tok>, pos: nat)
    requires KindAt(ts, pos, TLSqBracket) && Clean(Prefix(ts, pos))
    ensures var list := Elements(ts, pos + 1);
            && Clean(list) && (KindAt(ts, list.pos, TSemicolon) || KindAt(ts, list.pos, TRSqBracket))
            && var elems, comma := list.value.items, list.value.comma && list.value.items.Syns?;
            && (KindAt(ts, list.pos, TRSqBracket) ==>
                  Prefix(ts, pos) == Done(Array(elems, comma, Missing), list.pos + 1, 0))
            && (KindAt(ts, list.pos, TSemicolon) ==>
                  var length := Expr(ts, list.pos + 1, PREC_LOWEST);
                  && Clean(length) && KindAt(ts, length.pos, TRSqBracket) && elems.Syns? && elems.tail.NoSyns?
                  && Prefix(ts, pos) == Done(Array(elems, comma, length.value), length.pos + 1, 0))
  {
    hide Elements, Expr;
    assert Prefix(ts, pos) == ArrayLiteral(ts, pos + 1);
  }

  lemma UndoIf(ts: seq<Tok>, pos: nat)
    returns (c: Syn, afterTest: nat, brace: nat, body: Items, close: nat, els: Else, end: nat)
    requires Clean(IfExpr(ts, pos))
    ensures Expr(ts, pos, PREC_LOWEST) == Done(c, afterTest, 0)
    ensures SkipNewlines(ts, afterTest) == brace && afterTest <= brace && KindAt(ts, brace, TLBrace)
    ensures Statements(ts, brace + 1, TRBrace) == Done(body, close, 0)
    ensures ElseArm(ts, close + 1) == Done(els, end, 0)
    ensures IfExpr(ts, pos) == Done(If(c, ts[afterTest..brace], body, els), end, 0)
  {
    hide Expr, Statements, ElseArm;
    var test := Expr(ts, pos, PREC_LOWEST);
    c, afterTest := test.value, test.pos;
    brace := SkipNewlines(ts, afterTest);
    UndoBlock(ts, brace + 1);
    var items := Statements(ts, brace + 1, TRBrace);
    body, close := items.value, items.pos;
    var arm := ElseArm(ts, close + 1);
    els, end := arm.value, arm.pos;
  }

  lemma {:induction false} UndoBlock(ts: seq<Tok>, pos: nat)
    requires Clean(Block(ts, pos))
    ensures var items := Statements(ts, pos, TRBrace);
            Clean(items) && Block(ts, pos) == Done(items.value, items.pos + 1, 0)
  {
    hide Statements;
  }

  lemma {:induction false} UndoElse(ts: seq<Tok>, pos: nat)
    requires Clean(ElseArm(ts, pos))
    ensures var next := SkipNewlines(ts, pos);
            && next < |ts|
            && (ts[next].kind != TElse ==> ElseArm(ts, pos) == Done(NoElse, pos, 0) && ElseFree(ts, pos))
            && (ts[next].kind == TElse ==> SkipNewlines(ts, next + 1) < |ts|)
  {
    hide SkipNewlines, IfExpr, Statements, Block;
  }

  lemma {:induction false} UndoElseIf(ts: seq<Tok>, pos: nat, next: nat, arm: nat)
    requires pos <= next < arm < |ts| && next == SkipNewlines(ts, pos) && arm == SkipNewlines(ts, next + 1)
    requires Clean(ElseArm(ts, pos)) && ts[next].kind == TElse && ts[arm].kind == TIf
    ensures var nested := IfExpr(ts, arm + 1);
            && Clean(nested)
            && ElseArm(ts, pos) == Done(ElseIf(ts[pos..next], ts[next + 1..arm], nested.value), nested.pos, 0)
  {
    hide SkipNewlines, IfExpr, Statements, Block, Expect;
  }

  lemma {:induction false} UndoElseBlock(ts: seq<Tok>, pos: nat, next: nat, arm: nat)
    requires pos <= next < arm < |ts| && next == SkipNewlines(ts, pos) && arm == SkipNewlines(ts, next + 1)
    requires Clean(ElseArm(ts, pos)) && ts[next].kind == TElse && ts[arm].kind != TIf
    ensures var items := Statements(ts, arm + 1, TRBrace);
            && ts[arm].kind == TLBrace && Clean(items)
            && ElseArm(ts, pos) == Done(ElseBlock(ts[pos..next], ts[next + 1..arm], items.value), items.pos + 1, 0)
  {
    hide SkipNewlines, IfExpr, Statements, Block;
    UndoBlock(ts, arm + 1);
  }

  lemma UndoStatements(ts: seq<Tok>, pos: nat, end: TokenType)
    requires Clean(Statements(ts, pos, end)) && !IsSeparator(end)
    ensures pos < |ts|
    ensures ts[pos].kind == end ==> Statements(ts, pos, end) == Done(NoItems, pos, 0)
    ensures IsSeparator(ts[pos].kind) ==>
              var more := Statements(ts, pos + 1, end);
              Clean(more) && Statements(ts, pos, end) == Done(Sep(ts[pos], more.value), more.pos, 0)
    ensures ts[pos].kind != end && !IsSeparator(ts[pos].kind) ==>
              var stmt := Statement(ts, pos);
              && Clean(stmt) && stmt.pos < |ts| && (IsSeparator(ts[stmt.pos].kind) || ts[stmt.pos].kind == end)
              && var more := Statements(ts, stmt.pos, end);
                 Clean(more) && Statements(ts, pos, end) == Done(Item(stmt.value, more.value), more.pos, 0)
  {
    hide Statement;
  }

  lemma UndoStatement(ts: seq<Tok>, pos: nat)
    requires pos < |ts| && Clean(Statement(ts, pos))
    ensures var k, s := ts[pos].kind, Statement(ts, pos);
            && (k == TReturn ==>
                  var e := Expr(ts, pos + 1, PREC_LOWEST);
                  Clean(e) && s == Done(Return(e.value), e.pos, 0))
            && (k == TFunc || k == TMain ==> s == FuncDecl(ts, pos))
            && (k == TVar || k == TConst ==> s == ConstVarDecl(ts, pos))
            && (!(k in {TReturn, TFunc, TMain, TVar, TConst}) ==>
                  var e := Expr(ts, pos, PREC_LOWEST);
                  Clean(e) && s == Done(Expression(e.value), e.pos, 0))
  {
  }

  lemma UndoFunc(ts: seq<Tok>, pos: nat)
    returns (named: Option<string>, params: Params, brace: nat, block: Items, close: nat)
    requires pos < |ts| && Clean(FuncDecl(ts, pos))
    ensures pos + 1 < |ts| && named == if ts[pos + 1].kind == TIdent then Some(ts[pos + 1].text) else None
    ensures Parameters(ts, pos + 1 + (if named.Some? then 1 else 0)) == Done(params, brace, 0)
    ensures KindAt(ts, brace, TLBrace) && Statements(ts, brace + 1, TRBrace) == Done(block, close, 0)
    ensures FuncDecl(ts, pos) == Done(Func(ts[pos], named, params, block), close + 1, 0)
  {
    hide Parameters, Statements;
    named := if ts[pos + 1].kind == TIdent then Some(ts[pos + 1].text) else None;
    var list := Parameters(ts, pos + 1 + (if named.Some? then 1 else 0));
    params, brace := list.value, list.pos;
    UndoBlock(ts, brace + 1);
    var items := Statements(ts, brace + 1, TRBrace);
    block, close := items.value, items.pos;
  }

  lemma UndoArguments(ts: seq<Tok>, pos: nat)
    requires Clean(ArgumentList(ts, pos))
    ensures var e := Expr(ts, pos, PREC_COMMA);
            && Clean(e) && e.pos < |ts|
            && (ts[e.pos].kind == TComma ==>
                  var more := ArgumentList(ts, e.pos + 1);
                  Clean(more) && ArgumentList(ts, pos) == Done(Syns(e.value, more.value), more.pos, 0))
            && (ts[e.pos].kind != TComma ==> ArgumentList(ts, pos) == Done(Syns(e.value, NoSyns), e.pos, 0))
  {
  }

  lemma UndoElements(ts: seq<Tok>, pos: nat)
    requires Clean(Elements(ts, pos))
    ensures pos < |ts|
    ensures ts[pos].kind == TRSqBracket ==> Elements(ts, pos) == Done(ElemList(NoSyns, true), pos, 0)
    ensures ts[pos].kind != TRSqBracket ==>
              var e := Expr(ts, pos, PREC_HIGHEST);
              && Clean(e) && e.pos < |ts|
              && (ts[e.pos].kind == TComma ==>
                    var more := Elements(ts, e.pos + 1);
                    && Clean(more)
                    && Elements(ts, pos) == Done(ElemList(Syns(e.value, more.value.items), more.value.comma), more.pos, 0))
              && (ts[e.pos].kind != TComma ==> Elements(ts, pos) == Done(ElemList(Syns(e.value, NoSyns), false), e.pos, 0))
  {
    hide Expr;
  }

  // ----- What follows a derivation, from what follows its last part -----

  lemma UnextendedUp(ts: seq<Tok>, end: nat, e: Syn, prec: nat)
    requires Unextended(ts, end, e) && (end < |ts| ==> Precedence(ts[end].kind) <= prec)
    ensures prec == PREC_UNARY ==> forall op :: Unextended(ts, end, Unary(op, e))
    ensures forall l, op | RightPrecedence(op) == prec :: Unextended(ts, end, Infix(l, op, e))
    ensures prec == PREC_TERNARY ==> forall c, y :: Unextended(ts, end, Ternary(c, y, e))
  {
    hide ElseFree, RuleOf, RightPrecedence;
  }

  lemma UnextendedClosed(ts: seq<Tok>, end: nat, s: Syn)
    requires s.Leaf? || s.Group? || s.Array? || s.Call? || s.Index? || s.Dot? || (s.If? && (OpenElse(s.els) ==> ElseFree(ts, end)))
    ensures Unextended(ts, end, s)
  {
    hide ElseFree, OpenElse;
  }

  // ----- The converse, by following the run -----

  lemma {:induction false} ExprBuilds(ts: seq<Tok>, pos: nat, prec: nat)
    requires AllSpelled(ts) && Clean(Expr(ts, pos, prec))
    ensures var r := Expr(ts, pos, prec);
            Built(ts, pos, r, prec) && r.pos < |ts| && Precedence(ts[r.pos].kind) <= prec
    decreases |ts| - pos, 20
  {
    hide Fits, FitsList, FitsItems, FitsElse, FitsStmt, Len, LenList, LenItems, LenElse, LenStmt, Edge, OpenIf, OpenElse;
    hide ElseFree, Unextended, SkipNewlines, Expr, Loop, Prefix, Extend, Arguments, ArgumentList, Elements, Statements;
    hide Statement, IfExpr, ElseArm, Block, TokensAt, ElseAt, Newlines, ShapedLeaf, SpellsSignature, RuleOf, Fixed, Spelling;
    UndoExpr(ts, pos, prec);
    var head := Prefix(ts, pos);
    PrefixBuilds(ts, pos, prec);
    LoopBuilds(ts, pos, head.pos, head.value, prec);
  }

  lemma {:induction false} LoopBuilds(ts: seq<Tok>, start: nat, pos: nat, l: Syn, prec: nat)
    requires AllSpelled(ts) && Clean(Loop(ts, pos, l, prec))
    requires Fits(ts, start, l, prec) && pos == start + Len(l) && Unextended(ts, pos, l)
    ensures var r := Loop(ts, pos, l, prec);
            Built(ts, start, r, prec) && r.pos < |ts| && Precedence(ts[r.pos].kind) <= prec
    decreases |ts| - pos, 20
  {
    hide Fits, FitsList, FitsItems, FitsElse, FitsStmt, Len, LenList, LenItems, LenElse, LenStmt, Edge, OpenIf, OpenElse;
    hide ElseFree, Unextended, SkipNewlines, Expr, Loop, Prefix, Extend, Arguments, ArgumentList, Elements, Statements;
    hide Statement, IfExpr, ElseArm, Block, TokensAt, ElseAt, Newlines, ShapedLeaf, SpellsSignature, RuleOf, Fixed, Spelling;
    UndoLoop(ts, pos, l, prec);
    if prec < Precedence(ts[pos].kind) {
      var longer := Extend(ts, pos, l);
      EdgeAllows(ts, pos, l);
      ExtendBuilds(ts, start, pos, l, prec);
      LoopBuilds(ts, start, longer.pos, longer.value, prec);
    }
  }

  lemma {:induction false} EdgeAllows(ts: seq<Tok>, pos: nat, l: Syn)
    requires pos < |ts| && Unextended(ts, pos, l)
    ensures Precedence(ts[pos].kind) <= Edge(l)
  {
    hide Edge, OpenIf, RuleOf;
  }

  lemma {:induction false} ExtendBuilds(ts: seq<Tok>, start: nat, pos: nat, l: Syn, prec: nat)
    requires AllSpelled(ts) && pos < |ts| && prec < Precedence(ts[pos].kind) <= Edge(l)
    requires Clean(Extend(ts, pos, l)) && Fits(ts, start, l, prec) && pos == start + Len(l)
    ensures Built(ts, start, Extend(ts, pos, l), prec)
    decreases |ts| - pos, 10
  {
    hide AllSpelled, Fits, Built, Clean, Extend, Edge, RuleOf, Precedence, IsInfix, Len;
    var k := ts[pos].kind;
    Operators(k);
    if IsInfix(k) {
      ExtendInfixBuilds(ts, start, pos, l, prec);
    } else if k == TQuestion {
      ExtendTernaryBuilds(ts, start, pos, l, prec);
    } else if k == TLParen {
      ExtendCallBuilds(ts, start, pos, l, prec);
    } else if k == TLSqBracket {
      ExtendIndexBuilds(ts, start, pos, l, prec);
    } else if k == TDot {
      ExtendDotBuilds(ts, start, pos, l, prec);
    } else {
      CommaIsNotClean(ts, pos, l);
    }
  }

  lemma {:induction false} CommaIsNotClean(ts: seq<Tok>, pos: nat, l: Syn)
    requires pos < |ts| && Precedence(ts[pos].kind) > PREC_NONE
    ensures ts[pos].kind == TComma ==> !Clean(Extend(ts, pos, l))
  {
    hide Extend;
    if ts[pos].kind == TComma { NoCommaOperator(ts, pos, l); }
  }

  lemma {:induction false} ExtendCallBuilds(ts: seq<Tok>, start: nat, pos: nat, l: Syn, prec: nat)
    requires AllSpelled(ts) && KindAt(ts, pos, TLParen) && prec < Precedence(ts[pos].kind) <= Edge(l)
    requires Clean(Extend(ts, pos, l)) && Fits(ts, start, l, prec) && pos == start + Len(l)
    ensures Built(ts, start, Extend(ts, pos, l), prec)
    decreases |ts| - pos, 9
  {
    hide AllSpelled, Fits, FitsList, Len, LenList, Edge, Unextended, Expr, Extend, Arguments, RuleOf, Fixed, Spelling, Precedence;
    SpelledFixed();
    FixedAt(ts, pos, ts[pos].kind);
    Operators(TLParen);
    UndoExtendCall(ts, pos, l);
    var args := Arguments(ts, pos + 1);
    ArgumentsBuild(ts, pos + 1);
    FixedAt(ts, args.pos, TRParen);
    MakeCall(ts, start, l, args.value, prec);
    UnextendedClosed(ts, args.pos + 1, Call(l, args.value));
  }

  lemma {:induction false} ExtendIndexBuilds(ts: seq<Tok>, start: nat, pos: nat, l: Syn, prec: nat)
    requires AllSpelled(ts) && KindAt(ts, pos, TLSqBracket) && prec < Precedence(ts[pos].kind) <= Edge(l)
    requires Clean(Extend(ts, pos, l)) && Fits(ts, start, l, prec) && pos == start + Len(l)
    ensures Built(ts, start, Extend(ts, pos, l), prec)
    decreases |ts| - pos, 9
  {
    hide AllSpelled, Fits, FitsList, Len, LenList, Edge, Unextended, Expr, Extend, Arguments, RuleOf, Fixed, Spelling, Precedence;
    SpelledFixed();
    FixedAt(ts, pos, ts[pos].kind);
    Operators(TLSqBracket);
    UndoExtendIndex(ts, pos, l);
    var e := Expr(ts, pos + 1, PREC_LOWEST);
    ExprBuilds(ts, pos + 1, PREC_LOWEST);
    FixedAt(ts, e.pos, TRSqBracket);
    MakeIndex(ts, start, l, e.value, prec);
    UnextendedClosed(ts, e.pos + 1, Index(l, e.value));
  }

  lemma {:induction false} ExtendDotBuilds(ts: seq<Tok>, start: nat, pos: nat, l: Syn, prec: nat)
    requires AllSpelled(ts) && KindAt(ts, pos, TDot) && prec < Precedence(ts[pos].kind) <= Edge(l)
    requires Clean(Extend(ts, pos, l)) && Fits(ts, start, l, prec) && pos == start + Len(l)
    ensures Built(ts, start, Extend(ts, pos, l), prec)
    decreases |ts| - pos, 9
  {
    hide AllSpelled, Fits, FitsList, Len, LenList, Edge, Unextended, Expr, Extend, Arguments, RuleOf, Fixed, Spelling, Precedence;
    SpelledFixed();
    FixedAt(ts, pos, ts[pos].kind);
    Operators(TDot);
    UndoExtendDot(ts, pos, l);
    MakeDot(ts, start, l, ts[pos + 1].text, prec);
    UnextendedClosed(ts, pos + 2, Dot(l, Some(ts[pos + 1].text)));
  }

  lemma SpelledFixed()
    ensures forall k | k in {TQuestion, TLParen, TLSqBracket, TDot, TRParen, TRSqBracket, TColon, TSemicolon, TComma} ::
              Spelling(k).Some?
    ensures forall k | k in {TMinus, TNot, TIf, TElse, TLBrace, TRBrace, TReturn, TVar, TConst, TEquals} ::
              Spelling(k).Some?
  {
  }

  lemma {:induction false} ExtendInfixBuilds(ts: seq<Tok>, start: nat, pos: nat, l: Syn, prec: nat)
    requires AllSpelled(ts) && pos < |ts| && prec < Precedence(ts[pos].kind) <= Edge(l)
    requires Clean(Extend(ts, pos, l)) && Fits(ts, start, l, prec) && pos == start + Len(l)
    requires IsInfix(ts[pos].kind)
    ensures Built(ts, start, Extend(ts, pos, l), prec)
    decreases |ts| - pos, 9
  {
    hide Fits, FitsList, FitsItems, FitsElse, FitsStmt, Len, LenList, LenItems, LenElse, LenStmt, Edge, OpenIf, OpenElse;
    hide ElseFree, Unextended, SkipNewlines, Expr, Loop, Prefix, Extend, Arguments, ArgumentList, Elements, Statements;
    hide Statement, IfExpr, ElseArm, Block, TokensAt, ElseAt, Newlines, ShapedLeaf, SpellsSignature, RuleOf, Fixed, Spelling;
    var k := ts[pos].kind;
    Operators(k);
    FixedAt(ts, pos, k);
    UndoExtendInfix(ts, pos, l);
    var e := Expr(ts, pos + 1, RightPrecedence(k));
    ExprBuilds(ts, pos + 1, RightPrecedence(k));
    MakeInfix(ts, start, l, k, e.value, prec);
    UnextendedUp(ts, e.pos, e.value, RightPrecedence(k));
  }

  lemma {:induction false} ExtendTernaryBuilds(ts: seq<Tok>, start: nat, pos: nat, l: Syn, prec: nat)
    requires AllSpelled(ts) && pos < |ts| && prec < Precedence(ts[pos].kind) <= Edge(l)
    requires Clean(Extend(ts, pos, l)) && Fits(ts, start, l, prec) && pos == start + Len(l)
    requires ts[pos].kind == TQuestion
    ensures Built(ts, start, Extend(ts, pos, l), prec)
    decreases |ts| - pos, 9
  {
    hide Fits, FitsList, FitsItems, FitsElse, FitsStmt, Len, LenList, LenItems, LenElse, LenStmt, Edge, OpenIf, OpenElse;
    hide ElseFree, Unextended, SkipNewlines, Expr, Loop, Prefix, Extend, Arguments, ArgumentList, Elements, Statements;
    hide Statement, IfExpr, ElseArm, Block, TokensAt, ElseAt, Newlines, ShapedLeaf, SpellsSignature, RuleOf, Fixed, Spelling;
    Operators(TQuestion);
    SpelledFixed();
    FixedAt(ts, pos, TQuestion);
    UndoExtendTernary(ts, pos, l);
    var y := Expr(ts, pos + 1, PREC_LOWEST);
    var n := Expr(ts, y.pos + 1, PREC_TERNARY);
    ExprBuilds(ts, pos + 1, PREC_LOWEST);
    FixedAt(ts, y.pos, TColon);
    ExprBuilds(ts, y.pos + 1, PREC_TERNARY);
    MakeTernary(ts, start, l, y.value, n.value, prec);
    UnextendedUp(ts, n.pos, n.value, PREC_TERNARY);
  }

  lemma {:induction false} PrefixBuilds(ts: seq<Tok>, pos: nat, prec: nat)
    requires AllSpelled(ts) && pos < |ts| && !RuleOf(ts[pos].kind).prefix.NoPrefix? && Clean(Prefix(ts, pos))
    ensures Built(ts, pos, Prefix(ts, pos), prec)
    decreases |ts| - pos, 10
  {
    hide Fits, FitsList, FitsItems, FitsElse, FitsStmt, Len, LenList, LenItems, LenElse, LenStmt, Edge, OpenIf, OpenElse;
    hide ElseFree, Unextended, SkipNewlines, Expr, Loop, Prefix, Extend, Arguments, ArgumentList, Elements, Statements;
    hide Statement, IfExpr, ElseArm, Block, TokensAt, ElseAt, Newlines, ShapedLeaf, SpellsSignature, RuleOf, Fixed, Spelling;
    var k := ts[pos].kind;
    Prefixes(k);
    SpelledFixed();
    if k in {TNum, TString, TIdent, TNil, TTrue, TFalse} {
      UndoLeaf(ts, pos);
      MakeLeaf(ts, pos, prec);
      UnextendedClosed(ts, pos + 1, Leaf(ts[pos]));
    } else if k == TMinus || k == TNot {
      UndoUnary(ts, pos);
      var e := Expr(ts, pos + 1, PREC_UNARY);
      ExprBuilds(ts, pos + 1, PREC_UNARY);
      FixedAt(ts, pos, k);
      MakeUnary(ts, pos, k, e.value, prec);
      UnextendedUp(ts, e.pos, e.value, PREC_UNARY);
    } else if k == TLParen {
      UndoGroup(ts, pos);
      var e := Expr(ts, pos + 1, PREC_LOWEST);
      ExprBuilds(ts, pos + 1, PREC_LOWEST);
      FixedAt(ts, pos, k);
      FixedAt(ts, e.pos, TRParen);
      MakeGroup(ts, pos, e.value, prec);
      UnextendedClosed(ts, e.pos + 1, Group(e.value));
    } else if k == TLSqBracket {
      ArrayBuilds(ts, pos, prec);
    } else if k == TIf {
      PrefixOfIf(ts, pos);
      IfBuilds(ts, pos, prec);
    } else {
      NoLoops(ts, pos);
    }
  }

  lemma MakeLeaf(ts: seq<Tok>, pos: nat, prec: nat)
    requires pos < |ts| && ShapedLeaf(ts[pos])
    ensures Fits(ts, pos, Leaf(ts[pos]), prec) && Len(Leaf(ts[pos])) == 1
  {
  }

  lemma {:induction false} NoLoops(ts: seq<Tok>, pos: nat)
    requires KindAt(ts, pos, TFor)
    ensures Prefix(ts, pos) == Halt(ForExpression)
  {
    hide IfExpr, ArrayLiteral, Expr;
  }

  /** A clean list: it fits, ends where the run stopped, and what follows is as `last` asks. */
  ghost predicate BuiltList(ts: seq<Tok>, pos: nat, ss: Syns, end: nat, prec: nat, comma: bool) {
    FitsList(ts, pos, ss, prec, comma) && end == pos + LenList(ss)
  }

  lemma {:induction false} ArgumentsBuild(ts: seq<Tok>, pos: nat)
    requires AllSpelled(ts) && Clean(Arguments(ts, pos))
    ensures var r := Arguments(ts, pos);
            BuiltList(ts, pos, r.value, r.pos, PREC_COMMA, false)
    decreases |ts| - pos, 24
  {
    hide Fits, FitsList, FitsItems, FitsElse, FitsStmt, Len, LenList, LenItems, LenElse, LenStmt, Edge, OpenIf, OpenElse;
    hide ElseFree, Unextended, SkipNewlines, Expr, Loop, Prefix, Extend, Arguments, ArgumentList, Elements, Statements;
    hide Statement, IfExpr, ElseArm, Block, TokensAt, ElseAt, Newlines, ShapedLeaf, SpellsSignature, RuleOf, Fixed, Spelling;
    UndoNoArguments(ts, pos);
    if ts[pos].kind == TRParen {
      MakeEmptyList(ts, pos, PREC_COMMA, false);
    } else {
      ArgumentListBuilds(ts, pos);
    }
  }

  lemma {:induction false} UndoNoArguments(ts: seq<Tok>, pos: nat)
    requires Clean(Arguments(ts, pos))
    ensures pos < |ts|
    ensures Arguments(ts, pos) == if ts[pos].kind == TRParen then Done(NoSyns, pos, 0) else ArgumentList(ts, pos)
  {
  }

  lemma MakeEmptyList(ts: seq<Tok>, pos: nat, prec: nat, comma: bool)
    ensures FitsList(ts, pos, NoSyns, prec, comma) && LenList(NoSyns) == 0
  {
  }

  lemma {:induction false} MakeList(ts: seq<Tok>, pos: nat, head: Syn, tail: Syns, prec: nat, comma: bool)
    requires Fits(ts, pos, head, prec) && FitsList(ts, pos + Len(head) + 1, tail, prec, comma)
    requires tail.Syns? ==> TokenAt(ts, pos + Len(head), Fixed(TComma))
    requires tail.Syns? || comma ==> PREC_COMMA <= Edge(head)
    ensures FitsList(ts, pos, Syns(head, tail), prec, comma)
    ensures LenList(Syns(head, tail)) == Len(head) + (if tail.NoSyns? then 0 else 1 + LenList(tail))
  {
    hide TokenAt, Fixed, Edge, Shaped, Bound, Spells, Len;
  }

  lemma {:induction false} ArgumentListBuilds(ts: seq<Tok>, pos: nat)
    requires AllSpelled(ts) && Clean(ArgumentList(ts, pos))
    ensures var r := ArgumentList(ts, pos);
            BuiltList(ts, pos, r.value, r.pos, PREC_COMMA, false) && r.value.Syns?
    decreases |ts| - pos, 22
  {
    hide Fits, FitsList, FitsItems, FitsElse, FitsStmt, Len, LenList, LenItems, LenElse, LenStmt, Edge, OpenIf, OpenElse;
    hide ElseFree, Unextended, SkipNewlines, Expr, Loop, Prefix, Extend, Arguments, ArgumentList, Elements, Statements;
    hide Statement, IfExpr, ElseArm, Block, TokensAt, ElseAt, Newlines, ShapedLeaf, SpellsSignature, RuleOf, Fixed, Spelling;
    UndoArguments(ts, pos);
    var e := Expr(ts, pos, PREC_COMMA);
    ExprBuilds(ts, pos, PREC_COMMA);
    if ts[e.pos].kind == TComma {
      var more := ArgumentList(ts, e.pos + 1);
      ArgumentListBuilds(ts, e.pos + 1);
      SpelledFixed();
      FixedAt(ts, e.pos, TComma);
      EdgeAllows(ts, e.pos, e.value);
      DelimiterPrecedence();
      MakeList(ts, pos, e.value, more.value, PREC_COMMA, false);
    } else {
      MakeEmptyList(ts, e.pos + 1, PREC_COMMA, false);
      MakeList(ts, pos, e.value, NoSyns, PREC_COMMA, false);
    }
  }

  /** A clean element list: the flag says whether a comma ended it, and then it is the last token read. */
  lemma {:induction false} ElementsBuild(ts: seq<Tok>, pos: nat)
    requires AllSpelled(ts) && Clean(Elements(ts, pos))
    ensures var r := Elements(ts, pos);
            var elems, comma := r.value.items, r.value.comma;
            && FitsList(ts, pos, elems, PREC_HIGHEST, comma)
            && r.pos == pos + LenList(elems) + (if comma && elems.Syns? then 1 else 0)
            && (comma ==> KindAt(ts, r.pos, TRSqBracket))
            && (comma && elems.Syns? ==> TokenAt(ts, r.pos - 1, Fixed(TComma)))
            && (elems.NoSyns? ==> comma)
    decreases |ts| - pos, 22
  {
    hide Fits, FitsList, FitsItems, FitsElse, FitsStmt, Len, LenList, LenItems, LenElse, LenStmt, Edge, OpenIf, OpenElse;
    hide ElseFree, Unextended, SkipNewlines, Expr, Loop, Prefix, Extend, Arguments, ArgumentList, Elements, Statements;
    hide Statement, IfExpr, ElseArm, Block, TokensAt, ElseAt, Newlines, ShapedLeaf, SpellsSignature, RuleOf, Fixed, Spelling;
    UndoElements(ts, pos);
    if ts[pos].kind == TRSqBracket {
      MakeEmptyList(ts, pos, PREC_HIGHEST, true);
    } else {
      var e := Expr(ts, pos, PREC_HIGHEST);
      ExprBuilds(ts, pos, PREC_HIGHEST);
      if ts[e.pos].kind == TComma {
        var more := Elements(ts, e.pos + 1);
        ElementsBuild(ts, e.pos + 1);
        SpelledFixed();
        FixedAt(ts, e.pos, TComma);
        EdgeAllows(ts, e.pos, e.value);
        DelimiterPrecedence();
        MakeList(ts, pos, e.value, more.value.items, PREC_HIGHEST, more.value.comma);
        EmptyList(more.value.items);
      } else {
        MakeEmptyList(ts, e.pos + 1, PREC_HIGHEST, false);
        MakeList(ts, pos, e.value, NoSyns, PREC_HIGHEST, false);
      }
    }
  }

  lemma {:induction false} ArrayBuilds(ts: seq<Tok>, pos: nat, prec: nat)
    requires AllSpelled(ts) && KindAt(ts, pos, TLSqBracket) && !RuleOf(ts[pos].kind).prefix.NoPrefix?
    requires Clean(Prefix(ts, pos))
    ensures Built(ts, pos, Prefix(ts, pos), prec)
    decreases |ts| - pos, 9
  {
    hide Fits, FitsList, FitsItems, FitsElse, FitsStmt, Len, LenList, LenItems, LenElse, LenStmt, Edge, OpenIf, OpenElse;
    hide ElseFree, Unextended, SkipNewlines, Expr, Loop, Prefix, Extend, Arguments, ArgumentList, Elements, Statements;
    hide Statement, IfExpr, ElseArm, Block, TokensAt, ElseAt, Newlines, ShapedLeaf, SpellsSignature, RuleOf, Fixed, Spelling;
    UndoArray(ts, pos);
    SpelledFixed();
    FixedAt(ts, pos, TLSqBracket);
    var list := Elements(ts, pos + 1);
    var elems, comma := list.value.items, list.value.comma && list.value.items.Syns?;
    ElementsBuild(ts, pos + 1);
    if ts[list.pos].kind == TRSqBracket {
      FixedAt(ts, list.pos, TRSqBracket);
      EmptyList(elems);
      ForgetComma(ts, pos + 1, elems, list.value.comma);
      MakeArray(ts, pos, elems, comma, prec);
      UnextendedClosed(ts, list.pos + 1, Array(elems, comma, Missing));
    } else {
      var length := Expr(ts, list.pos + 1, PREC_LOWEST);
      ExprBuilds(ts, list.pos + 1, PREC_LOWEST);
      NotMissing(ts, list.pos + 1, length.value, PREC_LOWEST);
      FixedAt(ts, list.pos, TSemicolon);
      FixedAt(ts, length.pos, TRSqBracket);
      MakeRepeat(ts, pos, elems, length.value, prec);
      UnextendedClosed(ts, length.pos + 1, Array(elems, comma, length.value));
    }
  }

  lemma ForgetComma(ts: seq<Tok>, pos: nat, ss: Syns, comma: bool)
    requires FitsList(ts, pos, ss, PREC_HIGHEST, comma)
    ensures ss.NoSyns? ==> FitsList(ts, pos, ss, PREC_HIGHEST, false)
  {
  }

  lemma {:induction false} IfBuilds(ts: seq<Tok>, pos: nat, prec: nat)
    requires AllSpelled(ts) && KindAt(ts, pos, TIf) && Clean(IfExpr(ts, pos + 1))
    ensures Built(ts, pos, IfExpr(ts, pos + 1), prec)
    decreases |ts| - pos, 9
  {
    hide Fits, FitsItems, FitsElse, Len, LenItems, LenElse, OpenIf, OpenElse, ElseFree, Unextended, SkipNewlines, Expr;
    hide Statements, IfExpr, ElseArm, AllSpelled, RuleOf, Precedence, Fixed, Spelling, Edge;
    var c, afterTest, brace, body, close, els, end := UndoIf(ts, pos + 1);
    ExprBuilds(ts, pos + 1, PREC_LOWEST);
    StatementsBuild(ts, brace + 1, TRBrace);
    ElseBuilds(ts, close + 1);
    IfJoins(ts, pos, c, afterTest, brace, body, els, end, prec);
  }

  /** The parts of an `if`, one after the other, are an `if`. */
  lemma {:induction false} IfJoins(ts: seq<Tok>, pos: nat, c: Syn, afterTest: nat, brace: nat, body: Items, els: Else, end: nat,
                                   prec: nat)
    requires AllSpelled(ts) && KindAt(ts, pos, TIf) && Fits(ts, pos + 1, c, PREC_LOWEST) && afterTest == pos + 1 + Len(c)
    requires afterTest <= brace && SkipNewlines(ts, afterTest) == brace && KindAt(ts, brace, TLBrace)
    requires FitsItems(ts, brace + 1, body)
    requires var close := brace + 1 + LenItems(body);
             && KindAt(ts, close, TRBrace) && FitsElse(ts, close + 1, els) && end == close + 1 + LenElse(els)
             && (OpenElse(els) ==> ElseFree(ts, end))
    ensures var s := If(c, ts[afterTest..brace], body, els);
            Fits(ts, pos, s, prec) && end == pos + Len(s) && Unextended(ts, end, s)
  {
    hide Fits, FitsItems, FitsElse, Len, LenItems, LenElse, Edge, OpenIf, OpenElse, ElseFree, Unextended, SkipNewlines;
    hide TokensAt, Newlines, TokenAt, Fixed, Spelling, AllSpelled;
    SpelledFixed();
    FixedAt(ts, pos, TIf);
    SkippedNewlines(ts, afterTest, brace);
    FixedAt(ts, brace, TLBrace);
    FixedAt(ts, brace + 1 + LenItems(body), TRBrace);
    MakeIf(ts, pos, c, ts[afterTest..brace], body, els, prec);
    UnextendedClosed(ts, end, If(c, ts[afterTest..brace], body, els));
  }

  lemma {:induction false} SkippedNewlines(ts: seq<Tok>, from: nat, to: nat)
    requires from <= to < |ts| && SkipNewlines(ts, from) == to
    ensures TokensAt(ts, from, ts[from..to]) && Newlines(ts[from..to])
  {
  }

  lemma {:induction false} ElseBuilds(ts: seq<Tok>, pos: nat)
    requires AllSpelled(ts) && Clean(ElseArm(ts, pos))
    ensures var r := ElseArm(ts, pos);
            FitsElse(ts, pos, r.value) && r.pos == pos + LenElse(r.value) && (OpenElse(r.value) ==> ElseFree(ts, r.pos))
    decreases |ts| - pos, 32
  {
    hide AllSpelled, FitsElse, LenElse, OpenElse, ElseFree, SkipNewlines, ElseArm, IfExpr, Statements, RuleOf;
    UndoElse(ts, pos);
    var next := SkipNewlines(ts, pos);
    var arm := SkipNewlines(ts, next + 1);
    SkipBounds(ts, pos);
    SkipBounds(ts, next + 1);
    if ts[next].kind != TElse {
      MakeNoElse(ts, pos);
    } else if ts[arm].kind == TIf {
      ElseIfBuilds(ts, pos, next, arm);
    } else {
      ElseBlockBuilds(ts, pos, next, arm);
    }
  }

  /** The newlines and the keyword before an arm. */
  lemma {:induction false} ElseHeaderBuilds(ts: seq<Tok>, pos: nat, next: nat, arm: nat)
    requires pos <= next < arm < |ts| && next == SkipNewlines(ts, pos) && arm == SkipNewlines(ts, next + 1)
    requires AllSpelled(ts) && ts[next].kind == TElse
    ensures ElseAt(ts, pos, ts[pos..next], ts[next + 1..arm])
    ensures Newlines(ts[pos..next]) && Newlines(ts[next + 1..arm])
  {
    hide AllSpelled, Fits, FitsItems, FitsElse, Len, LenItems, LenElse, OpenIf, OpenElse, ElseFree, Unextended, SkipNewlines;
    hide Statements, IfExpr, ElseArm, ElseAt, TokensAt, Newlines, RuleOf, Fixed, Spelling;
    SpelledFixed();
    FixedAt(ts, next, TElse);
    SkippedNewlines(ts, pos, next);
    SkippedNewlines(ts, next + 1, arm);
    MakeElseHeader(ts, pos, next, arm);
  }

  lemma {:induction false} ElseIfBuilds(ts: seq<Tok>, pos: nat, next: nat, arm: nat)
    requires pos <= next < arm < |ts| && next == SkipNewlines(ts, pos) && arm == SkipNewlines(ts, next + 1)
    requires AllSpelled(ts) && Clean(ElseArm(ts, pos)) && ts[next].kind == TElse && ts[arm].kind == TIf
    ensures var r := ElseArm(ts, pos);
            FitsElse(ts, pos, r.value) && r.pos == pos + LenElse(r.value) && (OpenElse(r.value) ==> ElseFree(ts, r.pos))
    decreases |ts| - pos, 31
  {
    hide AllSpelled, Fits, FitsItems, FitsElse, Len, LenItems, LenElse, OpenIf, OpenElse, ElseFree, Unextended, SkipNewlines;
    hide Statements, IfExpr, ElseArm, ElseAt, TokensAt, Newlines, RuleOf, Fixed, Spelling;
    UndoElseIf(ts, pos, next, arm);
    ElseHeaderBuilds(ts, pos, next, arm);
    var nested := IfExpr(ts, arm + 1);
    IfBuilds(ts, arm, PREC_LOWEST);
    IfEnds(ts, nested.pos, nested.value);
    MakeElseIf(ts, pos, ts[pos..next], ts[next + 1..arm], nested.value);
  }

  lemma {:induction false} ElseBlockBuilds(ts: seq<Tok>, pos: nat, next: nat, arm: nat)
    requires pos <= next < arm < |ts| && next == SkipNewlines(ts, pos) && arm == SkipNewlines(ts, next + 1)
    requires AllSpelled(ts) && Clean(ElseArm(ts, pos)) && ts[next].kind == TElse && ts[arm].kind != TIf
    ensures var r := ElseArm(ts, pos);
            FitsElse(ts, pos, r.value) && r.pos == pos + LenElse(r.value) && (OpenElse(r.value) ==> ElseFree(ts, r.pos))
    decreases |ts| - pos, 31
  {
    hide AllSpelled, Fits, FitsItems, FitsElse, Len, LenItems, LenElse, OpenIf, OpenElse, ElseFree, Unextended, SkipNewlines;
    hide Statements, IfExpr, ElseArm, ElseAt, TokensAt, Newlines, RuleOf, Fixed, Spelling;
    SpelledFixed();
    UndoElseBlock(ts, pos, next, arm);
    ElseHeaderBuilds(ts, pos, next, arm);
    var items := Statements(ts, arm + 1, TRBrace);
    StatementsBuild(ts, arm + 1, TRBrace);
    FixedAt(ts, arm, TLBrace);
    FixedAt(ts, items.pos, TRBrace);
    MakeElseBlock(ts, pos, ts[pos..next], ts[next + 1..arm], items.value);
  }

  lemma MakeNoElse(ts: seq<Tok>, pos: nat)
    ensures FitsElse(ts, pos, NoElse) && LenElse(NoElse) == 0
  {
  }

  lemma {:induction false} SkipBounds(ts: seq<Tok>, pos: nat)
    ensures pos <= SkipNewlines(ts, pos)
    ensures pos <= |ts| ==> SkipNewlines(ts, pos) <= |ts|
  {
  }

  lemma MakeElseHeader(ts: seq<Tok>, pos: nat, next: nat, arm: nat)
    requires pos <= next < arm <= |ts| && TokensAt(ts, pos, ts[pos..next]) && TokenAt(ts, next, Fixed(TElse))
    requires TokensAt(ts, next + 1, ts[next + 1..arm])
    ensures ElseAt(ts, pos, ts[pos..next], ts[next + 1..arm])
  {
    hide TokensAt, TokenAt, Fixed;
  }

  lemma {:induction false} IfEnds(ts: seq<Tok>, end: nat, s: Syn)
    requires Unextended(ts, end, s)
    ensures OpenIf(s) ==> ElseFree(ts, end)
  {
    hide OpenIf, ElseFree, Edge, RuleOf;
  }

  lemma {:induction false} MakeElseIf(ts: seq<Tok>, pos: nat, before: seq<Tok>, after: seq<Tok>, nested: Syn)
    requires ElseAt(ts, pos, before, after) && Newlines(before) && Newlines(after)
    requires nested.If? && Fits(ts, pos + |before| + 1 + |after|, nested, PREC_LOWEST)
    ensures var e := ElseIf(before, after, nested);
            && FitsElse(ts, pos, e) && LenElse(e) == |before| + 1 + |after| + Len(nested)
            && OpenElse(e) == OpenIf(nested)
  {
    hide ElseAt, Newlines;
  }

  lemma {:induction false} MakeElseBlock(ts: seq<Tok>, pos: nat, before: seq<Tok>, after: seq<Tok>, items: Items)
    requires ElseAt(ts, pos, before, after) && Newlines(before) && Newlines(after)
    requires var arm := pos + |before| + 1 + |after|;
             && FitsItems(ts, arm + 1, items)
             && TokenAt(ts, arm, Fixed(TLBrace)) && TokenAt(ts, arm + 1 + LenItems(items), Fixed(TRBrace))
    ensures var e := ElseBlock(before, after, items);
            && FitsElse(ts, pos, e) && LenElse(e) == |before| + 1 + |after| + 1 + LenItems(items) + 1
            && !OpenElse(e)
  {
    hide ElseAt, Newlines, TokenAt, Fixed;
  }

  lemma {:induction false} StatementsBuild(ts: seq<Tok>, pos: nat, end: TokenType)
    requires AllSpelled(ts) && !IsSeparator(end) && Clean(Statements(ts, pos, end))
    ensures var r := Statements(ts, pos, end);
            FitsItems(ts, pos, r.value) && r.pos == pos + LenItems(r.value) && KindAt(ts, r.pos, end)
    decreases |ts| - pos, 28
  {
    hide Fits, FitsList, FitsItems, FitsElse, FitsStmt, Len, LenList, LenItems, LenElse, LenStmt, Edge, OpenIf, OpenElse;
    hide ElseFree, Unextended, SkipNewlines, Expr, Loop, Prefix, Extend, Arguments, ArgumentList, Elements, Statements;
    hide Statement, IfExpr, ElseArm, Block, TokensAt, ElseAt, Newlines, ShapedLeaf, SpellsSignature, RuleOf, Fixed, Spelling;
    UndoStatements(ts, pos, end);
    if ts[pos].kind == end {
      MakeNoItems(ts, pos);
    } else if IsSeparator(ts[pos].kind) {
      StatementsBuild(ts, pos + 1, end);
      MakeSep(ts, pos, Statements(ts, pos + 1, end).value);
    } else {
      var stmt := Statement(ts, pos);
      var more := Statements(ts, stmt.pos, end);
      StatementBuilds(ts, pos);
      StatementsBuild(ts, stmt.pos, end);
      UndoStatements(ts, stmt.pos, end);
      MakeItem(ts, pos, stmt.value, more.value);
    }
  }

  lemma MakeNoItems(ts: seq<Tok>, pos: nat)
    ensures FitsItems(ts, pos, NoItems) && LenItems(NoItems) == 0
  {
  }

  lemma {:induction false} MakeSep(ts: seq<Tok>, pos: nat, rest: Items)
    requires pos < |ts| && IsSeparator(ts[pos].kind) && FitsItems(ts, pos + 1, rest)
    ensures FitsItems(ts, pos, Sep(ts[pos], rest)) && LenItems(Sep(ts[pos], rest)) == 1 + LenItems(rest)
  {
  }

  lemma {:induction false} MakeItem(ts: seq<Tok>, pos: nat, stmt: Stmt, rest: Items)
    requires FitsStmt(ts, pos, stmt) && FitsItems(ts, pos + LenStmt(stmt), rest) && !rest.Item?
    ensures FitsItems(ts, pos, Item(stmt, rest)) && LenItems(Item(stmt, rest)) == LenStmt(stmt) + LenItems(rest)
  {
  }

  lemma {:induction false} StatementBuilds(ts: seq<Tok>, pos: nat)
    requires AllSpelled(ts) && pos < |ts| && Clean(Statement(ts, pos))
    ensures var r := Statement(ts, pos);
            FitsStmt(ts, pos, r.value) && r.pos == pos + LenStmt(r.value)
    decreases |ts| - pos, 26
  {
    hide Fits, FitsList, FitsItems, FitsElse, FitsStmt, Len, LenList, LenItems, LenElse, LenStmt, Edge, OpenIf, OpenElse;
    hide ElseFree, Unextended, SkipNewlines, Expr, Loop, Prefix, Extend, Arguments, ArgumentList, Elements, Statements;
    hide Statement, IfExpr, ElseArm, Block, TokensAt, ElseAt, Newlines, ShapedLeaf, SpellsSignature, RuleOf, Fixed, Spelling;
    UndoStatement(ts, pos);
    SpelledFixed();
    var k := ts[pos].kind;
    if k == TReturn {
      ExprBuilds(ts, pos + 1, PREC_LOWEST);
      FixedAt(ts, pos, TReturn);
      MakeReturn(ts, pos, Expr(ts, pos + 1, PREC_LOWEST).value);
    } else if k == TFunc || k == TMain {
      FuncBuilds(ts, pos);
    } else if k == TVar || k == TConst {
      DeclBuilds(ts, pos);
    } else {
      ExprBuilds(ts, pos, PREC_LOWEST);
      MakeExpression(ts, pos, Expr(ts, pos, PREC_LOWEST).value);
    }
  }

  lemma {:induction false} MakeReturn(ts: seq<Tok>, pos: nat, e: Syn)
    requires TokenAt(ts, pos, Fixed(TReturn)) && Fits(ts, pos + 1, e, PREC_LOWEST)
    ensures FitsStmt(ts, pos, Return(e)) && LenStmt(Return(e)) == 1 + Len(e)
  {
    hide TokenAt, Fixed;
  }

  lemma {:induction false} MakeExpression(ts: seq<Tok>, pos: nat, e: Syn)
    requires Fits(ts, pos, e, PREC_LOWEST)
    ensures FitsStmt(ts, pos, Expression(e)) && LenStmt(Expression(e)) == Len(e)
  {
  }

  lemma {:induction false} DeclBuilds(ts: seq<Tok>, pos: nat)
    requires AllSpelled(ts) && pos < |ts| && (ts[pos].kind == TVar || ts[pos].kind == TConst)
    requires Clean(ConstVarDecl(ts, pos))
    ensures var r := ConstVarDecl(ts, pos);
            FitsStmt(ts, pos, r.value) && r.pos == pos + LenStmt(r.value)
    decreases |ts| - pos, 25
  {
    hide Fits, FitsList, FitsItems, FitsElse, FitsStmt, Len, LenList, LenItems, LenElse, LenStmt, Edge, OpenIf, OpenElse;
    hide ElseFree, Unextended, SkipNewlines, Expr, Loop, Prefix, Extend, Arguments, ArgumentList, Elements, Statements;
    hide Statement, IfExpr, ElseArm, Block, TokensAt, ElseAt, Newlines, ShapedLeaf, SpellsSignature, RuleOf, Fixed, Spelling;
    SpelledFixed();
    var isConst := ts[pos].kind == TConst;
    FixedAt(ts, pos, DeclKeyword(isConst));
    if ts[pos + 2].kind == TEquals {
      var init := Expr(ts, pos + 3, PREC_LOWEST);
      ExprBuilds(ts, pos + 3, PREC_LOWEST);
      NotMissing(ts, pos + 3, init.value, PREC_LOWEST);
      FixedAt(ts, pos + 2, TEquals);
      MakeDecl(ts, pos, isConst, ts[pos + 1], init.value);
    } else {
      MakeBareDecl(ts, pos, isConst, ts[pos + 1]);
    }
  }

  lemma {:induction false} MakeDecl(ts: seq<Tok>, pos: nat, isConst: bool, declared: Tok, init: Syn)
    requires TokenAt(ts, pos, Fixed(DeclKeyword(isConst))) && TokenAt(ts, pos + 1, declared) && !init.Missing?
    requires TokenAt(ts, pos + 2, Fixed(TEquals)) && Fits(ts, pos + 3, init, PREC_LOWEST)
    ensures var s := Decl(isConst, declared, init);
            FitsStmt(ts, pos, s) && LenStmt(s) == 3 + Len(init)
  {
    hide TokenAt, Fixed;
  }

  lemma MakeBareDecl(ts: seq<Tok>, pos: nat, isConst: bool, declared: Tok)
    requires TokenAt(ts, pos, Fixed(DeclKeyword(isConst))) && TokenAt(ts, pos + 1, declared)
    ensures var s := Decl(isConst, declared, Missing);
            FitsStmt(ts, pos, s) && LenStmt(s) == 2
  {
    hide TokenAt, Fixed;
    assert Bound(Missing, PREC_LOWEST);
  }

  lemma {:induction false} FuncBuilds(ts: seq<Tok>, pos: nat)
    requires AllSpelled(ts) && pos < |ts| && (ts[pos].kind == TFunc || ts[pos].kind == TMain)
    requires Clean(FuncDecl(ts, pos))
    ensures var r := FuncDecl(ts, pos);
            FitsStmt(ts, pos, r.value) && r.pos == pos + LenStmt(r.value)
    decreases |ts| - pos, 25
  {
    hide Fits, FitsList, FitsItems, FitsElse, FitsStmt, Len, LenList, LenItems, LenElse, LenStmt, Edge, OpenIf, OpenElse;
    hide ElseFree, Unextended, SkipNewlines, Expr, Loop, Prefix, Extend, Arguments, ArgumentList, Elements, Statements;
    hide Statement, IfExpr, ElseArm, Block, TokensAt, ElseAt, Newlines, ShapedLeaf, SpellsSignature, RuleOf, Fixed, Spelling;
    hide FuncDecl, Parameters, LenSignature, LenParams, ParameterList, SpellsParams;
    var named, params, brace, block, close := UndoFunc(ts, pos);
    ParametersBuild(ts, pos + 1 + (if named.Some? then 1 else 0));
    SpelledFixed();
    FixedAt(ts, brace, TLBrace);
    StatementsBuild(ts, brace + 1, TRBrace);
    FixedAt(ts, close, TRBrace);
    MakeFunc(ts, pos, named, params, brace, block);
  }

  lemma {:induction false} MakeFunc(ts: seq<Tok>, pos: nat, named: Option<string>, params: Params, brace: nat, block: Items)
    requires pos < |ts| && (ts[pos].kind == TFunc || ts[pos].kind == TMain)
    requires named.Some? ==> TokenAt(ts, pos + 1, Tok(TIdent, named.value))
    requires var start := pos + 1 + (if named.Some? then 1 else 0);
             SpellsSignature(ts, start, None, params) && brace == start + LenSignature(None, params) - 1
    requires TokenAt(ts, brace, Fixed(TLBrace)) && FitsItems(ts, brace + 1, block)
    requires TokenAt(ts, brace + 1 + LenItems(block), Fixed(TRBrace))
    ensures var s := Func(ts[pos], named, params, block);
            FitsStmt(ts, pos, s) && pos + LenStmt(s) == brace + 1 + LenItems(block) + 1
  {
    hide Fixed, SpellsParams, LenParams;
  }

  lemma ParametersBuild(ts: seq<Tok>, pos: nat)
    requires AllSpelled(ts) && Clean(Parameters(ts, pos))
    ensures var r := Parameters(ts, pos);
            SpellsSignature(ts, pos, None, r.value) && r.pos == pos + LenSignature(None, r.value) - 1
  {
    hide ParameterList, SpellsParams, LenParams, Spelling;
    SpelledFixed();
    if ts[pos].kind == TLParen {
      var list := ParameterList(ts, pos + 1);
      ParameterListBuilds(ts, pos + 1);
      FixedAt(ts, pos, TLParen);
      FixedAt(ts, list.pos, TRParen);
    }
  }

  lemma {:induction false} ParameterListBuilds(ts: seq<Tok>, pos: nat)
    requires AllSpelled(ts) && ParameterList(ts, pos).Done?
    ensures var r := ParameterList(ts, pos);
            r.value.Params? && SpellsParams(ts, pos, r.value) && r.pos == pos + LenParams(r.value)
    decreases |ts| - pos
  {
    hide Spelling, Fixed;
    SpelledFixed();
    var typed := ts[pos + 1].kind == TColon;
    var after := if typed then pos + 3 else pos + 1;
    if typed { FixedAt(ts, pos + 1, TColon); }
    if ts[after].kind == TComma {
      FixedAt(ts, after, TComma);
      ParameterListBuilds(ts, after + 1);
    }
  }
}
