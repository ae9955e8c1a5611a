/**
 What a run of the parser does, as functions of the token array and a position. Every function
 returns the derivation it built, the position after it and the number of errors it raised, or the
 reason for which the run cannot go on.
 */
module ParserSpec {
  import opened Tokens
  import opened Numbers
  import opened Syntax

  datatype Reason =
    | OffTokens      // a read beyond the token array
    | NoParamType    // a colon without a type name: the null token is dereferenced
    | CommaOperator  // tuple assignment is not part of this model
    | ForExpression  // neither are loops
    | PoolFull       // the node pool is exhausted and the process exits
    | ArenaFull      // the arena is exhausted and a null pointer is written to

  datatype Run<+T> = Halt(why: Reason) | Done(value: T, pos: nat, errors: nat) {
    predicate IsFailure() { Halt? }
    function PropagateFailure<U>(): Run<U>
      requires Halt?
    {
      Halt(why)
    }
    function Extract(): Run<T>
      requires Done?
    {
      this
    }
    /** The same outcome with errors raised earlier counted in. */
    function After(earlier: nat): Run<T> {
      if Done? then Done(value, pos, earlier + errors) else this
    }
  }

  datatype ElemList = ElemList(items: Syns, comma: bool)

  ghost function Expect(ts: seq<Tok>, pos: nat, k: TokenType): (r: Run<bool>)
    ensures r.Done? ==> pos <= r.pos <= |ts| && (r.errors == 0 <==> r.value)
  {
    if pos >= |ts| then Halt(OffTokens)
    else if ts[pos].kind == k then Done(true, pos + 1, 0)
    else Done(false, pos, 1)
  }

  /** The first position from `pos` on that does not hold a newline. */
  ghost function SkipNewlines(ts: seq<Tok>, pos: nat): (end: nat)
    ensures pos <= |ts| ==> pos <= end <= |ts|
    ensures end < |ts| ==> ts[end].kind != TNewline
    ensures forall i :: pos <= i < end && i < |ts| ==> ts[i].kind == TNewline
    decreases |ts| - pos
  {
    if pos < |ts| && ts[pos].kind == TNewline then SkipNewlines(ts, pos + 1) else pos
  }

  predicate IsSeparator(k: TokenType) {
    k == TNewline || k == TSemicolon
  }

  ghost function Expr(ts: seq<Tok>, pos: nat, prec: nat): (r: Run<Syn>)
    ensures r.Done? ==> pos < r.pos <= |ts|
    decreases |ts| - pos, 10
  {
    if pos >= |ts| then Halt(OffTokens)
    else if RuleOf(ts[pos].kind).prefix.NoPrefix? then Done(Missing, pos + 1, 1)
    else
      var head :- Prefix(ts, pos);
      Loop(ts, head.pos, head.value, prec).After(head.errors)
  }

  /** The infix loop, with `lhs` already built. */
  ghost function Loop(ts: seq<Tok>, pos: nat, lhs: Syn, prec: nat): (r: Run<Syn>)
    ensures r.Done? ==> pos <= r.pos <= |ts|
    decreases |ts| - pos, 10
  {
    if pos >= |ts| then Halt(OffTokens)
    else if prec < Precedence(ts[pos].kind) then
      var longer :- Extend(ts, pos, lhs);
      Loop(ts, longer.pos, longer.value, prec).After(longer.errors)
    else Done(lhs, pos, 0)
  }

  /** The prefix handler of the token at `pos`. */
  ghost function Prefix(ts: seq<Tok>, pos: nat): (r: Run<Syn>)
    requires pos < |ts| && !RuleOf(ts[pos].kind).prefix.NoPrefix?
    ensures r.Done? ==> pos < r.pos <= |ts|
    decreases |ts| - pos, 5
  {
    match RuleOf(ts[pos].kind).prefix
    case NumberPrefix => Done(Leaf(ts[pos]), pos + 1, if FittingNumeral(ts[pos].text).Some? then 0 else 1)
    case StringPrefix => Done(Leaf(ts[pos]), pos + 1, 0)
    case IdentifierPrefix => Done(Leaf(ts[pos]), pos + 1, 0)
    case NilPrefix => Done(Leaf(ts[pos]), pos + 1, 0)
    case BoolPrefix => Done(Leaf(ts[pos]), pos + 1, 0)
    case UnaryPrefix =>
      var e :- Expr(ts, pos + 1, PREC_UNARY);
      Done(Unary(ts[pos].kind, e.value), e.pos, e.errors)
    case GroupingPrefix =>
      var e :- Expr(ts, pos + 1, PREC_LOWEST);
      var close :- Expect(ts, e.pos, TRParen);
      Done(Group(e.value), close.pos, e.errors + close.errors)
    case ArrayPrefix => ArrayLiteral(ts, pos + 1)
    case IfPrefix => IfExpr(ts, pos + 1)
    case ForPrefix => Halt(ForExpression)
  }

  /** The infix handler of the operator at `pos`. */
  ghost function Extend(ts: seq<Tok>, pos: nat, lhs: Syn): (r: Run<Syn>)
    requires pos < |ts| && Precedence(ts[pos].kind) > PREC_NONE
    ensures r.Done? ==> pos < r.pos <= |ts|
    decreases |ts| - pos, 5
  {
    match RuleOf(ts[pos].kind).infix
    case BinaryInfix =>
      var e :- Expr(ts, pos + 1, PREC_FACTOR);
      Done(Infix(lhs, ts[pos].kind, e.value), e.pos, e.errors)
    case RangeInfix =>
      var e :- Expr(ts, pos + 1, PREC_RANGE);
      Done(Infix(lhs, ts[pos].kind, e.value), e.pos, e.errors)
    case TernaryInfix =>
      var yes :- Expr(ts, pos + 1, PREC_LOWEST);
      var colon :- Expect(ts, yes.pos, TColon);
      var no :- Expr(ts, colon.pos, PREC_TERNARY);
      Done(Ternary(lhs, yes.value, no.value), no.pos, yes.errors + colon.errors + no.errors)
    case AssignInfix =>
      var e :- Expr(ts, pos + 1, PREC_LOWEST);
      Done(Infix(lhs, ts[pos].kind, e.value), e.pos, e.errors)
    case CallInfix =>
      var args :- Arguments(ts, pos + 1);
      var close :- Expect(ts, args.pos, TRParen);
      Done(Call(lhs, args.value), close.pos, args.errors + close.errors)
    case IndexInfix =>
      var e :- Expr(ts, pos + 1, PREC_LOWEST);
      var close :- Expect(ts, e.pos, TRSqBracket);
      Done(Index(lhs, e.value), close.pos, e.errors + close.errors)
    case DotInfix =>
      var member :- Expect(ts, pos + 1, TIdent);
      Done(Dot(lhs, if member.value then Some(ts[pos + 1].text) else None), member.pos, member.errors)
    case CommaInfix => Halt(CommaOperator)
  }

  /** A call's arguments, from just after its opening parenthesis. */
  ghost function Arguments(ts: seq<Tok>, pos: nat): (r: Run<Syns>)
    ensures r.Done? ==> pos <= r.pos <= |ts|
    decreases |ts| - pos, 12
  {
    if pos >= |ts| then Halt(OffTokens)
    else if ts[pos].kind == TRParen then Done(NoSyns, pos, 0)
    else ArgumentList(ts, pos)
  }

  ghost function ArgumentList(ts: seq<Tok>, pos: nat): (r: Run<Syns>)
    ensures r.Done? ==> pos < r.pos <= |ts|
    decreases |ts| - pos, 11
  {
    var e :- Expr(ts, pos, PREC_COMMA);
    if e.pos >= |ts| then Halt(OffTokens)
    else if ts[e.pos].kind == TComma then
      var more :- ArgumentList(ts, e.pos + 1);
      Done(Syns(e.value, more.value), more.pos, e.errors + more.errors)
    else Done(Syns(e.value, NoSyns), e.pos, e.errors)
  }

  /** An array literal, from just after its opening bracket. */
  ghost function ArrayLiteral(ts: seq<Tok>, pos: nat): (r: Run<Syn>)
    ensures r.Done? ==> pos <= r.pos <= |ts|
    decreases |ts| - pos, 12
  {
    var list :- Elements(ts, pos);
    if list.pos >= |ts| then Halt(OffTokens)
    else
      var elems := list.value.items;
      var comma := list.value.comma && elems.Syns?;
      if ts[list.pos].kind == TSemicolon then
        var length :- Expr(ts, list.pos + 1, PREC_LOWEST);
        var close :- Expect(ts, length.pos, TRSqBracket);
        var single := elems.Syns? && elems.tail.NoSyns?;
        Done(Array(elems, comma, length.value), close.pos,
             list.errors + (if single then 0 else 1) + length.errors + close.errors)
      else
        var close :- Expect(ts, list.pos, TRSqBracket);
        Done(Array(elems, comma, Missing), close.pos, list.errors + close.errors)
  }

  /** Elements up to a missing comma, or up to a bracket where an element could have started. */
  ghost function Elements(ts: seq<Tok>, pos: nat): (r: Run<ElemList>)
    ensures r.Done? ==> pos <= r.pos <= |ts|
    decreases |ts| - pos, 11
  {
    if pos >= |ts| then Halt(OffTokens)
    else if ts[pos].kind == TRSqBracket then Done(ElemList(NoSyns, true), pos, 0)
    else
      var e :- Expr(ts, pos, PREC_HIGHEST);
      if e.pos >= |ts| then Halt(OffTokens)
      else if ts[e.pos].kind == TComma then
        var more :- Elements(ts, e.pos + 1);
        Done(ElemList(Syns(e.value, more.value.items), more.value.comma), more.pos, e.errors + more.errors)
      else Done(ElemList(Syns(e.value, NoSyns), false), e.pos, e.errors)
  }

  /** An if expression, from just after its keyword. Without an else it ends right after its block. */
  ghost function IfExpr(ts: seq<Tok>, pos: nat): (r: Run<Syn>)
    ensures r.Done? ==> pos < r.pos <= |ts| && r.value.If?
    decreases |ts| - pos, 12
  {
    var test :- Expr(ts, pos, PREC_LOWEST);
    var brace := SkipNewlines(ts, test.pos);
    var open :- Expect(ts, brace, TLBrace);
    var body :- Block(ts, open.pos);
    var els :- ElseArm(ts, body.pos);
    Done(If(test.value, ts[test.pos..brace], body.value, els.value), els.pos,
         test.errors + open.errors + body.errors + els.errors)
  }

  /** The else arm, if newlines and then `else` come next; nothing is consumed otherwise. */
  ghost function ElseArm(ts: seq<Tok>, pos: nat): (r: Run<Else>)
    ensures r.Done? ==> pos <= r.pos <= |ts|
    decreases |ts| - pos, 16
  {
    var next := SkipNewlines(ts, pos);
    if next >= |ts| then Halt(OffTokens)
    else if ts[next].kind != TElse then Done(NoElse, pos, 0)
    else
      var arm := SkipNewlines(ts, next + 1);
      if arm >= |ts| then Halt(OffTokens)
      else if ts[arm].kind == TIf then
        var nested :- IfExpr(ts, arm + 1);
        Done(ElseIf(ts[pos..next], ts[next + 1..arm], nested.value), nested.pos, nested.errors)
      else
        var open :- Expect(ts, arm, TLBrace);
        var items :- Block(ts, open.pos);
        Done(ElseBlock(ts[pos..next], ts[next + 1..arm], items.value), items.pos, open.errors + items.errors)
  }

  /** A block, from just after its opening brace, through its closing brace. */
  ghost function Block(ts: seq<Tok>, pos: nat): (r: Run<Items>)
    ensures r.Done? ==> pos < r.pos <= |ts|
    decreases |ts| - pos, 15
  {
    var items :- Statements(ts, pos, TRBrace);
    Done(items.value, items.pos + 1, items.errors)
  }

  /** Statements and separators up to the first `end` token where a statement could have started. */
  ghost function Statements(ts: seq<Tok>, pos: nat, end: TokenType): (r: Run<Items>)
    ensures r.Done? ==> pos <= r.pos < |ts| && ts[r.pos].kind == end
    decreases |ts| - pos, 14
  {
    if pos >= |ts| then Halt(OffTokens)
    else if ts[pos].kind == end then Done(NoItems, pos, 0)
    else if IsSeparator(ts[pos].kind) then
      var more :- Statements(ts, pos + 1, end);
      Done(Sep(ts[pos], more.value), more.pos, more.errors)
    else
      var stmt :- Statement(ts, pos);
      if stmt.pos >= |ts| then Halt(OffTokens)
      else
        var closed := IsSeparator(ts[stmt.pos].kind) || ts[stmt.pos].kind == end;
        var more :- Statements(ts, stmt.pos, end);
        Done(Item(stmt.value, more.value), more.pos,
             stmt.errors + (if closed then 0 else 1) + more.errors)
  }

  ghost function Statement(ts: seq<Tok>, pos: nat): (r: Run<Stmt>)
    requires pos < |ts|
    ensures r.Done? ==> pos < r.pos <= |ts|
    decreases |ts| - pos, 13
  {
    var k := ts[pos].kind;
    if k == TReturn then
      var e :- Expr(ts, pos + 1, PREC_LOWEST);
      Done(Return(e.value), e.pos, e.errors)
    else if k == TFunc || k == TMain then FuncDecl(ts, pos)
    else if k == TVar || k == TConst then ConstVarDecl(ts, pos)
    else
      var e :- Expr(ts, pos, PREC_LOWEST);
      Done(Expression(e.value), e.pos, e.errors)
  }

  /** A declaration; whatever token comes after the keyword is the declared name. */
  ghost function ConstVarDecl(ts: seq<Tok>, pos: nat): (r: Run<Stmt>)
    requires pos < |ts|
    ensures r.Done? ==> pos < r.pos <= |ts|
    decreases |ts| - pos, 12
  {
    if pos + 2 >= |ts| then Halt(OffTokens)
    else if ts[pos + 2].kind == TEquals then
      var init :- Expr(ts, pos + 3, PREC_LOWEST);
      Done(Decl(ts[pos].kind == TConst, ts[pos + 1], init.value), init.pos, init.errors)
    else Done(Decl(ts[pos].kind == TConst, ts[pos + 1], Missing), pos + 2, 0)
  }

  ghost function FuncDecl(ts: seq<Tok>, pos: nat): (r: Run<Stmt>)
    requires pos < |ts|
    ensures r.Done? ==> pos < r.pos <= |ts|
    decreases |ts| - pos, 12
  {
    if pos + 1 >= |ts| then Halt(OffTokens)
    else
      var isNamed := ts[pos + 1].kind == TIdent;
      var named := if isNamed then Some(ts[pos + 1].text) else None;
      var params :- Parameters(ts, if isNamed then pos + 2 else pos + 1);
      var open :- Expect(ts, params.pos, TLBrace);
      var block :- Block(ts, open.pos);
      Done(Func(ts[pos], named, params.value, block.value), block.pos,
           params.errors + open.errors + block.errors)
  }

  /** The parenthesised parameters, if there are any parentheses. */
  ghost function Parameters(ts: seq<Tok>, pos: nat): (r: Run<Params>)
    ensures r.Done? ==> pos <= r.pos <= |ts|
  {
    if pos >= |ts| then Halt(OffTokens)
    else if ts[pos].kind != TLParen then Done(NoParams, pos, 0)
    else
      var list :- ParameterList(ts, pos + 1);
      var close :- Expect(ts, list.pos, TRParen);
      Done(list.value, close.pos, list.errors + close.errors)
  }

  ghost function ParameterList(ts: seq<Tok>, pos: nat): (r: Run<Params>)
    ensures r.Done? ==> pos < r.pos < |ts| && r.value.Params? && r.errors == 0
    decreases |ts| - pos
  {
    if pos + 1 >= |ts| then Halt(OffTokens)
    else
      var typed := ts[pos + 1].kind == TColon;
      if typed && pos + 2 >= |ts| then Halt(OffTokens)
      else if typed && ts[pos + 2].kind != TIdent then Halt(NoParamType)
      else
        var typ := if typed then Some(ts[pos + 2].text) else None;
        var after := if typed then pos + 3 else pos + 1;
        if after >= |ts| then Halt(OffTokens)
        else if ts[after].kind == TComma then
          var more :- ParameterList(ts, after + 1);
          Done(Params(ts[pos], typ, more.value), more.pos, 0)
        else Done(Params(ts[pos], typ, NoParams), after, 0)
  }

  /** A whole program: statements up to the end token, which is not consumed. */
  ghost function Program(ts: seq<Tok>): Run<Items> {
    Statements(ts, 0, TEnd)
  }
}
