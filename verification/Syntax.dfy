/** Derivations of the accepted language, the trees they denote, and the tokens they spell. */
module Syntax {
  import opened Tokens
  import opened Numbers

  /**
   A derivation keeps what the tree forgets: parentheses, operators, number spellings, newlines
   and separators. `Missing` stands for the absent expression (NULL), left out or after an error.
   An `Infix` is a binary operation, a range or an assignment, as its operator says.
   */
  datatype Syn =
    | Missing
    | Leaf(tok: Tok)
    | Unary(op: TokenType, operand: Syn)
    | Group(inner: Syn)
    | Array(elems: Syns, comma: bool, length: Syn)
    | Infix(lhs: Syn, infix: TokenType, rhs: Syn)
    | Ternary(cond: Syn, yes: Syn, no: Syn)
    | Call(callee: Syn, args: Syns)
    | Index(base: Syn, index: Syn)
    | Dot(owner: Syn, member: Option<string>)
    | If(test: Syn, newlines: seq<Tok>, body: Items, els: Else)

  datatype Syns = NoSyns | Syns(head: Syn, tail: Syns)

  /** The newlines before and after `else`, and what it guards. */
  datatype Else =
    | NoElse
    | ElseIf(before: seq<Tok>, after: seq<Tok>, nested: Syn)
    | ElseBlock(before: seq<Tok>, after: seq<Tok>, items: Items)

  datatype Stmt =
    | Expression(expr: Syn)
    | Return(result: Syn)
    | Decl(isConst: bool, declared: Tok, init: Syn)
    | Func(keyword: Tok, named: Option<string>, params: Params, block: Items)

  datatype Items = NoItems | Sep(mark: Tok, rest: Items) | Item(stmt: Stmt, rest: Items)

  /** The tokens of a parameter list; no parameters means no parentheses either. */
  datatype Params = NoParams | Params(name: Tok, typ: Option<string>, more: Params)

  /** A parameter as the tree keeps it: its name and the name of its type, if given. */
  datatype Param = Param(name: string, typ: Option<string>)

  /** The tree the parser builds; `NoTree` is the null pointer. */
  datatype Tree =
    | NoTree
    | NumberTree(number: int) | StringTree(text: string) | IdentTree(name: string)
    | NilTree | BoolTree(value: bool)
    | UnaryTree(op: TokenType, operand: Tree)
    | ArrayTree(elems: Trees, length: Tree)
    | BinaryTree(lhs: Tree, rhs: Tree)
    | RangeTree(lhs: Tree, inclusive: bool, rhs: Tree)
    | AssignTree(lhs: Tree, rhs: Tree)
    | TernaryTree(cond: Tree, yes: Tree, no: Tree)
    | CallTree(callee: Tree, args: Trees)
    | IndexTree(base: Tree, index: Tree)
    | DotTree(owner: Tree, member: Option<string>)
    | IfTree(test: Tree, thenArm: Tree, elseArm: Tree)
    | BlockTree(stmts: Trees)
    | DeclTree(isConst: bool, ident: Tree, init: Tree)
    | FuncTree(ident: Tree, params: seq<Param>, block: Tree)
    | ReturnTree(result: Tree)

  datatype Trees = NoTrees | Trees(head: Tree, tail: Trees)

  /** The value stored for a number: zero when the lexeme does not fit. */
  ghost function NumberValue(digits: string): int {
    var n := FittingNumeral(digits);
    if n.Some? then n.value else 0
  }

  ghost function LeafTree(t: Tok): Tree {
    match t.kind
    case TNum => NumberTree(NumberValue(t.text))
    case TString => StringTree(t.text)
    case TIdent => IdentTree(t.text)
    case TTrue => BoolTree(true)
    case TFalse => BoolTree(false)
    case _ => NilTree
  }

  ghost function InfixTree(l: Tree, op: TokenType, r: Tree): Tree {
    match RuleOf(op).infix
    case RangeInfix => RangeTree(l, op == TDotDotEq, r)
    case AssignInfix => AssignTree(l, r)
    case _ => BinaryTree(l, r)
  }

  ghost function ParamList(ps: Params): seq<Param> {
    match ps
    case NoParams => []
    case Params(name, typ, more) => [Param(name.text, typ)] + ParamList(more)
  }

  /** Forgets what the nodes do not store. */
  ghost function Erase(s: Syn): Tree {
    match s
    case Missing => NoTree
    case Leaf(tok) => LeafTree(tok)
    case Unary(op, e) => UnaryTree(op, Erase(e))
    case Group(e) => Erase(e)
    case Array(elems, _, length) => ArrayTree(EraseAll(elems), Erase(length))
    case Infix(l, op, r) => InfixTree(Erase(l), op, Erase(r))
    case Ternary(c, y, n) => TernaryTree(Erase(c), Erase(y), Erase(n))
    case Call(f, args) => CallTree(Erase(f), EraseAll(args))
    case Index(b, i) => IndexTree(Erase(b), Erase(i))
    case Dot(l, member) => DotTree(Erase(l), member)
    case If(c, _, body, els) => IfTree(Erase(c), BlockTree(EraseItems(body)), EraseElse(els))
  }

  ghost function EraseAll(ss: Syns): Trees {
    match ss
    case NoSyns => NoTrees
    case Syns(head, tail) => Trees(Erase(head), EraseAll(tail))
  }

  ghost function EraseElse(e: Else): Tree {
    match e
    case NoElse => NoTree
    case ElseIf(_, _, nested) => Erase(nested)
    case ElseBlock(_, _, items) => BlockTree(EraseItems(items))
  }

  ghost function EraseStmt(s: Stmt): Tree {
    match s
    case Expression(e) => Erase(e)
    case Return(e) => ReturnTree(Erase(e))
    case Decl(isConst, declared, init) => DeclTree(isConst, IdentTree(declared.text), Erase(init))
    case Func(keyword, named, params, block) =>
      FuncTree(IdentTree(named.GetOr(keyword.text)), ParamList(params), BlockTree(EraseItems(block)))
  }

  ghost function EraseItems(items: Items): Trees {
    match items
    case NoItems => NoTrees
    case Sep(_, rest) => EraseItems(rest)
    case Item(stmt, rest) => Trees(EraseStmt(stmt), EraseItems(rest))
  }

  // ----- What a derivation spells -----

  ghost function Yield(s: Syn): seq<Tok> {
    match s
    case Missing => []
    case Leaf(tok) => [tok]
    case Unary(op, e) => [Fixed(op)] + Yield(e)
    case Group(e) => [Fixed(TLParen)] + Yield(e) + [Fixed(TRParen)]
    case Array(elems, comma, length) =>
      [Fixed(TLSqBracket)] + YieldList(elems) + (if comma then [Fixed(TComma)] else []) +
      (if length.Missing? then [] else [Fixed(TSemicolon)] + Yield(length)) + [Fixed(TRSqBracket)]
    case Infix(l, op, r) => Yield(l) + [Fixed(op)] + Yield(r)
    case Ternary(c, y, n) => Yield(c) + [Fixed(TQuestion)] + Yield(y) + [Fixed(TColon)] + Yield(n)
    case Call(f, args) => Yield(f) + [Fixed(TLParen)] + YieldList(args) + [Fixed(TRParen)]
    case Index(b, i) => Yield(b) + [Fixed(TLSqBracket)] + Yield(i) + [Fixed(TRSqBracket)]
    case Dot(l, member) => Yield(l) + [Fixed(TDot)] + [Tok(TIdent, member.GetOr(""))]
    case If(c, newlines, body, els) => [Fixed(TIf)] + Yield(c) + newlines + YieldBlock(body) + YieldElse(els)
  }

  /** Derivations with commas between them. */
  ghost function YieldList(ss: Syns): seq<Tok> {
    match ss
    case NoSyns => []
    case Syns(head, tail) =>
      Yield(head) + (if tail.NoSyns? then [] else [Fixed(TComma)] + YieldList(tail))
  }

  ghost function YieldElse(e: Else): seq<Tok> {
    match e
    case NoElse => []
    case ElseIf(before, after, nested) => before + [Fixed(TElse)] + after + Yield(nested)
    case ElseBlock(before, after, items) => before + [Fixed(TElse)] + after + YieldBlock(items)
  }

  ghost function YieldStmt(s: Stmt): seq<Tok> {
    match s
    case Expression(e) => Yield(e)
    case Return(e) => [Fixed(TReturn)] + Yield(e)
    case Decl(isConst, declared, init) =>
      [Fixed(DeclKeyword(isConst)), declared] +
      (if init.Missing? then [] else [Fixed(TEquals)] + Yield(init))
    case Func(keyword, named, params, block) =>
      [keyword] + (if named.Some? then [Tok(TIdent, named.value)] else []) +
      (if params.NoParams? then [] else [Fixed(TLParen)] + YieldParams(params) + [Fixed(TRParen)]) +
      YieldBlock(block)
  }

  ghost function YieldItems(items: Items): seq<Tok>
    decreases items, 0
  {
    match items
    case NoItems => []
    case Sep(mark, rest) => [mark] + YieldItems(rest)
    case Item(stmt, rest) => YieldStmt(stmt) + YieldItems(rest)
  }

  ghost function YieldBlock(items: Items): seq<Tok>
    decreases items, 1
  {
    [Fixed(TLBrace)] + YieldItems(items) + [Fixed(TRBrace)]
  }

  ghost function YieldParams(ps: Params): seq<Tok> {
    match ps
    case NoParams => []
    case Params(name, typ, more) =>
      [name] + (if typ.Some? then [Fixed(TColon), Tok(TIdent, typ.value)] else []) +
      (if more.NoParams? then [] else [Fixed(TComma)] + YieldParams(more))
  }

  function DeclKeyword(isConst: bool): TokenType {
    if isConst then TConst else TVar
  }
}
