/**
 Which derivations are programs. `Shaped` holds the grammar's shape; `Bound` holds the left and right
 binding conditions that the rule table and the handlers' right-hand precedences impose; `Follows`
 says which tokens may come next without being absorbed.
 */
module Grammar {
  import opened Tokens
  import opened Numbers
  import opened Syntax
  import opened ParserSpec

  ghost predicate Newlines(toks: seq<Tok>) {
    forall i :: 0 <= i < |toks| ==> toks[i].kind == TNewline
  }

  predicate IsInfix(k: TokenType) {
    match RuleOf(k).infix
    case BinaryInfix => true
    case RangeInfix => true
    case AssignInfix => true
    case _ => false
  }

  /** The precedence at which the right operand of an infix operator is parsed. */
  function RightPrecedence(k: TokenType): nat {
    match RuleOf(k).infix
    case BinaryInfix => PREC_FACTOR
    case RangeInfix => PREC_RANGE
    case _ => PREC_LOWEST
  }

  // ----- Shape -----

  ghost predicate ShapedLeaf(t: Tok) {
    match t.kind
    case TNum => FittingNumeral(t.text).Some?
    case TString => true
    case TIdent => true
    case TNil => t == Fixed(TNil)
    case TTrue => t == Fixed(TTrue)
    case TFalse => t == Fixed(TFalse)
    case _ => false
  }

  /** The shape of an error-free expression. */
  ghost predicate Shaped(s: Syn) {
    match s
    case Missing => false
    case Leaf(tok) => ShapedLeaf(tok)
    case Unary(op, e) => (op == TMinus || op == TNot) && Shaped(e)
    case Group(e) => Shaped(e)
    case Array(elems, comma, length) =>
      && ShapedAll(elems)
      && (comma ==> elems.Syns?)
      && (length.Missing? || (Shaped(length) && elems.Syns? && elems.tail.NoSyns? && !comma))
    case Infix(l, op, r) => IsInfix(op) && Shaped(l) && Shaped(r)
    case Ternary(c, y, n) => Shaped(c) && Shaped(y) && Shaped(n)
    case Call(f, args) => Shaped(f) && ShapedAll(args)
    case Index(b, i) => Shaped(b) && Shaped(i)
    case Dot(l, member) => Shaped(l) && member.Some?
    case If(c, newlines, body, els) => Shaped(c) && Newlines(newlines) && ShapedItems(body) && ShapedElse(els)
  }

  ghost predicate ShapedAll(ss: Syns) {
    match ss
    case NoSyns => true
    case Syns(head, tail) => Shaped(head) && ShapedAll(tail)
  }

  ghost predicate ShapedElse(e: Else) {
    match e
    case NoElse => true
    case ElseIf(before, after, nested) => Newlines(before) && Newlines(after) && nested.If? && Shaped(nested)
    case ElseBlock(before, after, items) => Newlines(before) && Newlines(after) && ShapedItems(items)
  }

  ghost predicate ShapedStmt(s: Stmt) {
    match s
    case Expression(e) => Shaped(e)
    case Return(e) => Shaped(e)
    case Decl(_, _, init) => init.Missing? || Shaped(init)
    case Func(keyword, _, _, block) => (keyword.kind == TFunc || keyword.kind == TMain) && ShapedItems(block)
  }

  /** Two statements never meet without a separator between them. */
  ghost predicate ShapedItems(items: Items) {
    match items
    case NoItems => true
    case Sep(mark, rest) => IsSeparator(mark.kind) && ShapedItems(rest)
    case Item(stmt, rest) => ShapedStmt(stmt) && !rest.Item? && ShapedItems(rest)
  }

  // ----- Binding -----

  function Min(a: nat, b: nat): nat {
    if a < b then a else b
  }

  /** The least right-hand precedence on the right edge: a token binding tighter would be absorbed. */
  ghost function Edge(s: Syn): nat {
    match s
    case Unary(_, e) => Min(PREC_UNARY, Edge(e))
    case Infix(_, op, r) => Min(RightPrecedence(op), Edge(r))
    case Ternary(_, _, n) => Min(PREC_TERNARY, Edge(n))
    case _ => PREC_COUNT
  }

  /** The right edge ends in an if without an else. */
  ghost predicate OpenIf(s: Syn) {
    match s
    case Unary(_, e) => OpenIf(e)
    case Infix(_, _, r) => OpenIf(r)
    case Ternary(_, _, n) => OpenIf(n)
    case If(_, _, _, els) => OpenElse(els)
    case _ => false
  }

  ghost predicate OpenElse(e: Else) {
    match e
    case NoElse => true
    case ElseIf(_, _, nested) => OpenIf(nested)
    case ElseBlock(_, _, _) => false
  }

  /** Binding conditions for a derivation that is parsed at calling precedence `prec`. */
  ghost predicate Bound(s: Syn, prec: nat)
    decreases s
  {
    match s
    case Missing => true
    case Leaf(_) => true
    case Unary(_, e) => Bound(e, PREC_UNARY)
    case Group(e) => Bound(e, PREC_LOWEST)
    case Array(elems, comma, length) => BoundList(elems, PREC_HIGHEST, comma) && Bound(length, PREC_LOWEST)
    case Infix(l, op, r) =>
      LeftFits(l, prec, Precedence(op)) && Bound(l, prec) && Bound(r, RightPrecedence(op))
    case Ternary(c, y, n) =>
      LeftFits(c, prec, PREC_TERNARY) && Bound(c, prec) && Bound(y, PREC_LOWEST) && Bound(n, PREC_TERNARY)
    case Call(f, args) => LeftFits(f, prec, PREC_CALL) && Bound(f, prec) && BoundList(args, PREC_COMMA, false)
    case Index(b, i) => LeftFits(b, prec, PREC_CALL) && Bound(b, prec) && Bound(i, PREC_LOWEST)
    case Dot(l, _) => LeftFits(l, prec, PREC_CALL) && Bound(l, prec)
    case If(c, _, body, els) => Bound(c, PREC_LOWEST) && BoundItems(body) && BoundElse(els)
  }

  /** An operator met in the loop of calling precedence `prec` takes `s` as its left operand. */
  ghost predicate LeftFits(s: Syn, prec: nat, op: nat) {
    prec < op <= Edge(s)
  }

  /** List elements; one that a comma follows must leave the comma alone. */
  ghost predicate BoundList(ss: Syns, prec: nat, comma: bool)
    decreases ss
  {
    match ss
    case NoSyns => true
    case Syns(head, tail) =>
      && Bound(head, prec) && BoundList(tail, prec, comma)
      && (tail.Syns? || comma ==> PREC_COMMA <= Edge(head))
  }

  ghost predicate BoundElse(e: Else)
    decreases e
  {
    match e
    case NoElse => true
    case ElseIf(_, _, nested) => Bound(nested, PREC_LOWEST)
    case ElseBlock(_, _, items) => BoundItems(items)
  }

  ghost predicate BoundStmt(s: Stmt)
    decreases s
  {
    match s
    case Expression(e) => Bound(e, PREC_LOWEST)
    case Return(e) => Bound(e, PREC_LOWEST)
    case Decl(_, _, init) => Bound(init, PREC_LOWEST)
    case Func(_, _, _, block) => BoundItems(block)
  }

  ghost predicate BoundItems(items: Items)
    decreases items
  {
    match items
    case NoItems => true
    case Sep(_, rest) => BoundItems(rest)
    case Item(stmt, rest) => BoundStmt(stmt) && BoundItems(rest)
  }

  // ----- What may follow -----

  /** After any newlines there is a token, and it is not `else`. */
  ghost predicate ElseFree(ts: seq<Tok>, pos: nat) {
    var next := SkipNewlines(ts, pos);
    next < |ts| && ts[next].kind != TElse
  }

  ghost predicate Follows(ts: seq<Tok>, pos: nat, s: Syn) {
    && pos < |ts|
    && Precedence(ts[pos].kind) <= Edge(s)
    && (OpenIf(s) ==> ElseFree(ts, pos))
  }

  // ----- Where a derivation is spelled in a token array -----

  ghost function Len(s: Syn): nat {
    match s
    case Missing => 0
    case Leaf(_) => 1
    case Unary(_, e) => 1 + Len(e)
    case Group(e) => 1 + Len(e) + 1
    case Array(elems, comma, length) =>
      1 + LenList(elems) + (if comma then 1 else 0) + (if length.Missing? then 0 else 1 + Len(length)) + 1
    case Infix(l, _, r) => Len(l) + 1 + Len(r)
    case Ternary(c, y, n) => Len(c) + 1 + Len(y) + 1 + Len(n)
    case Call(f, args) => Len(f) + 1 + LenList(args) + 1
    case Index(b, i) => Len(b) + 1 + Len(i) + 1
    case Dot(l, _) => Len(l) + 2
    case If(c, newlines, body, els) => 1 + Len(c) + |newlines| + 1 + LenItems(body) + 1 + LenElse(els)
  }

  ghost function LenList(ss: Syns): nat {
    match ss
    case NoSyns => 0
    case Syns(head, tail) => Len(head) + (if tail.NoSyns? then 0 else 1 + LenList(tail))
  }

  ghost function LenElse(e: Else): nat {
    match e
    case NoElse => 0
    case ElseIf(before, after, nested) => |before| + 1 + |after| + Len(nested)
    case ElseBlock(before, after, items) => |before| + 1 + |after| + 1 + LenItems(items) + 1
  }

  ghost function LenStmt(s: Stmt): nat {
    match s
    case Expression(e) => Len(e)
    case Return(e) => 1 + Len(e)
    case Decl(_, _, init) => 2 + (if init.Missing? then 0 else 1 + Len(init))
    case Func(_, named, params, block) => LenSignature(named, params) + 1 + LenItems(block) + 1
  }

  ghost function LenSignature(named: Option<string>, params: Params): nat {
    1 + (if named.Some? then 1 else 0) + (if params.NoParams? then 0 else LenParams(params) + 2)
  }

  ghost function LenItems(items: Items): nat {
    match items
    case NoItems => 0
    case Sep(_, rest) => 1 + LenItems(rest)
    case Item(stmt, rest) => LenStmt(stmt) + LenItems(rest)
  }

  ghost function LenParams(ps: Params): nat {
    match ps
    case NoParams => 0
    case Params(_, typ, more) =>
      1 + (if typ.Some? then 2 else 0) + (if more.NoParams? then 0 else 1 + LenParams(more))
  }

  ghost predicate TokenAt(ts: seq<Tok>, i: nat, t: Tok) {
    i < |ts| && ts[i] == t
  }

  ghost predicate TokensAt(ts: seq<Tok>, i: nat, w: seq<Tok>) {
    i + |w| <= |ts| && ts[i..i + |w|] == w
  }

  /** The tokens from `i` on begin with those of `s`; piece by piece, without building the yield. */
  ghost predicate Spells(ts: seq<Tok>, i: nat, s: Syn)
    decreases s
  {
    match s
    case Missing => true
    case Leaf(tok) => TokenAt(ts, i, tok)
    case Unary(op, e) => TokenAt(ts, i, Fixed(op)) && Spells(ts, i + 1, e)
    case Group(e) => TokenAt(ts, i, Fixed(TLParen)) && Spells(ts, i + 1, e) && TokenAt(ts, i + 1 + Len(e), Fixed(TRParen))
    case Array(elems, comma, length) =>
      var afterElems := i + 1 + LenList(elems);
      && TokenAt(ts, i, Fixed(TLSqBracket)) && SpellsList(ts, i + 1, elems)
      && (comma ==> TokenAt(ts, afterElems, Fixed(TComma)))
      && (length.Missing? ==> TokenAt(ts, afterElems + (if comma then 1 else 0), Fixed(TRSqBracket)))
      && (!length.Missing? ==>
            && TokenAt(ts, afterElems + (if comma then 1 else 0), Fixed(TSemicolon))
            && Spells(ts, afterElems + (if comma then 1 else 0) + 1, length)
            && TokenAt(ts, afterElems + (if comma then 1 else 0) + 1 + Len(length), Fixed(TRSqBracket)))
    case Infix(l, op, r) => Spells(ts, i, l) && TokenAt(ts, i + Len(l), Fixed(op)) && Spells(ts, i + Len(l) + 1, r)
    case Ternary(c, y, n) =>
      && Spells(ts, i, c) && TokenAt(ts, i + Len(c), Fixed(TQuestion)) && Spells(ts, i + Len(c) + 1, y)
      && TokenAt(ts, i + Len(c) + 1 + Len(y), Fixed(TColon)) && Spells(ts, i + Len(c) + 1 + Len(y) + 1, n)
    case Call(f, args) =>
      && Spells(ts, i, f) && TokenAt(ts, i + Len(f), Fixed(TLParen))
      && SpellsList(ts, i + Len(f) + 1, args) && TokenAt(ts, i + Len(f) + 1 + LenList(args), Fixed(TRParen))
    case Index(b, e) =>
      && Spells(ts, i, b) && TokenAt(ts, i + Len(b), Fixed(TLSqBracket))
      && Spells(ts, i + Len(b) + 1, e) && TokenAt(ts, i + Len(b) + 1 + Len(e), Fixed(TRSqBracket))
    case Dot(l, member) =>
      && Spells(ts, i, l) && TokenAt(ts, i + Len(l), Fixed(TDot))
      && TokenAt(ts, i + Len(l) + 1, Tok(TIdent, member.GetOr("")))
    case If(c, newlines, body, els) =>
      var afterTest := i + 1 + Len(c);
      && TokenAt(ts, i, Fixed(TIf)) && Spells(ts, i + 1, c) && TokensAt(ts, afterTest, newlines)
      && Braces(ts, afterTest + |newlines|, afterTest + |newlines| + 1 + LenItems(body))
      && SpellsItems(ts, afterTest + |newlines| + 1, body)
      && SpellsElse(ts, afterTest + |newlines| + 1 + LenItems(body) + 1, els)
  }

  ghost predicate Braces(ts: seq<Tok>, open: nat, close: nat) {
    TokenAt(ts, open, Fixed(TLBrace)) && TokenAt(ts, close, Fixed(TRBrace))
  }

  ghost predicate SpellsList(ts: seq<Tok>, i: nat, ss: Syns)
    decreases ss
  {
    match ss
    case NoSyns => true
    case Syns(head, tail) =>
      && Spells(ts, i, head)
      && (tail.Syns? ==> TokenAt(ts, i + Len(head), Fixed(TComma)) && SpellsList(ts, i + Len(head) + 1, tail))
  }

  /** Newlines, `else`, newlines. */
  ghost predicate ElseAt(ts: seq<Tok>, i: nat, before: seq<Tok>, after: seq<Tok>) {
    TokensAt(ts, i, before) && TokenAt(ts, i + |before|, Fixed(TElse)) && TokensAt(ts, i + |before| + 1, after)
  }

  ghost predicate SpellsElse(ts: seq<Tok>, i: nat, e: Else)
    decreases e
  {
    match e
    case NoElse => true
    case ElseIf(before, after, nested) =>
      ElseAt(ts, i, before, after) && Spells(ts, i + |before| + 1 + |after|, nested)
    case ElseBlock(before, after, items) =>
      var arm := i + |before| + 1 + |after|;
      ElseAt(ts, i, before, after) && Braces(ts, arm, arm + 1 + LenItems(items)) && SpellsItems(ts, arm + 1, items)
  }

  ghost predicate SpellsStmt(ts: seq<Tok>, i: nat, s: Stmt)
    decreases s
  {
    match s
    case Expression(e) => Spells(ts, i, e)
    case Return(e) => TokenAt(ts, i, Fixed(TReturn)) && Spells(ts, i + 1, e)
    case Decl(isConst, declared, init) =>
      && TokenAt(ts, i, Fixed(DeclKeyword(isConst))) && TokenAt(ts, i + 1, declared)
      && (!init.Missing? ==> TokenAt(ts, i + 2, Fixed(TEquals)) && Spells(ts, i + 3, init))
    case Func(keyword, named, params, block) =>
      && TokenAt(ts, i, keyword) && SpellsSignature(ts, i + 1, named, params)
      && Braces(ts, i + LenSignature(named, params), i + LenSignature(named, params) + 1 + LenItems(block))
      && SpellsItems(ts, i + LenSignature(named, params) + 1, block)
  }

  ghost predicate SpellsSignature(ts: seq<Tok>, i: nat, named: Option<string>, params: Params) {
    var afterName := i + (if named.Some? then 1 else 0);
    && (named.Some? ==> TokenAt(ts, i, Tok(TIdent, named.value)))
    && (params.Params? ==>
          && TokenAt(ts, afterName, Fixed(TLParen)) && SpellsParams(ts, afterName + 1, params)
          && TokenAt(ts, afterName + 1 + LenParams(params), Fixed(TRParen)))
  }

  ghost predicate SpellsItems(ts: seq<Tok>, i: nat, items: Items)
    decreases items
  {
    match items
    case NoItems => true
    case Sep(mark, rest) => TokenAt(ts, i, mark) && SpellsItems(ts, i + 1, rest)
    case Item(stmt, rest) => SpellsStmt(ts, i, stmt) && SpellsItems(ts, i + LenStmt(stmt), rest)
  }

  ghost predicate SpellsParams(ts: seq<Tok>, i: nat, ps: Params)
    decreases ps
  {
    match ps
    case NoParams => true
    case Params(name, typ, more) =>
      var afterName := i + 1 + (if typ.Some? then 2 else 0);
      && TokenAt(ts, i, name)
      && (typ.Some? ==> TokenAt(ts, i + 1, Fixed(TColon)) && TokenAt(ts, i + 2, Tok(TIdent, typ.value)))
      && (more.Params? ==> TokenAt(ts, afterName, Fixed(TComma)) && SpellsParams(ts, afterName + 1, more))
  }
}
