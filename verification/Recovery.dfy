/**
 One token short: what the parser makes of an expression that lacks a closing token, a colon, a member's
 name or an operand, and of a block without its opening brace. Exactly one error is counted, and every
 token that is there is still read.
 */
module Recovery {
  import opened Tokens
  import opened Numbers
  import opened Syntax
  import opened ParserSpec
  import opened Grammar
  import opened RoundTrip
  import opened Spelled
  import opened ParserTheorems
  import opened Ladder

  /** The tokens from `pos` to `end` are those of `s`, and the next one does not go on with it. */
  ghost predicate StandsAlone(ts: seq<Tok>, pos: nat, end: nat, s: Syn) {
    end == pos + |Yield(s)| && TokensAt(ts, pos, Yield(s)) && Ends(ts, end, s)
  }

  lemma {:induction false} ReadAlone(ts: seq<Tok>, pos: nat, end: nat, s: Syn)
    requires Reads(s, Any) && StandsAlone(ts, pos, end, s)
    ensures Expr(ts, pos, PREC_LOWEST) == Done(s, end, 0)
  {
    hide WellBound, Yield, Reads, Edge, OpenIf, ElseFree, Expr, GoesOn, Precedence, TokensAt;
    BoundReads(s, PREC_LOWEST);
    GoingOn(ts[end].kind);
    ExpressionRoundTrip(ts, pos, s, PREC_LOWEST);
  }

  /** Where an expression stops. */
  lemma {:induction false} LoopEnds(ts: seq<Tok>, pos: nat, s: Syn)
    requires pos < |ts| && !GoesOn(ts[pos].kind)
    ensures Loop(ts, pos, s, PREC_LOWEST) == Done(s, pos, 0)
  {
    hide GoesOn, RuleOf;
    GoingOn(ts[pos].kind);
  }

  /** Tokens that an expression can start with. */
  predicate Starts(k: TokenType) {
    || k == TNum || k == TString || k == TIdent || k == TNil || k == TTrue || k == TFalse
    || k == TLParen || k == TLSqBracket || k == TMinus || k == TNot || k == TIf || k == TFor
  }

  lemma StartingRules(k: TokenType)
    ensures Starts(k) <==> !RuleOf(k).prefix.NoPrefix?
  {
    StartsHavePrefix(k);
    PrefixStarts(k);
  }

  lemma StartsHavePrefix(k: TokenType)
    ensures Starts(k) ==> !RuleOf(k).prefix.NoPrefix?
  {
  }

  lemma PrefixStarts(k: TokenType)
    ensures !RuleOf(k).prefix.NoPrefix? ==> Starts(k)
  {
  }

  /** A token that no expression starts with is one error; it is passed over, and there is no expression. */
  lemma {:induction false} NoExpression(ts: seq<Tok>, pos: nat, prec: nat)
    requires pos < |ts| && !Starts(ts[pos].kind)
    ensures Expr(ts, pos, prec) == Done(Missing, pos + 1, 1)
  {
    hide RuleOf, Starts;
    StartingRules(ts[pos].kind);
  }

  /** A number that does not fit is one error, and its leaf is kept. */
  lemma {:induction false} BadNumber(ts: seq<Tok>, pos: nat)
    requires pos + 1 < |ts| && ts[pos].kind == TNum && FittingNumeral(ts[pos].text).None? && !GoesOn(ts[pos + 1].kind)
    ensures Expr(ts, pos, PREC_LOWEST) == Done(Leaf(ts[pos]), pos + 1, 1)
  {
    hide GoesOn, FittingNumeral;
    LoopEnds(ts, pos + 1, Leaf(ts[pos]));
  }

  /** Parentheses without the closing one. */
  lemma {:induction false} OpenGroup(ts: seq<Tok>, pos: nat, end: nat, e: Syn)
    requires KindAt(ts, pos, TLParen) && Reads(e, Any) && StandsAlone(ts, pos + 1, end, e) && ts[end].kind != TRParen
    ensures Expr(ts, pos, PREC_LOWEST) == Done(Group(e), end, 1)
  {
    hide GoesOn, Reads, Yield, OpenIf, ElseFree, Loop, RuleOf;
    ReadAlone(ts, pos + 1, end, e);
    OpenGroupPrefix(ts, pos, e, end);
    LoopEnds(ts, end, Group(e));
  }

  lemma {:induction false} OpenGroupPrefix(ts: seq<Tok>, pos: nat, e: Syn, end: nat)
    requires KindAt(ts, pos, TLParen) && Expr(ts, pos + 1, PREC_LOWEST) == Done(e, end, 0)
    requires end < |ts| && ts[end].kind != TRParen
    ensures !RuleOf(ts[pos].kind).prefix.NoPrefix? && Prefix(ts, pos) == Done(Group(e), end, 1)
  {
    hide Expr;
  }

  /** What is called, indexed or asked for a member. */
  lemma {:induction false} ReadBase(ts: seq<Tok>, pos: nat, b: Syn)
    requires Reads(b, Postfix) && TokensAt(ts, pos, Yield(b))
    requires var q := pos + |Yield(b)|;
             KindAt(ts, q, TLParen) || KindAt(ts, q, TLSqBracket) || KindAt(ts, q, TDot)
    ensures Expr(ts, pos, PREC_LOWEST) == Loop(ts, pos + |Yield(b)|, b, PREC_LOWEST)
  {
    hide Reads, Yield, Edge, Expr, Loop, Shaped, Bound, Spells, TokensAt, RuleOf, Len;
    ReadsTop(b, Postfix);
    EdgeOfRead(b);
    BoundReads(b, PREC_LOWEST);
    SpelledSyn(ts, pos, b);
    FixedTokens();
    ReadLeft(ts, pos, b, PREC_LOWEST, ts[pos + |Yield(b)|].kind);
  }

  /** An index without its closing bracket. */
  lemma {:induction false} OpenIndex(ts: seq<Tok>, pos: nat, q: nat, end: nat, b: Syn, i: Syn)
    requires Reads(b, Postfix) && TokensAt(ts, pos, Yield(b)) && q == pos + |Yield(b)| && KindAt(ts, q, TLSqBracket)
    requires Reads(i, Any) && StandsAlone(ts, q + 1, end, i) && ts[end].kind != TRSqBracket
    ensures Expr(ts, pos, PREC_LOWEST) == Done(Index(b, i), end, 1)
  {
    hide GoesOn, Reads, Yield, OpenIf, ElseFree, Expr;
    ReadBase(ts, pos, b);
    ReadAlone(ts, q + 1, end, i);
    LoopEnds(ts, end, Index(b, i));
  }

  /** A dot without a name after it. */
  lemma {:induction false} NoMember(ts: seq<Tok>, pos: nat, q: nat, b: Syn)
    requires Reads(b, Postfix) && TokensAt(ts, pos, Yield(b)) && q == pos + |Yield(b)| && KindAt(ts, q, TDot)
    requires q + 1 < |ts| && ts[q + 1].kind != TIdent && !GoesOn(ts[q + 1].kind)
    ensures Expr(ts, pos, PREC_LOWEST) == Done(Dot(b, None), q + 1, 1)
  {
    hide GoesOn, Reads, Yield, Expr;
    ReadBase(ts, pos, b);
    LoopEnds(ts, q + 1, Dot(b, None));
  }

  ghost function LastOf(ss: Syns): Syn
    requires ss.Syns?
  {
    if ss.tail.NoSyns? then ss.head else LastOf(ss.tail)
  }

  lemma {:induction false} EndsFollows(ts: seq<Tok>, end: nat, s: Syn)
    requires Ends(ts, end, s)
    ensures end < |ts| && Follows(ts, end, s) && Precedence(ts[end].kind) == PREC_LOWEST
  {
    hide GoesOn, RuleOf, Edge, OpenIf, ElseFree;
    GoingOn(ts[end].kind);
  }

  /** Arguments up to a token that goes on with none of them. */
  lemma {:induction false} ReadOpenArguments(ts: seq<Tok>, pos: nat, args: Syns)
    requires args.Syns? && FitsList(ts, pos, args, PREC_COMMA, false) && Ends(ts, pos + LenList(args), LastOf(args))
    ensures ArgumentList(ts, pos) == Done(args, pos + LenList(args), 0)
    decreases args
  {
    hide Fits, FitsList, FitsItems, FitsElse, FitsStmt, Follows, Len, LenList, LenItems, LenElse, LenStmt, Edge, OpenIf;
    hide OpenElse, ElseFree, SkipNewlines, Expr, Loop, Prefix, Extend, Arguments, ArgumentList, Elements;
    hide Statements, Statement, IfExpr, ElseArm, Block, TokensAt, ElseAt, Newlines, ShapedLeaf, SpellsSignature, RuleOf, Fixed;
    hide Ends, GoesOn, Precedence;
    var after := pos + Len(args.head);
    ListParts(ts, pos, args, PREC_COMMA, false);
    CommaBinds();
    if args.tail.Syns? {
      ReadDelimited(ts, pos, args.head, PREC_COMMA, TComma);
      ReadOpenArguments(ts, after + 1, args.tail);
      NextArgument(ts, pos, args.head, after, args.tail, pos + LenList(args));
    } else {
      EndsFollows(ts, after, args.head);
      ReadOperand(ts, pos, args.head, PREC_COMMA);
      FinalArgument(ts, pos, args.head, after);
    }
  }

  lemma CommaBinds()
    ensures Precedence(TComma) == PREC_COMMA && GoesOn(TComma) && PREC_LOWEST <= PREC_COMMA
  {
  }

  lemma NextArgument(ts: seq<Tok>, pos: nat, e: Syn, after: nat, more: Syns, end: nat)
    requires Expr(ts, pos, PREC_COMMA) == Done(e, after, 0) && KindAt(ts, after, TComma)
    requires ArgumentList(ts, after + 1) == Done(more, end, 0)
    ensures ArgumentList(ts, pos) == Done(Syns(e, more), end, 0)
  {
    hide Expr;
  }

  lemma {:induction false} FinalArgument(ts: seq<Tok>, pos: nat, e: Syn, after: nat)
    requires Expr(ts, pos, PREC_COMMA) == Done(e, after, 0) && Ends(ts, after, e)
    ensures ArgumentList(ts, pos) == Done(Syns(e, NoSyns), after, 0)
  {
    hide Expr, OpenIf, ElseFree;
  }

  lemma {:induction false} ExtendOpenCall(ts: seq<Tok>, q: nat, f: Syn, args: Syns, end: nat)
    requires KindAt(ts, q, TLParen) && q + 1 < |ts| && ts[q + 1].kind != TRParen
    requires ArgumentList(ts, q + 1) == Done(args, end, 0) && end < |ts| && ts[end].kind != TRParen
    ensures Loop(ts, q, f, PREC_LOWEST) == Loop(ts, end, Call(f, args), PREC_LOWEST).After(1)
  {
    hide ArgumentList, Loop, RuleOf;
    FixedTokens();
    OpenCallStep(ts, q, f, args, end);
    LoopGoesOn(ts, q, f, end, Call(f, args), 1);
  }

  lemma {:induction false} OpenCallStep(ts: seq<Tok>, q: nat, f: Syn, args: Syns, end: nat)
    requires KindAt(ts, q, TLParen) && q + 1 < |ts| && ts[q + 1].kind != TRParen
    requires ArgumentList(ts, q + 1) == Done(args, end, 0) && end < |ts| && ts[end].kind != TRParen
    ensures Extend(ts, q, f) == Done(Call(f, args), end, 1)
  {
    hide ArgumentList;
  }

  lemma {:induction false} LoopGoesOn(ts: seq<Tok>, q: nat, l: Syn, end: nat, s: Syn, errors: nat)
    requires q < |ts| && Precedence(ts[q].kind) > PREC_LOWEST && Extend(ts, q, l) == Done(s, end, errors)
    ensures Loop(ts, q, l, PREC_LOWEST) == Loop(ts, end, s, PREC_LOWEST).After(errors)
  {
    hide Extend, RuleOf;
  }

  /** A call without its closing parenthesis. */
  lemma {:induction false} OpenCall(ts: seq<Tok>, pos: nat, q: nat, end: nat, f: Syn, args: Syns)
    requires Reads(f, Postfix) && TokensAt(ts, pos, Yield(f)) && q == pos + |Yield(f)| && KindAt(ts, q, TLParen)
    requires args.Syns? && ReadsArguments(args) && TokensAt(ts, q + 1, YieldList(args)) && end == q + 1 + |YieldList(args)|
    requires Ends(ts, end, LastOf(args)) && ts[end].kind != TRParen && ts[q + 1].kind != TRParen
    ensures Expr(ts, pos, PREC_LOWEST) == Done(Call(f, args), end, 1)
  {
    hide GoesOn, Reads, Yield, OpenIf, ElseFree, Expr, ArgumentList, YieldList, ShapedAll, BoundList, SpellsList, ReadsArguments;
    hide Loop, RuleOf, LastOf;
    ReadBase(ts, pos, f);
    ArgumentsRead(args);
    SpelledList(ts, q + 1, args);
    ReadOpenArguments(ts, q + 1, args);
    ExtendOpenCall(ts, q, f, args, end);
    LoopEnds(ts, end, Call(f, args));
  }

  /** A ternary without its colon. */
  lemma {:induction false} NoColon(ts: seq<Tok>, pos: nat, q: nat, m: nat, end: nat, c: Syn, y: Syn, n: Syn)
    requires Reads(c, Conditional) && TokensAt(ts, pos, Yield(c)) && q == pos + |Yield(c)| && KindAt(ts, q, TQuestion)
    requires Reads(y, Any) && StandsAlone(ts, q + 1, m, y) && ts[m].kind != TColon
    requires Reads(n, Ranged) && StandsAlone(ts, m, end, n)
    ensures Expr(ts, pos, PREC_LOWEST) == Done(Ternary(c, y, n), end, 1)
  {
    hide GoesOn, Reads, Yield, OpenIf, ElseFree, Expr, Shaped, Bound, Spells, Edge, Len, Ends, Loop, RuleOf;
    ReadAlone(ts, q + 1, m, y);
    SpelledSyn(ts, pos, c);
    ReadsTop(c, Conditional);
    EdgeOfRead(c);
    ConditionalEdge(c);
    BoundReads(c, PREC_LOWEST);
    FixedTokens();
    ReadLeft(ts, pos, c, PREC_LOWEST, TQuestion);
    SpelledSyn(ts, m, n);
    BoundReads(n, PREC_TERNARY);
    EndsFollows(ts, end, n);
    ReadOperand(ts, m, n, PREC_TERNARY);
    StopsThere(ts, end, n);
    NoColonStep(ts, q, c, y, m, n, end);
    LoopGoesOn(ts, q, c, end, Ternary(c, y, n), 1);
    LoopEnds(ts, end, Ternary(c, y, n));
  }

  lemma {:induction false} NoColonStep(ts: seq<Tok>, q: nat, c: Syn, y: Syn, m: nat, n: Syn, end: nat)
    requires KindAt(ts, q, TQuestion) && Expr(ts, q + 1, PREC_LOWEST) == Done(y, m, 0)
    requires m < |ts| && ts[m].kind != TColon && Expr(ts, m, PREC_TERNARY) == Done(n, end, 0)
    ensures Extend(ts, q, c) == Done(Ternary(c, y, n), end, 1)
  {
    hide Expr;
  }

  lemma StopsThere(ts: seq<Tok>, end: nat, s: Syn)
    requires Ends(ts, end, s)
    ensures end < |ts| && !GoesOn(ts[end].kind)
  {
  }

  lemma {:induction false} ConditionalEdge(c: Syn)
    requires TopFits(c, Conditional) && Reads(c, Any)
    ensures PREC_TERNARY <= TopEdge(c)
  {
  }

  /** Elements up to a token that goes on with none of them. */
  lemma {:induction false} ReadOpenElements(ts: seq<Tok>, pos: nat, elems: Syns)
    requires elems.Syns? && FitsList(ts, pos, elems, PREC_HIGHEST, false) && Ends(ts, pos + LenList(elems), LastOf(elems))
    ensures Elements(ts, pos) == Done(ElemList(elems, false), pos + LenList(elems), 0)
    decreases elems
  {
    hide Fits, FitsList, FitsItems, FitsElse, FitsStmt, Follows, Len, LenList, LenItems, LenElse, LenStmt, Edge, OpenIf;
    hide OpenElse, ElseFree, SkipNewlines, Expr, Loop, Prefix, Extend, Arguments, ArgumentList, Elements;
    hide Statements, Statement, IfExpr, ElseArm, Block, TokensAt, ElseAt, Newlines, ShapedLeaf, SpellsSignature, RuleOf, Fixed;
    hide Ends, GoesOn, Precedence;
    var after := pos + Len(elems.head);
    ListParts(ts, pos, elems, PREC_HIGHEST, false);
    ExpressionStart(ts, pos, elems.head, PREC_HIGHEST);
    CommaBinds();
    if elems.tail.Syns? {
      ReadDelimited(ts, pos, elems.head, PREC_HIGHEST, TComma);
      ReadOpenElements(ts, after + 1, elems.tail);
      ElementStep(ts, pos, elems.head, after, elems.tail, false, pos + LenList(elems));
    } else {
      EndsFollows(ts, after, elems.head);
      ReadOperand(ts, pos, elems.head, PREC_HIGHEST);
      NoCommaThere(ts, after, elems.head);
      LastElement(ts, pos, elems.head, after);
    }
  }

  lemma NoCommaThere(ts: seq<Tok>, end: nat, s: Syn)
    requires Ends(ts, end, s)
    ensures ts[end].kind != TComma
  {
  }

  /** Brackets without the closing one. */
  lemma {:induction false} OpenArray(ts: seq<Tok>, pos: nat, end: nat, elems: Syns)
    requires KindAt(ts, pos, TLSqBracket) && elems.Syns? && ReadsElements(elems)
    requires TokensAt(ts, pos + 1, YieldList(elems)) && end == pos + 1 + |YieldList(elems)| && Ends(ts, end, LastOf(elems))
    requires ts[end].kind != TRSqBracket && ts[end].kind != TSemicolon
    ensures Expr(ts, pos, PREC_LOWEST) == Done(Array(elems, false, Missing), end, 1)
  {
    hide GoesOn, OpenIf, ElseFree, Elements, YieldList, ShapedAll, BoundList, SpellsList, ReadsElements, LastOf, Loop, RuleOf;
    ElementsRead(elems, false);
    SpelledList(ts, pos + 1, elems);
    ReadOpenElements(ts, pos + 1, elems);
    OpenArrayPrefix(ts, pos, elems, end);
    LoopEnds(ts, end, Array(elems, false, Missing));
  }

  lemma {:induction false} OpenArrayPrefix(ts: seq<Tok>, pos: nat, elems: Syns, end: nat)
    requires KindAt(ts, pos, TLSqBracket) && Elements(ts, pos + 1) == Done(ElemList(elems, false), end, 0)
    requires end < |ts| && ts[end].kind != TRSqBracket && ts[end].kind != TSemicolon
    ensures !RuleOf(ts[pos].kind).prefix.NoPrefix? && Prefix(ts, pos) == Done(Array(elems, false, Missing), end, 1)
  {
    hide Elements;
  }

  /** A repeat count after more than one element is one error; the elements and the count are all kept. */
  lemma {:induction false} ManyRepeated(ts: seq<Tok>, pos: nat, q: nat, end: nat, elems: Syns, length: Syn)
    requires KindAt(ts, pos, TLSqBracket) && elems.Syns? && elems.tail.Syns? && ReadsElements(elems)
    requires TokensAt(ts, pos + 1, YieldList(elems)) && q == pos + 1 + |YieldList(elems)| && KindAt(ts, q, TSemicolon)
    requires Reads(length, Any) && StandsAlone(ts, q + 1, end, length) && ts[end].kind == TRSqBracket
    requires end + 1 < |ts| && !GoesOn(ts[end + 1].kind)
    ensures Expr(ts, pos, PREC_LOWEST) == Done(Array(elems, false, length), end + 1, 1)
  {
    hide GoesOn, Elements, Yield, YieldList, ShapedAll, BoundList, SpellsList, ReadsElements, Reads, Loop, RuleOf, StandsAlone;
    ElementsRead(elems, false);
    SpelledList(ts, pos + 1, elems);
    ReadElements(ts, pos + 1, elems, false, TSemicolon);
    ReadAlone(ts, q + 1, end, length);
    RepeatPrefix(ts, pos, elems, q, length, end);
    LoopEnds(ts, end + 1, Array(elems, false, length));
  }

  lemma {:induction false} RepeatPrefix(ts: seq<Tok>, pos: nat, elems: Syns, q: nat, length: Syn, end: nat)
    requires KindAt(ts, pos, TLSqBracket) && Elements(ts, pos + 1) == Done(ElemList(elems, false), q, 0)
    requires elems.Syns? && elems.tail.Syns? && KindAt(ts, q, TSemicolon)
    requires Expr(ts, q + 1, PREC_LOWEST) == Done(length, end, 0) && KindAt(ts, end, TRSqBracket)
    ensures !RuleOf(ts[pos].kind).prefix.NoPrefix? && Prefix(ts, pos) == Done(Array(elems, false, length), end + 1, 1)
  {
    hide Elements, Expr;
  }

  // ----- Blocks -----

  /** The statements from `pos` on, up to their closing brace. */
  ghost predicate BodyAt(ts: seq<Tok>, pos: nat, close: nat, items: Items) {
    ReadsItems(items) && TokensAt(ts, pos, YieldItems(items)) && close == pos + |YieldItems(items)| && KindAt(ts, close, TRBrace)
  }

  lemma {:induction false} ReadBody(ts: seq<Tok>, pos: nat, close: nat, items: Items)
    requires BodyAt(ts, pos, close, items)
    ensures Block(ts, pos) == Done(items, close + 1, 0)
  {
    hide ReadsItems, YieldItems, ShapedItems, BoundItems, SpellsItems, Statements;
    ItemsRead(items);
    SpelledItems(ts, pos, items);
    ReadItems(ts, pos, items, TRBrace);
  }

  /** An `if` without the opening brace of its block. */
  lemma {:induction false} NoThenBrace(ts: seq<Tok>, pos: nat, m: nat, brace: nat, close: nat, c: Syn, items: Items)
    requires Reads(c, Any) && StandsAlone(ts, pos, m, c) && SkipNewlines(ts, m) == brace && m <= brace
    requires brace < |ts| && ts[brace].kind != TLBrace && BodyAt(ts, brace, close, items) && ElseFree(ts, close + 1)
    ensures IfExpr(ts, pos) == Done(If(c, ts[m..brace], items, NoElse), close + 1, 1)
  {
    hide Reads, StandsAlone, BodyAt, Expr, SkipNewlines, Block, ElseArm, ElseFree;
    ReadAlone(ts, pos, m, c);
    ReadBody(ts, brace, close, items);
    NoArm(ts, close + 1);
  }

  lemma {:induction false} NoArm(ts: seq<Tok>, pos: nat)
    requires ElseFree(ts, pos)
    ensures ElseArm(ts, pos) == Done(NoElse, pos, 0)
  {
    hide SkipNewlines, IfExpr, Block;
  }

  /** A function without parameters and without the opening brace of its block. */
  lemma {:induction false} NoFunctionBrace(ts: seq<Tok>, pos: nat, close: nat, items: Items)
    requires pos + 2 < |ts| && ts[pos + 1].kind == TIdent && ts[pos + 2].kind != TLParen && ts[pos + 2].kind != TLBrace
    requires BodyAt(ts, pos + 2, close, items)
    ensures FuncDecl(ts, pos) == Done(Func(ts[pos], Some(ts[pos + 1].text), NoParams, items), close + 1, 1)
  {
    hide BodyAt, Block;
    ReadBody(ts, pos + 2, close, items);
  }

  /** A parameter list without its closing parenthesis: one error, and the block is still read. */
  lemma {:induction false} OpenParameters(ts: seq<Tok>, pos: nat, name: Tok, close: nat, items: Items)
    requires pos + 4 < |ts| && ts[pos + 1].kind == TIdent && ts[pos + 2].kind == TLParen && ts[pos + 3] == name
    requires ts[pos + 4].kind == TLBrace && BodyAt(ts, pos + 5, close, items)
    ensures FuncDecl(ts, pos) == Done(Func(ts[pos], Some(ts[pos + 1].text), Params(name, None, NoParams), items), close + 1, 1)
  {
    hide BodyAt, Block;
    ReadBody(ts, pos + 5, close, items);
    assert ParameterList(ts, pos + 3) == Done(Params(name, None, NoParams), pos + 4, 0);
  }
}
