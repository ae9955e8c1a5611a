/** Every well-bound derivation is read back: the parser returns it and stops right after it. */
module RoundTrip {
  import opened Tokens
  import opened Syntax
  import opened ParserSpec
  import opened Grammar

  lemma {:induction false} SkipOver(ts: seq<Tok>, i: nat, w: seq<Tok>)
    requires TokensAt(ts, i, w) && Newlines(w)
    requires i + |w| < |ts| && ts[i + |w|].kind != TNewline
    ensures SkipNewlines(ts, i) == i + |w|
    decreases |w|
  {
    if w != [] {
      assert ts[i] == ts[i..i + |w|][0] == w[0];
      assert ts[i + 1..i + |w|] == ts[i..i + |w|][1..] == w[1..];
      SkipOver(ts, i + 1, w[1..]);
    }
  }

  /** The tokens at `pos` spell `s`, which is well shaped and bound for calling precedence `prec`. */
  ghost predicate Fits(ts: seq<Tok>, pos: nat, s: Syn, prec: nat) {
    Shaped(s) && Bound(s, prec) && Spells(ts, pos, s)
  }

  ghost predicate FitsList(ts: seq<Tok>, pos: nat, ss: Syns, prec: nat, comma: bool) {
    ShapedAll(ss) && BoundList(ss, prec, comma) && SpellsList(ts, pos, ss)
  }

  ghost predicate FitsItems(ts: seq<Tok>, pos: nat, items: Items) {
    ShapedItems(items) && BoundItems(items) && SpellsItems(ts, pos, items)
  }

  ghost predicate FitsElse(ts: seq<Tok>, pos: nat, e: Else) {
    ShapedElse(e) && BoundElse(e) && SpellsElse(ts, pos, e)
  }

  ghost predicate FitsStmt(ts: seq<Tok>, pos: nat, s: Stmt) {
    ShapedStmt(s) && BoundStmt(s) && SpellsStmt(ts, pos, s)
  }

  ghost predicate KindAt(ts: seq<Tok>, i: nat, k: TokenType) {
    i < |ts| && ts[i].kind == k
  }

  // ----- Taking a derivation apart -----

  lemma FixedTokens()
    ensures forall k :: Fixed(k).kind == k
    ensures Precedence(TQuestion) == PREC_TERNARY
    ensures Precedence(TLParen) == Precedence(TLSqBracket) == Precedence(TDot) == PREC_CALL
  {
  }

  /** The definitions, shape by shape. */
  lemma {:induction false} SpelledParts(ts: seq<Tok>, i: nat, s: Syn)
    requires Spells(ts, i, s)
    ensures s.Unary? ==> TokenAt(ts, i, Fixed(s.op)) && Spells(ts, i + 1, s.operand)
    ensures s.Group? ==>
              && TokenAt(ts, i, Fixed(TLParen)) && Spells(ts, i + 1, s.inner)
              && TokenAt(ts, i + 1 + Len(s.inner), Fixed(TRParen))
    ensures s.Infix? ==>
              && Spells(ts, i, s.lhs) && TokenAt(ts, i + Len(s.lhs), Fixed(s.infix))
              && Spells(ts, i + Len(s.lhs) + 1, s.rhs)
    ensures s.Ternary? ==>
              var colon := i + Len(s.cond) + 1 + Len(s.yes);
              && Spells(ts, i, s.cond) && TokenAt(ts, i + Len(s.cond), Fixed(TQuestion))
              && Spells(ts, i + Len(s.cond) + 1, s.yes) && TokenAt(ts, colon, Fixed(TColon)) && Spells(ts, colon + 1, s.no)
    ensures s.Call? ==>
              && Spells(ts, i, s.callee) && TokenAt(ts, i + Len(s.callee), Fixed(TLParen))
              && SpellsList(ts, i + Len(s.callee) + 1, s.args)
              && TokenAt(ts, i + Len(s.callee) + 1 + LenList(s.args), Fixed(TRParen))
    ensures s.Index? ==>
              && Spells(ts, i, s.base) && TokenAt(ts, i + Len(s.base), Fixed(TLSqBracket))
              && Spells(ts, i + Len(s.base) + 1, s.index)
              && TokenAt(ts, i + Len(s.base) + 1 + Len(s.index), Fixed(TRSqBracket))
    ensures s.Dot? ==>
              && Spells(ts, i, s.owner) && TokenAt(ts, i + Len(s.owner), Fixed(TDot))
              && TokenAt(ts, i + Len(s.owner) + 1, Tok(TIdent, s.member.GetOr("")))
    ensures s.If? ==>
              var brace := i + 1 + Len(s.test) + |s.newlines|;
              && TokenAt(ts, i, Fixed(TIf)) && Spells(ts, i + 1, s.test)
              && TokensAt(ts, i + 1 + Len(s.test), s.newlines) && Braces(ts, brace, brace + 1 + LenItems(s.body))
              && SpellsItems(ts, brace + 1, s.body) && SpellsElse(ts, brace + 1 + LenItems(s.body) + 1, s.els)
  {
    hide TokenAt, TokensAt, Braces, SpellsList, SpellsItems, SpellsElse, Fixed, Len, LenList, LenItems;
  }

  lemma {:induction false} BoundParts(s: Syn, prec: nat)
    requires Bound(s, prec)
    ensures s.Unary? ==> Bound(s.operand, PREC_UNARY)
    ensures s.Group? ==> Bound(s.inner, PREC_LOWEST)
    ensures s.Infix? ==>
              && LeftFits(s.lhs, prec, Precedence(s.infix)) && Bound(s.lhs, prec)
              && Bound(s.rhs, RightPrecedence(s.infix))
    ensures s.Ternary? ==>
              && LeftFits(s.cond, prec, PREC_TERNARY) && Bound(s.cond, prec)
              && Bound(s.yes, PREC_LOWEST) && Bound(s.no, PREC_TERNARY)
    ensures s.Call? ==> LeftFits(s.callee, prec, PREC_CALL) && Bound(s.callee, prec) && BoundList(s.args, PREC_COMMA, false)
    ensures s.Index? ==> LeftFits(s.base, prec, PREC_CALL) && Bound(s.base, prec) && Bound(s.index, PREC_LOWEST)
    ensures s.Dot? ==> LeftFits(s.owner, prec, PREC_CALL) && Bound(s.owner, prec)
    ensures s.If? ==> Bound(s.test, PREC_LOWEST) && BoundItems(s.body) && BoundElse(s.els)
  {
    hide LeftFits, BoundList, BoundItems, BoundElse, Precedence, RightPrecedence;
  }

  lemma {:induction false} ShapedParts(s: Syn)
    requires Shaped(s)
    ensures s.Unary? ==> RuleOf(s.op).prefix.UnaryPrefix? && Shaped(s.operand)
    ensures s.Group? ==> Shaped(s.inner)
    ensures s.Infix? ==> IsInfix(s.infix) && Shaped(s.lhs) && Shaped(s.rhs)
    ensures s.Ternary? ==> Shaped(s.cond) && Shaped(s.yes) && Shaped(s.no)
    ensures s.Call? ==> Shaped(s.callee) && ShapedAll(s.args)
    ensures s.Index? ==> Shaped(s.base) && Shaped(s.index)
    ensures s.Dot? ==> Shaped(s.owner) && s.member.Some?
    ensures s.If? ==> Shaped(s.test) && Newlines(s.newlines) && ShapedItems(s.body) && ShapedElse(s.els)
  {
    hide IsInfix, ShapedAll, ShapedItems, ShapedElse, Newlines, ShapedLeaf;
  }

  lemma {:induction false} LenParts(s: Syn)
    ensures s.Unary? ==> Len(s) == 1 + Len(s.operand)
    ensures s.Group? ==> Len(s) == 1 + Len(s.inner) + 1
    ensures s.Infix? ==> Len(s) == Len(s.lhs) + 1 + Len(s.rhs)
    ensures s.Ternary? ==> Len(s) == Len(s.cond) + 1 + Len(s.yes) + 1 + Len(s.no)
    ensures s.Call? ==> Len(s) == Len(s.callee) + 1 + LenList(s.args) + 1
    ensures s.Index? ==> Len(s) == Len(s.base) + 1 + Len(s.index) + 1
    ensures s.Dot? ==> Len(s) == Len(s.owner) + 2
    ensures s.If? ==> Len(s) == 1 + Len(s.test) + |s.newlines| + 1 + LenItems(s.body) + 1 + LenElse(s.els)
  {
    hide LenList, LenItems, LenElse;
  }

  lemma {:induction false} InfixParts(ts: seq<Tok>, pos: nat, s: Syn, prec: nat)
    requires Fits(ts, pos, s, prec) && s.Infix?
    ensures var q := pos + Len(s.lhs);
            && Fits(ts, pos, s.lhs, prec) && KindAt(ts, q, s.infix) && IsInfix(s.infix)
            && prec < Precedence(s.infix) <= Edge(s.lhs)
            && Fits(ts, q + 1, s.rhs, RightPrecedence(s.infix)) && q + 1 + Len(s.rhs) == pos + Len(s)
  {
    hide Shaped, Bound, Spells, Len, Edge, Fixed, RuleOf, Spelling, Precedence, RightPrecedence, IsInfix, Newlines, TokensAt;
    hide SpellsList, SpellsItems, SpellsElse, LenList, LenItems, LenElse, ShapedAll, ShapedItems, ShapedElse, BoundList;
    hide BoundItems, BoundElse;
    FixedTokens();
    SpelledParts(ts, pos, s);
    BoundParts(s, prec);
    ShapedParts(s);
    LenParts(s);
  }

  lemma {:induction false} TernaryParts(ts: seq<Tok>, pos: nat, s: Syn, prec: nat)
    requires Fits(ts, pos, s, prec) && s.Ternary?
    ensures var q := pos + Len(s.cond);
            var colon := q + 1 + Len(s.yes);
            && Fits(ts, pos, s.cond, prec) && KindAt(ts, q, TQuestion) && prec < Precedence(TQuestion) <= Edge(s.cond)
            && Fits(ts, q + 1, s.yes, PREC_LOWEST) && KindAt(ts, colon, TColon)
            && Fits(ts, colon + 1, s.no, PREC_TERNARY) && colon + 1 + Len(s.no) == pos + Len(s)
  {
    hide Shaped, Bound, Spells, Len, Edge, Fixed, RuleOf, Spelling, Precedence, RightPrecedence, IsInfix, Newlines, TokensAt;
    hide SpellsList, SpellsItems, SpellsElse, LenList, LenItems, LenElse, ShapedAll, ShapedItems, ShapedElse, BoundList;
    hide BoundItems, BoundElse;
    FixedTokens();
    SpelledParts(ts, pos, s);
    BoundParts(s, prec);
    ShapedParts(s);
    LenParts(s);
  }

  lemma {:induction false} CallParts(ts: seq<Tok>, pos: nat, s: Syn, prec: nat)
    requires Fits(ts, pos, s, prec) && s.Call?
    ensures var q := pos + Len(s.callee);
            var close := q + 1 + LenList(s.args);
            && Fits(ts, pos, s.callee, prec) && KindAt(ts, q, TLParen) && prec < Precedence(TLParen) <= Edge(s.callee)
            && FitsList(ts, q + 1, s.args, PREC_COMMA, false)
            && KindAt(ts, close, TRParen) && close + 1 == pos + Len(s)
  {
    hide Shaped, Bound, Spells, Len, Edge, Fixed, RuleOf, Spelling, Precedence, RightPrecedence, IsInfix, Newlines, TokensAt;
    hide SpellsList, SpellsItems, SpellsElse, LenList, LenItems, LenElse, ShapedAll, ShapedItems, ShapedElse, BoundList;
    hide BoundItems, BoundElse;
    FixedTokens();
    SpelledParts(ts, pos, s);
    BoundParts(s, prec);
    ShapedParts(s);
    LenParts(s);
  }

  lemma {:induction false} IndexParts(ts: seq<Tok>, pos: nat, s: Syn, prec: nat)
    requires Fits(ts, pos, s, prec) && s.Index?
    ensures var q := pos + Len(s.base);
            var close := q + 1 + Len(s.index);
            && Fits(ts, pos, s.base, prec) && KindAt(ts, q, TLSqBracket) && prec < Precedence(TLSqBracket) <= Edge(s.base)
            && Fits(ts, q + 1, s.index, PREC_LOWEST)
            && KindAt(ts, close, TRSqBracket) && close + 1 == pos + Len(s)
  {
    hide Shaped, Bound, Spells, Len, Edge, Fixed, RuleOf, Spelling, Precedence, RightPrecedence, IsInfix, Newlines, TokensAt;
    hide SpellsList, SpellsItems, SpellsElse, LenList, LenItems, LenElse, ShapedAll, ShapedItems, ShapedElse, BoundList;
    hide BoundItems, BoundElse;
    FixedTokens();
    SpelledParts(ts, pos, s);
    BoundParts(s, prec);
    ShapedParts(s);
    LenParts(s);
  }

  lemma {:induction false} DotParts(ts: seq<Tok>, pos: nat, s: Syn, prec: nat)
    requires Fits(ts, pos, s, prec) && s.Dot?
    ensures var q := pos + Len(s.owner);
            && Fits(ts, pos, s.owner, prec) && KindAt(ts, q, TDot) && prec < Precedence(TDot) <= Edge(s.owner)
            && s.member.Some? && TokenAt(ts, q + 1, Tok(TIdent, s.member.value)) && q + 2 == pos + Len(s)
  {
    hide Shaped, Bound, Spells, Len, Edge, Fixed, RuleOf, Spelling, Precedence, RightPrecedence, IsInfix, Newlines, TokensAt;
    hide SpellsList, SpellsItems, SpellsElse, LenList, LenItems, LenElse, ShapedAll, ShapedItems, ShapedElse, BoundList;
    hide BoundItems, BoundElse;
    FixedTokens();
    SpelledParts(ts, pos, s);
    BoundParts(s, prec);
    ShapedParts(s);
    LenParts(s);
  }

  lemma {:induction false} UnaryParts(ts: seq<Tok>, pos: nat, s: Syn, prec: nat)
    requires Fits(ts, pos, s, prec) && s.Unary?
    ensures KindAt(ts, pos, s.op) && RuleOf(s.op).prefix.UnaryPrefix?
    ensures Fits(ts, pos + 1, s.operand, PREC_UNARY) && pos + 1 + Len(s.operand) == pos + Len(s)
  {
    hide Shaped, Bound, Spells, Len, Edge, Fixed, RuleOf, Spelling, Precedence, RightPrecedence, IsInfix, Newlines, TokensAt;
    hide SpellsList, SpellsItems, SpellsElse, LenList, LenItems, LenElse, ShapedAll, ShapedItems, ShapedElse, BoundList;
    hide BoundItems, BoundElse;
    FixedTokens();
    SpelledParts(ts, pos, s);
    BoundParts(s, prec);
    ShapedParts(s);
    LenParts(s);
  }

  lemma {:induction false} GroupParts(ts: seq<Tok>, pos: nat, s: Syn, prec: nat)
    requires Fits(ts, pos, s, prec) && s.Group?
    ensures KindAt(ts, pos, TLParen) && Fits(ts, pos + 1, s.inner, PREC_LOWEST)
    ensures KindAt(ts, pos + 1 + Len(s.inner), TRParen) && pos + 1 + Len(s.inner) + 1 == pos + Len(s)
  {
    hide Shaped, Bound, Spells, Len, Edge, Fixed, RuleOf, Spelling, Precedence, RightPrecedence, IsInfix, Newlines, TokensAt;
    hide SpellsList, SpellsItems, SpellsElse, LenList, LenItems, LenElse, ShapedAll, ShapedItems, ShapedElse, BoundList;
    hide BoundItems, BoundElse;
    FixedTokens();
    SpelledParts(ts, pos, s);
    BoundParts(s, prec);
    ShapedParts(s);
    LenParts(s);
  }

  lemma {:induction false} ArrayParts(ts: seq<Tok>, pos: nat, s: Syn, prec: nat)
    requires Fits(ts, pos, s, prec) && s.Array?
    ensures var end := pos + 1 + LenList(s.elems);
            && KindAt(ts, pos, TLSqBracket) && FitsList(ts, pos + 1, s.elems, PREC_HIGHEST, s.comma)
            && (s.comma ==> s.elems.Syns? && KindAt(ts, end, TComma))
            && (s.length.Missing? ==>
                  && KindAt(ts, end + (if s.comma then 1 else 0), TRSqBracket)
                  && end + (if s.comma then 1 else 0) + 1 == pos + Len(s))
            && (!s.length.Missing? ==>
                  && !s.comma && s.elems.Syns? && s.elems.tail.NoSyns? && KindAt(ts, end, TSemicolon)
                  && Fits(ts, end + 1, s.length, PREC_LOWEST)
                  && KindAt(ts, end + 1 + Len(s.length), TRSqBracket) && end + 1 + Len(s.length) + 1 == pos + Len(s))
  {
    hide Shaped, Bound, Spells, Len, Fixed, Fits, FitsList;
    ArrayElems(ts, pos, s, prec);
    if s.length.Missing? {
      BareArray(ts, pos, s, prec);
    } else {
      RepeatArray(ts, pos, s, prec);
    }
  }

  lemma {:induction false} ArrayElems(ts: seq<Tok>, pos: nat, s: Syn, prec: nat)
    requires Fits(ts, pos, s, prec) && s.Array?
    ensures KindAt(ts, pos, TLSqBracket) && FitsList(ts, pos + 1, s.elems, PREC_HIGHEST, s.comma)
    ensures s.comma ==> s.elems.Syns? && KindAt(ts, pos + 1 + LenList(s.elems), TComma)
  {
    hide RuleOf, Fixed, Precedence, ShapedAll, SpellsList, BoundList, LenList;
    FixedTokens();
  }

  lemma {:induction false} BareArray(ts: seq<Tok>, pos: nat, s: Syn, prec: nat)
    requires Fits(ts, pos, s, prec) && s.Array? && s.length.Missing?
    ensures var close := pos + 1 + LenList(s.elems) + (if s.comma then 1 else 0);
            KindAt(ts, close, TRSqBracket) && close + 1 == pos + Len(s)
  {
    hide RuleOf, Fixed, Precedence, ShapedAll, SpellsList, BoundList, LenList;
    FixedTokens();
  }

  lemma {:induction false} RepeatArray(ts: seq<Tok>, pos: nat, s: Syn, prec: nat)
    requires Fits(ts, pos, s, prec) && s.Array? && !s.length.Missing?
    ensures var end := pos + 1 + LenList(s.elems);
            && !s.comma && s.elems.Syns? && s.elems.tail.NoSyns? && KindAt(ts, end, TSemicolon)
            && Fits(ts, end + 1, s.length, PREC_LOWEST)
            && KindAt(ts, end + 1 + Len(s.length), TRSqBracket) && end + 1 + Len(s.length) + 1 == pos + Len(s)
  {
    hide RuleOf, Fixed, Precedence, ShapedAll, SpellsList, BoundList, LenList;
    FixedTokens();
  }

  lemma {:induction false} IfParts(ts: seq<Tok>, pos: nat, s: Syn, prec: nat)
    requires Fits(ts, pos, s, prec) && s.If?
    ensures var afterTest := pos + 1 + Len(s.test);
            var brace := afterTest + |s.newlines|;
            var afterBody := brace + 1 + LenItems(s.body) + 1;
            && KindAt(ts, pos, TIf) && Fits(ts, pos + 1, s.test, PREC_LOWEST)
            && TokensAt(ts, afterTest, s.newlines) && Newlines(s.newlines) && KindAt(ts, brace, TLBrace)
            && FitsItems(ts, brace + 1, s.body) && KindAt(ts, afterBody - 1, TRBrace)
            && FitsElse(ts, afterBody, s.els) && afterBody + LenElse(s.els) == pos + Len(s)
  {
    hide Shaped, Bound, Spells, Len, Edge, Fixed, RuleOf, Spelling, Precedence, RightPrecedence, IsInfix, Newlines, TokensAt;
    hide SpellsList, SpellsItems, SpellsElse, LenList, LenItems, LenElse, ShapedAll, ShapedItems, ShapedElse, BoundList;
    hide BoundItems, BoundElse;
    FixedTokens();
    SpelledParts(ts, pos, s);
    BoundParts(s, prec);
    ShapedParts(s);
    LenParts(s);
  }

  lemma {:induction false} ElseIfParts(ts: seq<Tok>, pos: nat, e: Else)
    requires FitsElse(ts, pos, e) && e.ElseIf?
    ensures ElseAt(ts, pos, e.before, e.after) && Newlines(e.before) && Newlines(e.after)
    ensures var arm := pos + |e.before| + 1 + |e.after|;
            e.nested.If? && Fits(ts, arm, e.nested, PREC_LOWEST) && arm + Len(e.nested) == pos + LenElse(e)
    ensures OpenElse(e) == OpenIf(e.nested)
  {
  }

  lemma {:induction false} ElseBlockParts(ts: seq<Tok>, pos: nat, e: Else)
    requires FitsElse(ts, pos, e) && e.ElseBlock?
    ensures ElseAt(ts, pos, e.before, e.after) && Newlines(e.before) && Newlines(e.after)
    ensures var arm := pos + |e.before| + 1 + |e.after|;
            && KindAt(ts, arm, TLBrace) && FitsItems(ts, arm + 1, e.items)
            && KindAt(ts, arm + 1 + LenItems(e.items), TRBrace)
            && arm + 1 + LenItems(e.items) + 1 == pos + LenElse(e)
  {
  }

  lemma {:induction false} ListParts(ts: seq<Tok>, pos: nat, ss: Syns, prec: nat, comma: bool)
    requires FitsList(ts, pos, ss, prec, comma) && ss.Syns?
    ensures Fits(ts, pos, ss.head, prec)
    ensures ss.tail.Syns? || comma ==> PREC_COMMA <= Edge(ss.head)
    ensures ss.tail.NoSyns? ==> LenList(ss) == Len(ss.head)
    ensures ss.tail.Syns? ==>
              && KindAt(ts, pos + Len(ss.head), TComma) && LenList(ss) == Len(ss.head) + 1 + LenList(ss.tail)
              && FitsList(ts, pos + Len(ss.head) + 1, ss.tail, prec, comma)
  {
  }

  lemma {:induction false} ItemParts(ts: seq<Tok>, pos: nat, items: Items)
    requires FitsItems(ts, pos, items) && items.Item?
    ensures var next := pos + LenStmt(items.stmt);
            FitsStmt(ts, pos, items.stmt) && FitsItems(ts, next, items.rest)
    ensures !items.rest.Item? && LenItems(items) == LenStmt(items.stmt) + LenItems(items.rest)
  {
  }

  // ----- What comes next -----

  /** A token that ends a newline run and binds no tighter than the right edge may follow. */
  lemma {:induction false} FollowedBy(ts: seq<Tok>, pos: nat, s: Syn, k: TokenType)
    requires KindAt(ts, pos, k) && k != TNewline && k != TElse && Precedence(k) <= Edge(s)
    ensures Follows(ts, pos, s)
  {
    hide Edge, OpenIf;
  }

  lemma FollowsOperand(ts: seq<Tok>, pos: nat, s: Syn)
    requires Follows(ts, pos, s)
    ensures s.Infix? ==> Follows(ts, pos, s.rhs) && Precedence(ts[pos].kind) <= RightPrecedence(s.infix)
    ensures s.Ternary? ==> Follows(ts, pos, s.no) && Precedence(ts[pos].kind) <= PREC_TERNARY
    ensures s.Unary? ==> Follows(ts, pos, s.operand) && Precedence(ts[pos].kind) <= PREC_UNARY
    ensures s.If? && OpenElse(s.els) ==> ElseFree(ts, pos)
  {
  }

  lemma {:induction false} LeafParts(ts: seq<Tok>, pos: nat, s: Syn, prec: nat)
    requires Fits(ts, pos, s, prec) && s.Leaf?
    ensures TokenAt(ts, pos, s.tok) && ShapedLeaf(s.tok) && Len(s) == 1
  {
  }

  /** An expression starts with a token that has a prefix handler. */
  lemma {:induction false} ExpressionStart(ts: seq<Tok>, pos: nat, s: Syn, prec: nat)
    requires Fits(ts, pos, s, prec)
    ensures pos < |ts| && !RuleOf(ts[pos].kind).prefix.NoPrefix? && Len(s) >= 1
    decreases s
  {
    hide *;
    match s
    case Infix(l, _, _) => InfixParts(ts, pos, s, prec); ExpressionStart(ts, pos, l, prec);
    case Ternary(c, _, _) => TernaryParts(ts, pos, s, prec); ExpressionStart(ts, pos, c, prec);
    case Call(f, _) => CallParts(ts, pos, s, prec); ExpressionStart(ts, pos, f, prec);
    case Index(b, _) => IndexParts(ts, pos, s, prec); ExpressionStart(ts, pos, b, prec);
    case Dot(l, _) => DotParts(ts, pos, s, prec); ExpressionStart(ts, pos, l, prec);
    case Missing => NotMissing(ts, pos, s, prec);
    case Leaf(_) => LeafParts(ts, pos, s, prec); LeafPrefix(ts, pos);
    case Unary(_, _) => UnaryParts(ts, pos, s, prec); PrefixAt(ts, pos, s.op);
    case Group(_) => GroupParts(ts, pos, s, prec); PrefixAt(ts, pos, TLParen);
    case Array(_, _, _) => ArrayParts(ts, pos, s, prec); PrefixAt(ts, pos, TLSqBracket);
    case If(_, _, _, _) => IfParts(ts, pos, s, prec); PrefixAt(ts, pos, TIf);
  }

  lemma PrefixAt(ts: seq<Tok>, pos: nat, k: TokenType)
    requires KindAt(ts, pos, k)
    ensures pos < |ts| && RuleOf(ts[pos].kind) == RuleOf(k)
    ensures k == TLParen || k == TLSqBracket || k == TIf ==> !RuleOf(k).prefix.NoPrefix?
  {
  }

  lemma {:induction false} LeafPrefix(ts: seq<Tok>, pos: nat)
    ensures forall t :: TokenAt(ts, pos, t) && ShapedLeaf(t) ==>
              pos < |ts| && !RuleOf(ts[pos].kind).prefix.NoPrefix? && Prefix(ts, pos) == Done(Leaf(t), pos + 1, 0)
  {
  }

  lemma NotMissing(ts: seq<Tok>, pos: nat, s: Syn, prec: nat)
    requires Fits(ts, pos, s, prec)
    ensures !s.Missing?
  {
  }

  lemma {:induction false} StatementStart(ts: seq<Tok>, pos: nat, s: Stmt)
    requires FitsStmt(ts, pos, s)
    ensures pos < |ts| && LenStmt(s) >= 1
    ensures !IsSeparator(ts[pos].kind) && ts[pos].kind != TElse && ts[pos].kind != TRBrace && ts[pos].kind != TEnd
    ensures s.Expression? ==> !(ts[pos].kind in {TReturn, TFunc, TMain, TVar, TConst})
  {
    hide Shaped, Spells, Len, Bound;
    if s.Expression? {
      assert Fits(ts, pos, s.expr, PREC_LOWEST);
      ExpressionStart(ts, pos, s.expr, PREC_LOWEST);
    }
  }

  lemma {:induction false} SepParts(ts: seq<Tok>, pos: nat, items: Items)
    requires FitsItems(ts, pos, items) && items.Sep?
    ensures TokenAt(ts, pos, items.mark) && IsSeparator(items.mark.kind)
    ensures FitsItems(ts, pos + 1, items.rest) && LenItems(items) == 1 + LenItems(items.rest)
  {
  }

  /** Between the statements of a block, `else` never comes first after newlines. */
  lemma {:induction false} ItemsElseFree(ts: seq<Tok>, pos: nat, items: Items)
    requires FitsItems(ts, pos, items)
    requires KindAt(ts, pos + LenItems(items), TRBrace) || KindAt(ts, pos + LenItems(items), TEnd)
    ensures ElseFree(ts, pos)
    decreases items
  {
    hide FitsItems, FitsStmt, ElseFree, LenStmt;
    match items
    case NoItems => assert ElseFree(ts, pos) by { ElseFreeAt(ts, pos); }
    case Sep(mark, rest) =>
      SepParts(ts, pos, items);
      if mark.kind == TNewline { ItemsElseFree(ts, pos + 1, rest); }
      ElseFreeAt(ts, pos);
    case Item(stmt, _) =>
      ItemParts(ts, pos, items);
      StatementStart(ts, pos, stmt);
      ElseFreeAt(ts, pos);
  }

  lemma ElseFreeAt(ts: seq<Tok>, pos: nat)
    requires pos < |ts|
    ensures ts[pos].kind == TNewline ==> ElseFree(ts, pos) == ElseFree(ts, pos + 1)
    ensures ts[pos].kind != TNewline ==> ElseFree(ts, pos) == (ts[pos].kind != TElse)
  {
  }

  // ----- One step of the parser -----

  lemma {:induction false} PrefixStep(ts: seq<Tok>, pos: nat, prec: nat, s: Syn, end: nat)
    requires pos < |ts| && !RuleOf(ts[pos].kind).prefix.NoPrefix? && Prefix(ts, pos) == Done(s, end, 0)
    ensures Expr(ts, pos, prec) == Loop(ts, end, s, prec)
  {
  }

  lemma {:induction false} ExtendStep(ts: seq<Tok>, pos: nat, prec: nat, q: nat, l: Syn, s: Syn, end: nat)
    requires Expr(ts, pos, prec) == Loop(ts, q, l, prec)
    requires q < |ts| && prec < Precedence(ts[q].kind) && Extend(ts, q, l) == Done(s, end, 0)
    ensures Expr(ts, pos, prec) == Loop(ts, end, s, prec)
  {
  }

  lemma {:induction false} LoopStops(ts: seq<Tok>, pos: nat, s: Syn, prec: nat)
    requires pos < |ts| && Precedence(ts[pos].kind) <= prec
    ensures Loop(ts, pos, s, prec) == Done(s, pos, 0)
  {
  }

  lemma {:induction false} ExtendInfix(ts: seq<Tok>, q: nat, l: Syn, r: Syn, end: nat)
    requires q < |ts| && IsInfix(ts[q].kind)
    requires Expr(ts, q + 1, RightPrecedence(ts[q].kind)) == Done(r, end, 0)
    ensures Extend(ts, q, l) == Done(Infix(l, ts[q].kind, r), end, 0)
  {
  }

  lemma {:induction false} ExtendTernary(ts: seq<Tok>, q: nat, c: Syn, y: Syn, colon: nat, n: Syn, end: nat)
    requires KindAt(ts, q, TQuestion) && Expr(ts, q + 1, PREC_LOWEST) == Done(y, colon, 0)
    requires KindAt(ts, colon, TColon) && Expr(ts, colon + 1, PREC_TERNARY) == Done(n, end, 0)
    ensures Extend(ts, q, c) == Done(Ternary(c, y, n), end, 0)
  {
  }

  lemma {:induction false} ExtendCall(ts: seq<Tok>, q: nat, f: Syn, args: Syns, close: nat)
    requires KindAt(ts, q, TLParen) && Arguments(ts, q + 1) == Done(args, close, 0) && KindAt(ts, close, TRParen)
    ensures Extend(ts, q, f) == Done(Call(f, args), close + 1, 0)
  {
  }

  lemma {:induction false} ExtendIndex(ts: seq<Tok>, q: nat, b: Syn, i: Syn, close: nat)
    requires KindAt(ts, q, TLSqBracket) && Expr(ts, q + 1, PREC_LOWEST) == Done(i, close, 0)
    requires KindAt(ts, close, TRSqBracket)
    ensures Extend(ts, q, b) == Done(Index(b, i), close + 1, 0)
  {
  }

  lemma {:induction false} ExtendDot(ts: seq<Tok>, q: nat, l: Syn, member: string)
    requires KindAt(ts, q, TDot) && TokenAt(ts, q + 1, Tok(TIdent, member))
    ensures Extend(ts, q, l) == Done(Dot(l, Some(member)), q + 2, 0)
  {
  }

  lemma {:induction false} PrefixUnary(ts: seq<Tok>, pos: nat, e: Syn, end: nat)
    requires pos < |ts| && RuleOf(ts[pos].kind).prefix.UnaryPrefix? && Expr(ts, pos + 1, PREC_UNARY) == Done(e, end, 0)
    ensures Prefix(ts, pos) == Done(Unary(ts[pos].kind, e), end, 0)
  {
  }

  lemma {:induction false} PrefixGroup(ts: seq<Tok>, pos: nat, e: Syn, close: nat)
    requires KindAt(ts, pos, TLParen) && Expr(ts, pos + 1, PREC_LOWEST) == Done(e, close, 0)
    requires KindAt(ts, close, TRParen)
    ensures Prefix(ts, pos) == Done(Group(e), close + 1, 0)
  {
  }

  lemma {:induction false} PrefixArray(ts: seq<Tok>, pos: nat, elems: Syns, comma: bool, close: nat)
    requires KindAt(ts, pos, TLSqBracket) && KindAt(ts, close, TRSqBracket) && (comma ==> elems.Syns?)
    requires if elems.NoSyns? then close == pos + 1
             else Elements(ts, pos + 1) == Done(ElemList(elems, comma), close, 0)
    ensures Prefix(ts, pos) == Done(Array(elems, comma, Missing), close + 1, 0)
  {
    if elems.NoSyns? { assert Elements(ts, pos + 1) == Done(ElemList(NoSyns, true), close, 0); }
    assert ArrayLiteral(ts, pos + 1) == Done(Array(elems, comma, Missing), close + 1, 0);
  }

  lemma {:induction false} PrefixRepeat(ts: seq<Tok>, pos: nat, elems: Syns, semi: nat, length: Syn, close: nat)
    requires elems.Syns? && elems.tail.NoSyns?
    requires KindAt(ts, pos, TLSqBracket) && Elements(ts, pos + 1) == Done(ElemList(elems, false), semi, 0)
    requires KindAt(ts, semi, TSemicolon) && Expr(ts, semi + 1, PREC_LOWEST) == Done(length, close, 0)
    requires KindAt(ts, close, TRSqBracket)
    ensures Prefix(ts, pos) == Done(Array(elems, false, length), close + 1, 0)
  {
    hide Elements, Expr;
    assert ArrayLiteral(ts, pos + 1) == Done(Array(elems, false, length), close + 1, 0);
  }

  lemma {:induction false} BlockStep(ts: seq<Tok>, pos: nat, items: Items, end: nat)
    requires Statements(ts, pos, TRBrace) == Done(items, end, 0)
    ensures Block(ts, pos) == Done(items, end + 1, 0)
  {
  }

  lemma {:induction false} PrefixIf(ts: seq<Tok>, pos: nat, c: Syn, afterTest: nat, brace: nat, body: Items, end: nat, els: Else, after: nat)
    requires KindAt(ts, pos, TIf) && Expr(ts, pos + 1, PREC_LOWEST) == Done(c, afterTest, 0)
    requires SkipNewlines(ts, afterTest) == brace && KindAt(ts, brace, TLBrace)
    requires Statements(ts, brace + 1, TRBrace) == Done(body, end, 0)
    requires ElseArm(ts, end + 1) == Done(els, after, 0)
    ensures IfExpr(ts, pos + 1) == Done(If(c, ts[afterTest..brace], body, els), after, 0)
  {
    hide SkipNewlines, Statements, ElseArm, Expr, Block, RuleOf;
    BlockStep(ts, brace + 1, body, end);
  }

  lemma {:induction false} PrefixOfIf(ts: seq<Tok>, pos: nat)
    requires KindAt(ts, pos, TIf)
    ensures RuleOf(TIf).prefix.IfPrefix? && Prefix(ts, pos) == IfExpr(ts, pos + 1)
  {
    hide IfExpr;
  }

  lemma ElseHeader(ts: seq<Tok>, pos: nat, before: seq<Tok>, after: seq<Tok>)
    requires ElseAt(ts, pos, before, after) && Newlines(before) && Newlines(after)
    requires var arm := pos + |before| + 1 + |after|;
             arm < |ts| && ts[arm].kind != TNewline
    ensures var next := pos + |before|;
            var arm := next + 1 + |after|;
            && SkipNewlines(ts, pos) == next && KindAt(ts, next, TElse) && SkipNewlines(ts, next + 1) == arm
            && ts[pos..next] == before && ts[next + 1..arm] == after
  {
    SkipOver(ts, pos, before);
    SkipOver(ts, pos + |before| + 1, after);
  }

  lemma {:induction false} ElseIfStep(ts: seq<Tok>, pos: nat, before: seq<Tok>, after: seq<Tok>, nested: Syn, end: nat)
    requires ElseAt(ts, pos, before, after) && Newlines(before) && Newlines(after)
    requires var arm := pos + |before| + 1 + |after|;
             KindAt(ts, arm, TIf) && IfExpr(ts, arm + 1) == Done(nested, end, 0)
    ensures ElseArm(ts, pos) == Done(ElseIf(before, after, nested), end, 0)
  {
    hide SkipNewlines, IfExpr, Block, ElseAt, Newlines;
    ElseHeader(ts, pos, before, after);
  }

  lemma {:induction false} ElseBlockStep(ts: seq<Tok>, pos: nat, before: seq<Tok>, after: seq<Tok>, items: Items, end: nat)
    requires ElseAt(ts, pos, before, after) && Newlines(before) && Newlines(after)
    requires var arm := pos + |before| + 1 + |after|;
             KindAt(ts, arm, TLBrace) && Statements(ts, arm + 1, TRBrace) == Done(items, end, 0)
    ensures ElseArm(ts, pos) == Done(ElseBlock(before, after, items), end + 1, 0)
  {
    hide SkipNewlines, IfExpr, Statements, Block, ElseAt, Newlines;
    ElseHeader(ts, pos, before, after);
    BlockStep(ts, pos + |before| + 1 + |after| + 1, items, end);
  }

  lemma {:induction false} NoElseStep(ts: seq<Tok>, pos: nat)
    requires ElseFree(ts, pos)
    ensures ElseArm(ts, pos) == Done(NoElse, pos, 0)
  {
  }

  // ----- Reading derivations back -----

  /** Parsing an expression amounts to entering the infix loop with it already built. */
  lemma {:induction false} ReadExpr(ts: seq<Tok>, pos: nat, s: Syn, prec: nat)
    requires Fits(ts, pos, s, prec) && Follows(ts, pos + Len(s), s)
    ensures Expr(ts, pos, prec) == Loop(ts, pos + Len(s), s, prec)
    decreases s, 5
  {
    hide Fits, FitsList, FitsItems, FitsElse, FitsStmt, Follows, Len, LenList, LenItems, LenElse, LenStmt, Edge, OpenIf;
    hide OpenElse, ElseFree, SkipNewlines, Expr, Loop, Prefix, Extend, Arguments, ArgumentList, Elements;
    hide Statements, Statement, IfExpr, ElseArm, Block, TokensAt, ElseAt, Newlines, ShapedLeaf, SpellsSignature, RuleOf, Fixed;
    DelimiterPrecedence();
    var end := pos + Len(s);
    match s
    case Missing => NotMissing(ts, pos, s, prec);
    case Leaf(_) =>
      LeafParts(ts, pos, s, prec);
      LeafPrefix(ts, pos);
      PrefixStep(ts, pos, prec, s, end);
    case Unary(op, e) =>
      UnaryParts(ts, pos, s, prec);
      FollowsOperand(ts, end, s);
      ReadOperand(ts, pos + 1, e, PREC_UNARY);
      PrefixAt(ts, pos, op);
      PrefixUnary(ts, pos, e, end);
      PrefixStep(ts, pos, prec, s, end);
    case Group(e) =>
      GroupParts(ts, pos, s, prec);
      ReadDelimited(ts, pos + 1, e, PREC_LOWEST, TRParen);
      PrefixAt(ts, pos, TLParen);
      PrefixGroup(ts, pos, e, end - 1);
      PrefixStep(ts, pos, prec, s, end);
    case Array(_, _, _) =>
      ReadArray(ts, pos, s, prec);
      PrefixStep(ts, pos, prec, s, end);
    case If(_, _, _, _) =>
      FollowsOperand(ts, end, s);
      ReadIf(ts, pos, s, prec);
      PrefixStep(ts, pos, prec, s, end);
    case Infix(_, _, _) => ReadInfix(ts, pos, s, prec);
    case Ternary(_, _, _) => ReadTernary(ts, pos, s, prec);
    case _ => ReadPostfix(ts, pos, s, prec);
  }

  /** An operand that the next token does not extend. */
  lemma {:induction false} ReadOperand(ts: seq<Tok>, pos: nat, s: Syn, prec: nat)
    requires Fits(ts, pos, s, prec) && Follows(ts, pos + Len(s), s)
    requires pos + Len(s) < |ts| && Precedence(ts[pos + Len(s)].kind) <= prec
    ensures Expr(ts, pos, prec) == Done(s, pos + Len(s), 0)
    decreases s, 6
  {
    hide Fits, FitsList, FitsItems, FitsElse, FitsStmt, Follows, Len, LenList, LenItems, LenElse, LenStmt, Edge, OpenIf;
    hide OpenElse, ElseFree, SkipNewlines, Expr, Loop, Prefix, Extend, Arguments, ArgumentList, Elements;
    hide Statements, Statement, IfExpr, ElseArm, Block, TokensAt, ElseAt, Newlines, ShapedLeaf, SpellsSignature, RuleOf, Fixed;
    ReadExpr(ts, pos, s, prec);
    LoopStops(ts, pos + Len(s), s, prec);
  }

  lemma OperatorKind(op: TokenType)
    requires Precedence(op) > PREC_NONE
    ensures op != TNewline && op != TElse
  {
  }

  lemma DelimiterPrecedence()
    ensures forall k | k in {TRParen, TRSqBracket, TColon, TSemicolon, TEnd, TRBrace} :: Precedence(k) == PREC_NONE
    ensures Precedence(TComma) == PREC_COMMA
  {
  }

  /** An operand before a token that can neither extend it nor start an else arm. */
  lemma {:induction false} ReadDelimited(ts: seq<Tok>, pos: nat, s: Syn, prec: nat, k: TokenType)
    requires Fits(ts, pos, s, prec) && KindAt(ts, pos + Len(s), k)
    requires k != TNewline && k != TElse && Precedence(k) <= prec && Precedence(k) <= Edge(s)
    ensures Expr(ts, pos, prec) == Done(s, pos + Len(s), 0)
    decreases s, 7
  {
    hide Fits, Edge, Len, OpenIf, Expr;
    FollowedBy(ts, pos + Len(s), s, k);
    ReadOperand(ts, pos, s, prec);
  }

  lemma {:induction false} ReadInfix(ts: seq<Tok>, pos: nat, s: Syn, prec: nat)
    requires Fits(ts, pos, s, prec) && Follows(ts, pos + Len(s), s)
    requires s.Infix?
    ensures Expr(ts, pos, prec) == Loop(ts, pos + Len(s), s, prec)
    decreases s, 4
  {
    hide Fits, FitsList, FitsItems, FitsElse, FitsStmt, Follows, Len, LenList, LenItems, LenElse, LenStmt, Edge, OpenIf;
    hide OpenElse, ElseFree, SkipNewlines, Expr, Loop, Prefix, Extend, Arguments, ArgumentList, Elements;
    hide Statements, Statement, IfExpr, ElseArm, Block, TokensAt, ElseAt, Newlines, ShapedLeaf, SpellsSignature, RuleOf, Fixed;
    DelimiterPrecedence();
    var end := pos + Len(s);
    match s
    case Infix(l, op, r) =>
      var q := pos + Len(l);
      InfixParts(ts, pos, s, prec);
      ReadLeft(ts, pos, l, prec, op);
      FollowsOperand(ts, end, s);
      ReadOperand(ts, q + 1, r, RightPrecedence(op));
      ExtendInfix(ts, q, l, r, end);
      ExtendStep(ts, pos, prec, q, l, s, end);
  }

  lemma {:induction false} ReadTernary(ts: seq<Tok>, pos: nat, s: Syn, prec: nat)
    requires Fits(ts, pos, s, prec) && Follows(ts, pos + Len(s), s) && s.Ternary?
    ensures Expr(ts, pos, prec) == Loop(ts, pos + Len(s), s, prec)
    decreases s, 4
  {
    hide Fits, FitsList, FitsItems, FitsElse, FitsStmt, Follows, Len, LenList, LenItems, LenElse, LenStmt, Edge, OpenIf;
    hide OpenElse, ElseFree, SkipNewlines, Expr, Loop, Prefix, Extend, Arguments, ArgumentList, Elements;
    hide Statements, Statement, IfExpr, ElseArm, Block, TokensAt, ElseAt, Newlines, ShapedLeaf, SpellsSignature, RuleOf, Fixed;
    DelimiterPrecedence();
    var end := pos + Len(s);
    match s
    case Ternary(c, y, n) =>
      var q := pos + Len(c);
      var colon := q + 1 + Len(y);
      TernaryParts(ts, pos, s, prec);
      ReadLeft(ts, pos, c, prec, TQuestion);
      ReadDelimited(ts, q + 1, y, PREC_LOWEST, TColon);
      FollowsOperand(ts, end, s);
      ReadOperand(ts, colon + 1, n, PREC_TERNARY);
      ExtendTernary(ts, q, c, y, colon, n, end);
      ExtendStep(ts, pos, prec, q, c, s, end);
  }

  lemma {:induction false} ReadPostfix(ts: seq<Tok>, pos: nat, s: Syn, prec: nat)
    requires Fits(ts, pos, s, prec) && (s.Call? || s.Index? || s.Dot?)
    ensures Expr(ts, pos, prec) == Loop(ts, pos + Len(s), s, prec)
    decreases s, 4
  {
    hide *;
    if s.Call? {
      ReadCall(ts, pos, s, prec);
    } else if s.Index? {
      ReadIndex(ts, pos, s, prec);
    } else {
      ReadDot(ts, pos, s, prec);
    }
  }

  lemma {:induction false} ReadCall(ts: seq<Tok>, pos: nat, s: Syn, prec: nat)
    requires Fits(ts, pos, s, prec) && s.Call?
    ensures Expr(ts, pos, prec) == Loop(ts, pos + Len(s), s, prec)
    decreases s, 3
  {
    hide Fits, FitsList, Len, LenList, Edge, Expr, Loop, Extend, Arguments, RuleOf, Fixed, Precedence;
    DelimiterPrecedence();
    var q, end := pos + Len(s.callee), pos + Len(s);
    CallParts(ts, pos, s, prec);
    ReadLeft(ts, pos, s.callee, prec, TLParen);
    ReadArguments(ts, q + 1, s.args);
    ExtendCall(ts, q, s.callee, s.args, end - 1);
    ExtendStep(ts, pos, prec, q, s.callee, s, end);
  }

  lemma {:induction false} ReadIndex(ts: seq<Tok>, pos: nat, s: Syn, prec: nat)
    requires Fits(ts, pos, s, prec) && s.Index?
    ensures Expr(ts, pos, prec) == Loop(ts, pos + Len(s), s, prec)
    decreases s, 3
  {
    hide Fits, FitsList, Len, LenList, Edge, Expr, Loop, Extend, Arguments, RuleOf, Fixed, Precedence;
    DelimiterPrecedence();
    var q, end := pos + Len(s.base), pos + Len(s);
    IndexParts(ts, pos, s, prec);
    ReadLeft(ts, pos, s.base, prec, TLSqBracket);
    ReadDelimited(ts, q + 1, s.index, PREC_LOWEST, TRSqBracket);
    ExtendIndex(ts, q, s.base, s.index, end - 1);
    ExtendStep(ts, pos, prec, q, s.base, s, end);
  }

  lemma {:induction false} ReadDot(ts: seq<Tok>, pos: nat, s: Syn, prec: nat)
    requires Fits(ts, pos, s, prec) && s.Dot?
    ensures Expr(ts, pos, prec) == Loop(ts, pos + Len(s), s, prec)
    decreases s, 3
  {
    hide Fits, FitsList, Len, LenList, Edge, Expr, Loop, Extend, Arguments, RuleOf, Fixed, Precedence;
    DelimiterPrecedence();
    var q, end := pos + Len(s.owner), pos + Len(s);
    DotParts(ts, pos, s, prec);
    ReadLeft(ts, pos, s.owner, prec, TDot);
    ExtendDot(ts, q, s.owner, s.member.value);
    ExtendStep(ts, pos, prec, q, s.owner, s, end);
  }

  lemma {:induction false} ReadLeft(ts: seq<Tok>, pos: nat, l: Syn, prec: nat, op: TokenType)
    requires Fits(ts, pos, l, prec) && KindAt(ts, pos + Len(l), op)
    requires PREC_NONE < Precedence(op) <= Edge(l)
    ensures Expr(ts, pos, prec) == Loop(ts, pos + Len(l), l, prec)
    decreases l, 6
  {
    hide Fits, FitsList, FitsItems, FitsElse, FitsStmt, Follows, Len, LenList, LenItems, LenElse, LenStmt, Edge, OpenIf;
    hide OpenElse, ElseFree, SkipNewlines, Expr, Loop, Prefix, Extend, Arguments, ArgumentList, Elements;
    hide Statements, Statement, IfExpr, ElseArm, Block, TokensAt, ElseAt, Newlines, ShapedLeaf, SpellsSignature, RuleOf, Fixed;
    OperatorKind(op);
    FollowedBy(ts, pos + Len(l), l, op);
    ReadExpr(ts, pos, l, prec);
  }

  lemma {:induction false} ReadArguments(ts: seq<Tok>, pos: nat, args: Syns)
    requires FitsList(ts, pos, args, PREC_COMMA, false) && KindAt(ts, pos + LenList(args), TRParen)
    ensures Arguments(ts, pos) == Done(args, pos + LenList(args), 0)
    ensures args.Syns? ==> ArgumentList(ts, pos) == Done(args, pos + LenList(args), 0)
    decreases args
  {
    hide Fits, FitsList, FitsItems, FitsElse, FitsStmt, Follows, Len, LenList, LenItems, LenElse, LenStmt, Edge, OpenIf;
    hide OpenElse, ElseFree, SkipNewlines, Expr, Loop, Prefix, Extend, Arguments, ArgumentList, Elements;
    hide Statements, Statement, IfExpr, ElseArm, Block, TokensAt, ElseAt, Newlines, ShapedLeaf, SpellsSignature, RuleOf, Fixed;
    DelimiterPrecedence();
    if args.Syns? {
      var after := pos + Len(args.head);
      ListParts(ts, pos, args, PREC_COMMA, false);
      ExpressionStart(ts, pos, args.head, PREC_COMMA);
      NotAClosing(ts[pos].kind);
      if args.tail.Syns? {
        ReadDelimited(ts, pos, args.head, PREC_COMMA, TComma);
        ReadArguments(ts, after + 1, args.tail);
        ArgumentStep(ts, pos, args.head, after, args.tail, pos + LenList(args));
      } else {
        ReadDelimited(ts, pos, args.head, PREC_COMMA, TRParen);
        LastArgument(ts, pos, args.head, after);
      }
    } else {
      NoArguments(ts, pos);
    }
  }

  lemma NotAClosing(k: TokenType)
    requires !RuleOf(k).prefix.NoPrefix?
    ensures k != TRParen
  {
  }

  lemma {:induction false} NoArguments(ts: seq<Tok>, pos: nat)
    requires KindAt(ts, pos + LenList(NoSyns), TRParen)
    ensures Arguments(ts, pos) == Done(NoSyns, pos + LenList(NoSyns), 0)
  {
  }

  lemma ArgumentStep(ts: seq<Tok>, pos: nat, e: Syn, after: nat, more: Syns, end: nat)
    requires pos < |ts| && ts[pos].kind != TRParen
    requires Expr(ts, pos, PREC_COMMA) == Done(e, after, 0) && KindAt(ts, after, TComma)
    requires ArgumentList(ts, after + 1) == Done(more, end, 0)
    ensures ArgumentList(ts, pos) == Done(Syns(e, more), end, 0) == Arguments(ts, pos)
  {
    hide Expr;
  }

  lemma {:induction false} LastArgument(ts: seq<Tok>, pos: nat, e: Syn, after: nat)
    requires pos < |ts| && ts[pos].kind != TRParen
    requires Expr(ts, pos, PREC_COMMA) == Done(e, after, 0) && KindAt(ts, after, TRParen)
    ensures ArgumentList(ts, pos) == Done(Syns(e, NoSyns), after, 0) == Arguments(ts, pos)
  {
  }

  lemma {:induction false} ReadElements(ts: seq<Tok>, pos: nat, elems: Syns, comma: bool, k: TokenType)
    requires elems.Syns? && FitsList(ts, pos, elems, PREC_HIGHEST, comma)
    requires k == TRSqBracket || k == TSemicolon
    requires var end := pos + LenList(elems);
             if comma then KindAt(ts, end, TComma) && KindAt(ts, end + 1, TRSqBracket) else KindAt(ts, end, k)
    ensures Elements(ts, pos) == Done(ElemList(elems, comma), pos + LenList(elems) + (if comma then 1 else 0), 0)
    decreases elems
  {
    hide Fits, FitsList, FitsItems, FitsElse, FitsStmt, Follows, Len, LenList, LenItems, LenElse, LenStmt, Edge, OpenIf;
    hide OpenElse, ElseFree, SkipNewlines, Expr, Loop, Prefix, Extend, Arguments, ArgumentList, Elements;
    hide Statements, Statement, IfExpr, ElseArm, Block, TokensAt, ElseAt, Newlines, ShapedLeaf, SpellsSignature, RuleOf, Fixed;
    DelimiterPrecedence();
    var after := pos + Len(elems.head);
    ListParts(ts, pos, elems, PREC_HIGHEST, comma);
    ExpressionStart(ts, pos, elems.head, PREC_HIGHEST);
    if elems.tail.Syns? {
      ReadDelimited(ts, pos, elems.head, PREC_HIGHEST, TComma);
      ReadElements(ts, after + 1, elems.tail, comma, k);
      ElementStep(ts, pos, elems.head, after, elems.tail, comma, pos + LenList(elems) + (if comma then 1 else 0));
    } else if comma {
      ReadDelimited(ts, pos, elems.head, PREC_HIGHEST, TComma);
      NoMoreElements(ts, after + 1);
      ElementStep(ts, pos, elems.head, after, NoSyns, true, after + 1);
    } else {
      ReadDelimited(ts, pos, elems.head, PREC_HIGHEST, k);
      LastElement(ts, pos, elems.head, after);
    }
  }

  lemma {:induction false} NoMoreElements(ts: seq<Tok>, pos: nat)
    requires KindAt(ts, pos, TRSqBracket)
    ensures Elements(ts, pos) == Done(ElemList(NoSyns, true), pos, 0)
  {
  }

  lemma ElementStep(ts: seq<Tok>, pos: nat, e: Syn, after: nat, more: Syns, comma: bool, end: nat)
    requires pos < |ts| && !RuleOf(ts[pos].kind).prefix.NoPrefix?
    requires Expr(ts, pos, PREC_HIGHEST) == Done(e, after, 0) && KindAt(ts, after, TComma)
    requires Elements(ts, after + 1) == Done(ElemList(more, comma), end, 0)
    ensures Elements(ts, pos) == Done(ElemList(Syns(e, more), comma), end, 0)
  {
    hide Expr;
  }

  lemma {:induction false} LastElement(ts: seq<Tok>, pos: nat, e: Syn, after: nat)
    requires pos < |ts| && !RuleOf(ts[pos].kind).prefix.NoPrefix?
    requires Expr(ts, pos, PREC_HIGHEST) == Done(e, after, 0)
    requires after < |ts| && ts[after].kind != TComma
    ensures Elements(ts, pos) == Done(ElemList(Syns(e, NoSyns), false), after, 0)
  {
  }

  lemma {:induction false} ReadArray(ts: seq<Tok>, pos: nat, s: Syn, prec: nat)
    requires s.Array? && Fits(ts, pos, s, prec)
    ensures pos < |ts| && !RuleOf(ts[pos].kind).prefix.NoPrefix?
    ensures Prefix(ts, pos) == Done(s, pos + Len(s), 0)
    decreases s, 3
  {
    hide Fits, FitsList, FitsItems, FitsElse, FitsStmt, Follows, Len, LenList, LenItems, LenElse, LenStmt, Edge, OpenIf;
    hide OpenElse, ElseFree, SkipNewlines, Expr, Loop, Prefix, Extend, Arguments, ArgumentList, Elements;
    hide Statements, Statement, IfExpr, ElseArm, Block, TokensAt, ElseAt, Newlines, ShapedLeaf, SpellsSignature, RuleOf, Fixed;
    DelimiterPrecedence();
    ArrayParts(ts, pos, s, prec);
    PrefixAt(ts, pos, TLSqBracket);
    if s.length.Missing? { ReadElementArray(ts, pos, s, prec); } else { ReadRepeatArray(ts, pos, s, prec); }
  }

  lemma {:induction false} ReadElementArray(ts: seq<Tok>, pos: nat, s: Syn, prec: nat)
    requires s.Array? && Fits(ts, pos, s, prec) && s.length.Missing?
    requires pos < |ts| && !RuleOf(ts[pos].kind).prefix.NoPrefix?
    ensures Prefix(ts, pos) == Done(s, pos + Len(s), 0)
    decreases s, 2
  {
    hide Fits, FitsList, FitsItems, FitsElse, FitsStmt, Follows, Len, LenList, LenItems, LenElse, LenStmt, Edge, OpenIf;
    hide OpenElse, ElseFree, SkipNewlines, Expr, Loop, Prefix, Extend, Arguments, ArgumentList, Elements;
    hide Statements, Statement, IfExpr, ElseArm, Block, TokensAt, ElseAt, Newlines, ShapedLeaf, SpellsSignature, RuleOf, Fixed;
    ArrayParts(ts, pos, s, prec);
    if s.elems.Syns? {
      ReadElements(ts, pos + 1, s.elems, s.comma, TRSqBracket);
    } else {
      EmptyList(s.elems);
    }
    PrefixArray(ts, pos, s.elems, s.comma, pos + Len(s) - 1);
  }

  lemma {:induction false} ReadRepeatArray(ts: seq<Tok>, pos: nat, s: Syn, prec: nat)
    requires s.Array? && Fits(ts, pos, s, prec) && !s.length.Missing?
    requires pos < |ts| && !RuleOf(ts[pos].kind).prefix.NoPrefix?
    ensures Prefix(ts, pos) == Done(s, pos + Len(s), 0)
    decreases s, 2
  {
    hide Fits, FitsList, FitsItems, FitsElse, FitsStmt, Follows, Len, LenList, LenItems, LenElse, LenStmt, Edge, OpenIf;
    hide OpenElse, ElseFree, SkipNewlines, Expr, Loop, Prefix, Extend, Arguments, ArgumentList, Elements;
    hide Statements, Statement, IfExpr, ElseArm, Block, TokensAt, ElseAt, Newlines, ShapedLeaf, SpellsSignature, RuleOf, Fixed;
    DelimiterPrecedence();
    var end := pos + 1 + LenList(s.elems);
    ArrayParts(ts, pos, s, prec);
    ReadElements(ts, pos + 1, s.elems, false, TSemicolon);
    ReadDelimited(ts, end + 1, s.length, PREC_LOWEST, TRSqBracket);
    PrefixRepeat(ts, pos, s.elems, end, s.length, pos + Len(s) - 1);
  }

  lemma {:induction false} EmptyList(ss: Syns)
    ensures ss.NoSyns? ==> LenList(ss) == 0
  {
  }

  lemma {:induction false} ReadIf(ts: seq<Tok>, pos: nat, s: Syn, prec: nat)
    requires s.If? && Fits(ts, pos, s, prec)
    requires OpenElse(s.els) ==> ElseFree(ts, pos + Len(s))
    ensures pos < |ts| && !RuleOf(ts[pos].kind).prefix.NoPrefix?
    ensures IfExpr(ts, pos + 1) == Prefix(ts, pos) == Done(s, pos + Len(s), 0)
    decreases s, 3
  {
    hide Fits, FitsList, FitsItems, FitsElse, FitsStmt, Follows, Len, LenList, LenItems, LenElse, LenStmt, Edge, OpenIf;
    hide OpenElse, ElseFree, SkipNewlines, Expr, Loop, Prefix, Extend, Arguments, ArgumentList, Elements;
    hide Statements, Statement, IfExpr, ElseArm, Block, ElseAt, Newlines, ShapedLeaf, SpellsSignature, RuleOf, Fixed;
    var afterTest := pos + 1 + Len(s.test);
    var brace := afterTest + |s.newlines|;
    var afterBody := brace + 1 + LenItems(s.body) + 1;
    IfParts(ts, pos, s, prec);
    PrefixAt(ts, pos, TIf);
    SkipOver(ts, afterTest, s.newlines);
    BeforeBrace(ts, afterTest, s.test, brace);
    ReadOperand(ts, pos + 1, s.test, PREC_LOWEST);
    ReadItems(ts, brace + 1, s.body, TRBrace);
    ReadElse(ts, afterBody, s.els);
    PrefixOfIf(ts, pos);
    PrefixIf(ts, pos, s.test, afterTest, brace, s.body, afterBody - 1, s.els, pos + Len(s));
  }

  /** Newlines and then a brace may follow any expression. */
  lemma {:induction false} BeforeBrace(ts: seq<Tok>, pos: nat, s: Syn, brace: nat)
    requires pos < |ts| && SkipNewlines(ts, pos) == brace && KindAt(ts, brace, TLBrace)
    ensures Follows(ts, pos, s) && Precedence(ts[pos].kind) == PREC_NONE
  {
    hide Edge, OpenIf;
  }

  lemma {:induction false} ReadElse(ts: seq<Tok>, pos: nat, e: Else)
    requires FitsElse(ts, pos, e) && (OpenElse(e) ==> ElseFree(ts, pos + LenElse(e)))
    ensures ElseArm(ts, pos) == Done(e, pos + LenElse(e), 0)
    decreases e
  {
    hide Fits, FitsList, FitsItems, FitsElse, FitsStmt, Follows, Len, LenList, LenItems, LenElse, LenStmt, Edge, OpenIf;
    hide OpenElse, ElseFree, SkipNewlines, Expr, Loop, Prefix, Extend, Arguments, ArgumentList, Elements;
    hide Statements, Statement, IfExpr, ElseArm, Block, TokensAt, ElseAt, Newlines, ShapedLeaf, SpellsSignature, RuleOf, Fixed;
    match e
    case NoElse =>
      NoElseLength();
      NoElseStep(ts, pos);
    case ElseIf(_, _, _) => ReadElseIf(ts, pos, e);
    case ElseBlock(_, _, _) => ReadElseBlock(ts, pos, e);
  }

  lemma {:induction false} ReadElseIf(ts: seq<Tok>, pos: nat, e: Else)
    requires e.ElseIf? && FitsElse(ts, pos, e) && (OpenElse(e) ==> ElseFree(ts, pos + LenElse(e)))
    ensures ElseArm(ts, pos) == Done(e, pos + LenElse(e), 0)
    decreases e, 0
  {
    hide Fits, FitsList, FitsItems, FitsElse, FitsStmt, Follows, Len, LenList, LenItems, LenElse, LenStmt, Edge, OpenIf;
    hide OpenElse, ElseFree, SkipNewlines, Expr, Loop, Prefix, Extend, Arguments, ArgumentList, Elements;
    hide Statements, Statement, IfExpr, ElseArm, Block, TokensAt, ElseAt, Newlines, ShapedLeaf, SpellsSignature, RuleOf, Fixed;
    var arm := pos + |e.before| + 1 + |e.after|;
    ElseIfParts(ts, pos, e);
    NestedOpen(e.nested);
    ReadIf(ts, arm, e.nested, PREC_LOWEST);
    IfKeyword(ts, arm, e.nested);
    ElseIfStep(ts, pos, e.before, e.after, e.nested, pos + LenElse(e));
  }

  lemma {:induction false} ReadElseBlock(ts: seq<Tok>, pos: nat, e: Else)
    requires e.ElseBlock? && FitsElse(ts, pos, e)
    ensures ElseArm(ts, pos) == Done(e, pos + LenElse(e), 0)
    decreases e, 0
  {
    hide Fits, FitsList, FitsItems, FitsElse, FitsStmt, Follows, Len, LenList, LenItems, LenElse, LenStmt, Edge, OpenIf;
    hide OpenElse, ElseFree, SkipNewlines, Expr, Loop, Prefix, Extend, Arguments, ArgumentList, Elements;
    hide Statements, Statement, IfExpr, ElseArm, Block, TokensAt, ElseAt, Newlines, ShapedLeaf, SpellsSignature, RuleOf, Fixed;
    var arm := pos + |e.before| + 1 + |e.after|;
    ElseBlockParts(ts, pos, e);
    ReadItems(ts, arm + 1, e.items, TRBrace);
    ElseBlockStep(ts, pos, e.before, e.after, e.items, arm + 1 + LenItems(e.items));
  }

  lemma NoElseLength()
    ensures LenElse(NoElse) == 0 && OpenElse(NoElse)
  {
  }

  lemma {:induction false} NestedOpen(s: Syn)
    ensures s.If? ==> OpenIf(s) == OpenElse(s.els)
  {
  }

  lemma IfKeyword(ts: seq<Tok>, pos: nat, s: Syn)
    requires s.If? && Fits(ts, pos, s, PREC_LOWEST)
    ensures KindAt(ts, pos, TIf)
  {
    IfParts(ts, pos, s, PREC_LOWEST);
  }

  lemma {:induction false} ReadItems(ts: seq<Tok>, pos: nat, items: Items, end: TokenType)
    requires FitsItems(ts, pos, items) && (end == TRBrace || end == TEnd)
    requires KindAt(ts, pos + LenItems(items), end)
    ensures Statements(ts, pos, end) == Done(items, pos + LenItems(items), 0)
    decreases items
  {
    hide Fits, FitsList, FitsItems, FitsElse, FitsStmt, Follows, Len, LenList, LenItems, LenElse, LenStmt, Edge, OpenIf;
    hide OpenElse, ElseFree, SkipNewlines, Expr, Loop, Prefix, Extend, Arguments, ArgumentList, Elements;
    hide Statements, Statement, IfExpr, ElseArm, Block, TokensAt, ElseAt, Newlines, ShapedLeaf, SpellsSignature, RuleOf, Fixed;
    match items
    case NoItems => NoStatements(ts, pos, end);
    case Sep(_, rest) =>
      SepParts(ts, pos, items);
      ReadItems(ts, pos + 1, rest, end);
      SeparatorStep(ts, pos, end, rest, pos + LenItems(items));
    case Item(stmt, rest) =>
      var next := pos + LenStmt(stmt);
      ItemParts(ts, pos, items);
      StatementStart(ts, pos, stmt);
      ItemsElseFree(ts, next, rest);
      ItemEnd(ts, next, rest, end);
      ReadStatement(ts, pos, stmt);
      ReadItems(ts, next, rest, end);
      StatementStep(ts, pos, end, stmt, next, rest, pos + LenItems(items));
  }

  lemma {:induction false} NoStatements(ts: seq<Tok>, pos: nat, end: TokenType)
    requires KindAt(ts, pos + LenItems(NoItems), end)
    ensures Statements(ts, pos, end) == Done(NoItems, pos + LenItems(NoItems), 0)
  {
  }

  lemma {:induction false} SeparatorStep(ts: seq<Tok>, pos: nat, end: TokenType, rest: Items, after: nat)
    requires pos < |ts| && IsSeparator(ts[pos].kind) && !IsSeparator(end)
    requires Statements(ts, pos + 1, end) == Done(rest, after, 0)
    ensures Statements(ts, pos, end) == Done(Sep(ts[pos], rest), after, 0)
  {
  }

  lemma {:induction false} StatementStep(ts: seq<Tok>, pos: nat, end: TokenType, stmt: Stmt, next: nat, rest: Items, after: nat)
    requires pos < |ts| && !IsSeparator(ts[pos].kind) && ts[pos].kind != end
    requires Statement(ts, pos) == Done(stmt, next, 0)
    requires next < |ts| && (IsSeparator(ts[next].kind) || ts[next].kind == end)
    requires Statements(ts, next, end) == Done(rest, after, 0)
    ensures Statements(ts, pos, end) == Done(Item(stmt, rest), after, 0)
  {
    hide Statement;
  }

  /** After a statement comes a separator or the end of the block. */
  lemma {:induction false} ItemEnd(ts: seq<Tok>, pos: nat, rest: Items, end: TokenType)
    requires FitsItems(ts, pos, rest) && !rest.Item? && KindAt(ts, pos + LenItems(rest), end)
    ensures pos < |ts| && (IsSeparator(ts[pos].kind) || ts[pos].kind == end)
  {
  }

  lemma {:induction false} ReadStatement(ts: seq<Tok>, pos: nat, s: Stmt)
    requires FitsStmt(ts, pos, s) && ElseFree(ts, pos + LenStmt(s))
    requires pos + LenStmt(s) < |ts| && ts[pos + LenStmt(s)].kind in {TNewline, TSemicolon, TRBrace, TEnd}
    ensures pos < |ts| && Statement(ts, pos) == Done(s, pos + LenStmt(s), 0)
    decreases s
  {
    hide *;
    StatementStart(ts, pos, s);
    if s.Func? {
      ReadFunc(ts, pos, s);
    } else {
      ReadSimple(ts, pos, s);
    }
  }

  lemma {:induction false} ReadFunc(ts: seq<Tok>, pos: nat, s: Stmt)
    requires s.Func? && FitsStmt(ts, pos, s) && pos < |ts|
    ensures Statement(ts, pos) == Done(s, pos + LenStmt(s), 0)
    decreases s, 1
  {
    hide FitsStmt, FitsItems, LenStmt, LenItems, Statement, Statements, LenSignature, SpellsSignature, Parameters, FuncDecl;
    StatementParts(ts, pos, s);
    var brace := pos + LenSignature(s.named, s.params);
    var end := brace + 1 + LenItems(s.block);
    ReadSignature(ts, pos, s.named, s.params);
    ReadItems(ts, brace + 1, s.block, TRBrace);
    assert ts[pos] == s.keyword;
    FuncStatement(ts, pos, s.named, s.params, brace, s.block, end);
  }

  /** A statement without a block of its own. */
  lemma {:induction false} ReadSimple(ts: seq<Tok>, pos: nat, s: Stmt)
    requires !s.Func? && FitsStmt(ts, pos, s) && ElseFree(ts, pos + LenStmt(s)) && pos < |ts|
    requires pos + LenStmt(s) < |ts| && ts[pos + LenStmt(s)].kind in {TNewline, TSemicolon, TRBrace, TEnd}
    requires s.Expression? ==> !(ts[pos].kind in {TReturn, TFunc, TMain, TVar, TConst})
    ensures Statement(ts, pos) == Done(s, pos + LenStmt(s), 0)
    decreases s, 1
  {
    hide Fits, FitsStmt, ElseFree, Len, LenStmt, Expr, Statement;
    StatementParts(ts, pos, s);
    var end := pos + LenStmt(s);
    match s
    case Expression(e) =>
      ReadLast(ts, pos, e, end);
      ExpressionStatement(ts, pos, e, end);
    case Return(e) =>
      ReadLast(ts, pos + 1, e, end);
      ReturnStatement(ts, pos, e, end);
    case Decl(isConst, declared, init) =>
      if !init.Missing? { ReadLast(ts, pos + 3, init, end); }
      DeclStatement(ts, pos, isConst, declared, init, end);
  }

  /** The expression that ends a statement. */
  lemma {:induction false} ReadLast(ts: seq<Tok>, pos: nat, e: Syn, end: nat)
    requires Fits(ts, pos, e, PREC_LOWEST) && end == pos + Len(e) && ElseFree(ts, end)
    requires end < |ts| && ts[end].kind in {TNewline, TSemicolon, TRBrace, TEnd}
    ensures Expr(ts, pos, PREC_LOWEST) == Done(e, end, 0)
    decreases e, 7
  {
    hide Fits, Follows, Len, ElseFree, Expr, RuleOf;
    EndOfStatement(ts, end, e);
    ReadOperand(ts, pos, e, PREC_LOWEST);
  }

  lemma EndOfStatement(ts: seq<Tok>, pos: nat, e: Syn)
    requires pos < |ts| && ts[pos].kind in {TNewline, TSemicolon, TRBrace, TEnd} && ElseFree(ts, pos)
    ensures Follows(ts, pos, e) && Precedence(ts[pos].kind) == PREC_NONE
  {
    hide Edge, OpenIf, ElseFree;
  }

  lemma {:induction false} StatementParts(ts: seq<Tok>, pos: nat, s: Stmt)
    requires FitsStmt(ts, pos, s)
    ensures s.Expression? ==> Fits(ts, pos, s.expr, PREC_LOWEST) && LenStmt(s) == Len(s.expr)
    ensures s.Return? ==>
              KindAt(ts, pos, TReturn) && Fits(ts, pos + 1, s.result, PREC_LOWEST) && LenStmt(s) == 1 + Len(s.result)
    ensures s.Decl? ==>
              && KindAt(ts, pos, DeclKeyword(s.isConst)) && TokenAt(ts, pos + 1, s.declared)
              && (s.init.Missing? ==> LenStmt(s) == 2)
              && (!s.init.Missing? ==>
                    && KindAt(ts, pos + 2, TEquals) && Fits(ts, pos + 3, s.init, PREC_LOWEST)
                    && LenStmt(s) == 3 + Len(s.init))
    ensures s.Func? ==>
              var brace := pos + LenSignature(s.named, s.params);
              && TokenAt(ts, pos, s.keyword) && (s.keyword.kind == TFunc || s.keyword.kind == TMain)
              && SpellsSignature(ts, pos + 1, s.named, s.params) && KindAt(ts, brace, TLBrace)
              && FitsItems(ts, brace + 1, s.block) && KindAt(ts, brace + 1 + LenItems(s.block), TRBrace)
              && LenStmt(s) == LenSignature(s.named, s.params) + 1 + LenItems(s.block) + 1
  {
    hide Shaped, Bound, Spells, Len, LenSignature, SpellsSignature;
  }

  lemma {:induction false} ExpressionStatement(ts: seq<Tok>, pos: nat, e: Syn, end: nat)
    requires pos < |ts| && !(ts[pos].kind in {TReturn, TFunc, TMain, TVar, TConst})
    requires Expr(ts, pos, PREC_LOWEST) == Done(e, end, 0)
    ensures Statement(ts, pos) == Done(Expression(e), end, 0)
  {
  }

  lemma {:induction false} ReturnStatement(ts: seq<Tok>, pos: nat, e: Syn, end: nat)
    requires KindAt(ts, pos, TReturn) && Expr(ts, pos + 1, PREC_LOWEST) == Done(e, end, 0)
    ensures Statement(ts, pos) == Done(Return(e), end, 0)
  {
  }

  lemma {:induction false} DeclStatement(ts: seq<Tok>, pos: nat, isConst: bool, declared: Tok, init: Syn, end: nat)
    requires KindAt(ts, pos, DeclKeyword(isConst)) && TokenAt(ts, pos + 1, declared)
    requires init.Missing? ==> end == pos + 2 && end < |ts| && ts[end].kind != TEquals
    requires !init.Missing? ==> KindAt(ts, pos + 2, TEquals) && Expr(ts, pos + 3, PREC_LOWEST) == Done(init, end, 0)
    ensures Statement(ts, pos) == Done(Decl(isConst, declared, init), end, 0)
  {
    hide Expr;
    assert ConstVarDecl(ts, pos) == Done(Decl(isConst, declared, init), end, 0);
  }

  lemma FuncStatement(ts: seq<Tok>, pos: nat, named: Option<string>, params: Params, brace: nat, block: Items, end: nat)
    requires pos < |ts| && (ts[pos].kind == TFunc || ts[pos].kind == TMain)
    requires named.Some? ==> TokenAt(ts, pos + 1, Tok(TIdent, named.value))
    requires named.None? ==> pos + 1 < |ts| && ts[pos + 1].kind != TIdent
    requires Parameters(ts, pos + 1 + (if named.Some? then 1 else 0)) == Done(params, brace, 0)
    requires KindAt(ts, brace, TLBrace) && Statements(ts, brace + 1, TRBrace) == Done(block, end, 0)
    ensures Statement(ts, pos) == Done(Func(ts[pos], named, params, block), end + 1, 0)
  {
    hide Parameters, Statements, Block;
    BlockStep(ts, brace + 1, block, end);
    assert FuncDecl(ts, pos) == Done(Func(ts[pos], named, params, block), end + 1, 0);
  }

  lemma ReadSignature(ts: seq<Tok>, pos: nat, named: Option<string>, params: Params)
    requires SpellsSignature(ts, pos + 1, named, params) && KindAt(ts, pos + LenSignature(named, params), TLBrace)
    ensures if named.Some? then TokenAt(ts, pos + 1, Tok(TIdent, named.value))
            else pos + 1 < |ts| && ts[pos + 1].kind != TIdent
    ensures Parameters(ts, pos + 1 + (if named.Some? then 1 else 0))
         == Done(params, pos + LenSignature(named, params), 0)
  {
    hide Parameters, LenParams, SpellsParams;
    ReadParameters(ts, pos + 1 + (if named.Some? then 1 else 0), params);
  }

  lemma {:induction false} ReadParameters(ts: seq<Tok>, pos: nat, params: Params)
    requires SpellsSignature(ts, pos, None, params)
    requires KindAt(ts, pos + (if params.NoParams? then 0 else LenParams(params) + 2), TLBrace)
    ensures Parameters(ts, pos) == Done(params, pos + (if params.NoParams? then 0 else LenParams(params) + 2), 0)
  {
    hide ParameterList, LenParams, SpellsParams;
    if params.Params? { ReadParameterList(ts, pos + 1, params); }
  }

  lemma {:induction false} ReadParameterList(ts: seq<Tok>, pos: nat, ps: Params)
    requires ps.Params? && SpellsParams(ts, pos, ps) && KindAt(ts, pos + LenParams(ps), TRParen)
    ensures ParameterList(ts, pos) == Done(ps, pos + LenParams(ps), 0)
    decreases ps
  {
    if ps.more.Params? {
      ReadParameterList(ts, pos + 1 + (if ps.typ.Some? then 2 else 0) + 1, ps.more);
    }
  }
}
