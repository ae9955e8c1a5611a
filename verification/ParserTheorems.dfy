/** What the parser accepts, stated on whole token arrays. */
module ParserTheorems {
  import opened Tokens
  import opened Syntax
  import opened ParserSpec
  import opened Grammar
  import opened RoundTrip
  import opened Converse
  import opened Spelled

  /** `s` is a well-bound expression for calling precedence `prec`. */
  ghost predicate WellBound(s: Syn, prec: nat) {
    Shaped(s) && Bound(s, prec)
  }

  ghost predicate WellBoundItems(items: Items) {
    ShapedItems(items) && BoundItems(items)
  }

  /** The tokens of `s` stand at `pos` and the token after them leaves `s` as it is. */
  ghost predicate StandsAt(ts: seq<Tok>, pos: nat, s: Syn, prec: nat) {
    var end := pos + |Yield(s)|;
    TokensAt(ts, pos, Yield(s)) && Follows(ts, end, s) && Precedence(ts[end].kind) <= prec
  }

  /** Round trip for expressions: what is spelled is what is read, up to exactly the following token. */
  lemma {:induction false} ExpressionRoundTrip(ts: seq<Tok>, pos: nat, s: Syn, prec: nat)
    requires WellBound(s, prec) && StandsAt(ts, pos, s, prec)
    ensures Expr(ts, pos, prec) == Done(s, pos + |Yield(s)|, 0)
  {
    hide Shaped, Bound, Yield, Spells, Len, Edge, OpenIf, Expr, RuleOf, ElseFree;
    SpelledSyn(ts, pos, s);
    ReadOperand(ts, pos, s, prec);
  }

  /** Error-free runs return exactly the well-bound derivations of the tokens they consume. */
  lemma {:induction false} ExpressionCharacterised(ts: seq<Tok>, pos: nat, prec: nat, s: Syn, end: nat)
    requires AllSpelled(ts)
    ensures Expr(ts, pos, prec) == Done(s, end, 0)
       <==> WellBound(s, prec) && end == pos + |Yield(s)| && StandsAt(ts, pos, s, prec)
  {
    hide AllSpelled, Shaped, Bound, Yield, Spells, Len, Edge, OpenIf, Expr, RuleOf, ElseFree;
    if Expr(ts, pos, prec) == Done(s, end, 0) {
      ExprBuilds(ts, pos, prec);
      LenYield(s);
      SpelledSyn(ts, pos, s);
    } else if WellBound(s, prec) && end == pos + |Yield(s)| && StandsAt(ts, pos, s, prec) {
      ExpressionRoundTrip(ts, pos, s, prec);
    }
  }

  lemma {:induction false} LenYield(s: Syn)
    ensures Len(s) == |Yield(s)|
  {
    SpelledSyn(Yield(s), 0, s);
  }

  /** No two well-bound derivations, parentheses included, spell the same tokens. */
  lemma {:induction false} ExpressionUnambiguous(s1: Syn, s2: Syn, prec: nat)
    requires WellBound(s1, prec) && WellBound(s2, prec) && Yield(s1) == Yield(s2)
    ensures s1 == s2
  {
    hide WellBound, Yield, Expr;
    var ts := Yield(s1) + [Tok(TEnd, "")];
    StandsBeforeEnd(s1, prec);
    StandsBeforeEnd(s2, prec);
    ExpressionRoundTrip(ts, 0, s1, prec);
    ExpressionRoundTrip(ts, 0, s2, prec);
  }

  lemma {:induction false} StandsBeforeEnd(s: Syn, prec: nat)
    ensures StandsAt(Yield(s) + [Tok(TEnd, "")], 0, s, prec)
  {
    hide Yield, Edge, OpenIf;
    var ts := Yield(s) + [Tok(TEnd, "")];
    assert ts[0..|Yield(s)|] == Yield(s);
  }

  /** A program is read exactly when its tokens are those of well-bound statements before an end token. */
  lemma {:induction false} ProgramCharacterised(ts: seq<Tok>, items: Items, end: nat)
    requires AllSpelled(ts)
    ensures Program(ts) == Done(items, end, 0)
       <==> && WellBoundItems(items) && end == |YieldItems(items)|
            && TokensAt(ts, 0, YieldItems(items)) && KindAt(ts, end, TEnd)
  {
    hide AllSpelled, ShapedItems, BoundItems, SpellsItems, YieldItems, LenItems, Statements;
    LenYieldItems(items);
    if |YieldItems(items)| <= |ts| { SpelledItems(ts, 0, items); }
    if Program(ts) == Done(items, end, 0) {
      StatementsBuild(ts, 0, TEnd);
    } else if WellBoundItems(items) && end == |YieldItems(items)|
           && TokensAt(ts, 0, YieldItems(items)) && KindAt(ts, end, TEnd) {
      ReadItems(ts, 0, items, TEnd);
    }
  }

  lemma {:induction false} LenYieldItems(items: Items)
    ensures LenItems(items) == |YieldItems(items)|
  {
    SpelledItems(YieldItems(items), 0, items);
  }

  /** Round trip for programs, whatever the texts of their tokens. */
  lemma {:induction false} ProgramRoundTrip(items: Items, rest: seq<Tok>)
    requires WellBoundItems(items) && rest != [] && rest[0].kind == TEnd
    ensures Program(YieldItems(items) + rest) == Done(items, |YieldItems(items)|, 0)
  {
    hide ShapedItems, BoundItems, SpellsItems, YieldItems, LenItems, Statements;
    var ts := YieldItems(items) + rest;
    LenYieldItems(items);
    SpelledItems(ts, 0, items);
    assert ts[0..|YieldItems(items)|] == YieldItems(items);
    ReadItems(ts, 0, items, TEnd);
  }

  lemma {:induction false} ProgramUnambiguous(p1: Items, p2: Items)
    requires WellBoundItems(p1) && WellBoundItems(p2) && YieldItems(p1) == YieldItems(p2)
    ensures p1 == p2
  {
    hide WellBoundItems, YieldItems, Program;
    var rest := [Tok(TEnd, "")];
    ProgramRoundTrip(p1, rest);
    ProgramRoundTrip(p2, rest);
  }

  /**
   In every run, erroneous ones included, an if that takes no else arm ends right after the brace
   at which the statements of its own block stopped, although it has looked over the newlines after it.
   */
  lemma {:induction false} IfWithoutElseRewinds(ts: seq<Tok>, pos: nat)
    requires IfExpr(ts, pos).Done? && IfExpr(ts, pos).value.els.NoElse?
    ensures var test := Expr(ts, pos, PREC_LOWEST);
            && test.Done?
            && var open := Expect(ts, SkipNewlines(ts, test.pos), TLBrace);
               && open.Done? && var block := Statements(ts, open.pos, TRBrace);
               && block.Done? && ts[block.pos].kind == TRBrace && IfExpr(ts, pos).value.body == block.value
               && IfExpr(ts, pos).pos == Block(ts, open.pos).pos == block.pos + 1
  {
    hide Expr, SkipNewlines, Statements, ElseArm, IfExpr, Block;
    IfEndsWithArm(ts, pos);
    var test := Expr(ts, pos, PREC_LOWEST);
    var open := Expect(ts, SkipNewlines(ts, test.pos), TLBrace);
    BlockIsStatements(ts, open.pos);
    NoElseStays(ts, Block(ts, open.pos).pos);
  }

  /** Separators in front of a program. */
  ghost function Seps(marks: seq<Tok>, rest: Items): Items {
    if marks == [] then rest else Sep(marks[0], Seps(marks[1..], rest))
  }

  ghost function AfterSeps(marks: seq<Tok>, r: Run<Items>): Run<Items> {
    if r.Done? then Done(Seps(marks, r.value), r.pos, r.errors) else r
  }

  /** Newlines where a statement could start are separators of the statements around them. */
  lemma {:induction false} NewlinesSeparate(ts: seq<Tok>, pos: nat, end: TokenType)
    requires pos <= |ts| && end != TNewline
    ensures var next := SkipNewlines(ts, pos);
            Statements(ts, pos, end) == AfterSeps(ts[pos..next], Statements(ts, next, end))
    decreases |ts| - pos
  {
    hide Statements, AfterSeps, SkipNewlines;
    var next := SkipNewlines(ts, pos);
    if pos < |ts| && ts[pos].kind == TNewline {
      OneNewline(ts, pos, end);
      NewlinesSeparate(ts, pos + 1, end);
      assert ts[pos..next] == [ts[pos]] + ts[pos + 1..next];
      JoinSeps(ts[pos], ts[pos + 1..next], Statements(ts, next, end));
    } else {
      NoNewline(ts, pos);
      assert ts[pos..next] == [];
      NoSeps(Statements(ts, pos, end));
    }
  }

  /** In every run a newline or a semicolon where a statement could start separates, and no error is counted for it. */
  lemma SeparatorsSeparate(ts: seq<Tok>, pos: nat, end: TokenType)
    requires pos < |ts| && (ts[pos].kind == TNewline || ts[pos].kind == TSemicolon) && ts[pos].kind != end
    ensures Statements(ts, pos, end) == AfterSeps([ts[pos]], Statements(ts, pos + 1, end))
  {
    hide Statement;
    var more := Statements(ts, pos + 1, end);
    if more.Done? { OneSep(ts[pos], more.value); }
  }

  /**
   In every run any other token but the end token starts a statement, and after the statement exactly one
   error is counted if neither a newline nor a semicolon nor the end token comes next.
   */
  lemma {:induction false} StatementsAreClosed(ts: seq<Tok>, pos: nat, end: TokenType)
    requires pos < |ts| && ts[pos].kind != TNewline && ts[pos].kind != TSemicolon && ts[pos].kind != end
    requires Statement(ts, pos).Done? && Statement(ts, pos).pos < |ts|
    ensures var stmt := Statement(ts, pos);
            var more := Statements(ts, stmt.pos, end);
            var next := ts[stmt.pos].kind;
            Statements(ts, pos, end) ==
              if more.Halt? then more
              else Done(Item(stmt.value, more.value), more.pos,
                        if next == TNewline || next == TSemicolon || next == end then stmt.errors + more.errors
                        else stmt.errors + more.errors + 1)
  {
    hide Statement;
  }

  lemma OneNewline(ts: seq<Tok>, pos: nat, end: TokenType)
    requires pos < |ts| && ts[pos].kind == TNewline && end != TNewline
    ensures Statements(ts, pos, end) == AfterSeps([ts[pos]], Statements(ts, pos + 1, end))
    ensures SkipNewlines(ts, pos) == SkipNewlines(ts, pos + 1)
  {
    hide Statement;
    var more := Statements(ts, pos + 1, end);
    if more.Done? { OneSep(ts[pos], more.value); }
  }

  lemma {:induction false} NoNewline(ts: seq<Tok>, pos: nat)
    ensures pos >= |ts| || ts[pos].kind != TNewline ==> SkipNewlines(ts, pos) == pos
  {
  }

  lemma NoSeps(r: Run<Items>)
    ensures AfterSeps([], r) == r
  {
  }

  lemma {:induction false} JoinSeps(mark: Tok, marks: seq<Tok>, r: Run<Items>)
    ensures AfterSeps([mark], AfterSeps(marks, r)) == AfterSeps([mark] + marks, r)
  {
    assert ([mark] + marks)[1..] == marks;
    if r.Done? { OneSep(mark, Seps(marks, r.value)); }
  }

  lemma {:induction false} OneSep(mark: Tok, rest: Items)
    ensures Seps([mark], rest) == Sep(mark, rest)
  {
    assert [mark][1..] == [];
    assert Seps([], rest) == rest;
  }

  /**
   An if statement without an else leaves all the newlines it looked over to the block around it:
   they are read as that block's separators, in every run, and no error is counted for them.
   */
  lemma {:induction false} IfKeepsSeparators(ts: seq<Tok>, pos: nat, end: TokenType)
    requires pos < |ts| && ts[pos].kind == TIf && (end == TRBrace || end == TEnd)
    requires IfExpr(ts, pos + 1).Done? && IfExpr(ts, pos + 1).value.els.NoElse?
    requires IfExpr(ts, pos + 1).pos < |ts| && ts[IfExpr(ts, pos + 1).pos].kind == TNewline
    ensures var stmt := IfExpr(ts, pos + 1);
            var next := SkipNewlines(ts, stmt.pos);
            var more := AfterSeps(ts[stmt.pos..next], Statements(ts, next, end));
            && stmt.pos < next
            && Statements(ts, pos, end) ==
                 if more.Halt? then more
                 else Done(Item(Expression(stmt.value), more.value), more.pos, stmt.errors + more.errors)
  {
    hide IfExpr, SkipNewlines, AfterSeps, Statements, Statement, RuleOf;
    var q := IfExpr(ts, pos + 1).pos;
    IfStatement(ts, pos);
    OneNewline(ts, q, end);
    NewlinesSeparate(ts, q, end);
    StatementFirst(ts, pos, end);
  }

  lemma {:induction false} IfStatement(ts: seq<Tok>, pos: nat)
    requires pos < |ts| && ts[pos].kind == TIf
    requires IfExpr(ts, pos + 1).Done? && KindAt(ts, IfExpr(ts, pos + 1).pos, TNewline)
    ensures Statement(ts, pos) == Done(Expression(IfExpr(ts, pos + 1).value), IfExpr(ts, pos + 1).pos, IfExpr(ts, pos + 1).errors)
  {
    hide IfExpr;
    var r := IfExpr(ts, pos + 1);
    assert Prefix(ts, pos) == r;
    assert Loop(ts, r.pos, r.value, PREC_LOWEST) == Done(r.value, r.pos, 0);
  }

  lemma {:induction false} StatementFirst(ts: seq<Tok>, pos: nat, end: TokenType)
    requires pos < |ts| && ts[pos].kind != end && !IsSeparator(ts[pos].kind)
    requires Statement(ts, pos).Done? && KindAt(ts, Statement(ts, pos).pos, TNewline)
    ensures var stmt := Statement(ts, pos);
            var more := Statements(ts, stmt.pos, end);
            Statements(ts, pos, end) ==
              if more.Halt? then more else Done(Item(stmt.value, more.value), more.pos, stmt.errors + more.errors)
  {
    hide Statement;
  }

  lemma {:induction false} IfEndsWithArm(ts: seq<Tok>, pos: nat)
    requires IfExpr(ts, pos).Done?
    ensures var test := Expr(ts, pos, PREC_LOWEST);
            && test.Done?
            && var open := Expect(ts, SkipNewlines(ts, test.pos), TLBrace);
               && open.Done? && Block(ts, open.pos).Done?
               && var arm := ElseArm(ts, Block(ts, open.pos).pos);
                  && arm.Done? && IfExpr(ts, pos).pos == arm.pos && IfExpr(ts, pos).value.els == arm.value
                  && IfExpr(ts, pos).value.body == Block(ts, open.pos).value
  {
    hide Expr, SkipNewlines, Block, ElseArm;
  }

  lemma {:induction false} BlockIsStatements(ts: seq<Tok>, pos: nat)
    ensures Block(ts, pos).Done? ==>
              var items := Statements(ts, pos, TRBrace);
              items.Done? && Block(ts, pos).value == items.value && Block(ts, pos).pos == items.pos + 1
  {
    hide Statements;
  }

  lemma {:induction false} NoElseStays(ts: seq<Tok>, pos: nat)
    ensures ElseArm(ts, pos).Done? && ElseArm(ts, pos).value.NoElse? ==> ElseArm(ts, pos).pos == pos
  {
    hide IfExpr, Block, SkipNewlines;
  }
}
