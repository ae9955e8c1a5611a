/**
 The grammar that the parser really reads, written out with token types and constructors alone: no rule
 table, no precedences. It is shown to be exactly the well-bound derivations.
 */
module Ladder {
  import opened Tokens
  import opened Numbers
  import opened Syntax
  import opened ParserSpec
  import opened Grammar
  import opened RoundTrip
  import opened Converse
  import opened ParserTheorems

  /** What may stand at a place, from the tightest to anything at all. */
  datatype Form =
    | Element      // of an array literal: a literal, a name, parentheses, brackets, an `if`, a minus or a not
    | Postfix      // what can be called, indexed or asked for a member
    | Prefixed     // any of these, after any number of minuses and nots
    | Operation    // a chain of binary operators, each of them with a prefixed right operand
    | Ranged       // a chain of ranges
    | Conditional  // a chain of ternaries
    | Any          // these, assigned to each other from the right

  predicate IsBinaryOperator(k: TokenType) {
    || k == TPlus || k == TMinus || k == TAsterisk || k == TSlash
    || k == TLt || k == TGt || k == TLtEq || k == TGtEq || k == TEqEq || k == TNotEq
  }

  /** Tokens that go on with an expression. */
  predicate GoesOn(k: TokenType) {
    || IsBinaryOperator(k) || k == TDotDot || k == TDotDotEq || k == TQuestion || k == TEquals || k == TComma
    || k == TLParen || k == TLSqBracket || k == TDot
  }

  ghost predicate LeafToken(t: Tok) {
    || t.kind == TIdent || t.kind == TString || (t.kind == TNum && FittingNumeral(t.text).Some?)
    || t == Tok(TNil, "nil") || t == Tok(TTrue, "true") || t == Tok(TFalse, "false")
  }

  ghost predicate AllNewlines(toks: seq<Tok>) {
    forall t :: t in toks ==> t.kind == TNewline
  }

  ghost predicate Reads(s: Syn, form: Form)
    decreases s
  {
    match s
    case Missing => false
    case Leaf(tok) => LeafToken(tok)
    case Group(e) => Reads(e, Any)
    case Array(elems, comma, length) =>
      && ReadsElements(elems)
      && (comma ==> elems.Syns?)
      && (length.Missing? || (Reads(length, Any) && elems.Syns? && elems.tail.NoSyns? && !comma))
    case If(c, newlines, body, els) => Reads(c, Any) && AllNewlines(newlines) && ReadsItems(body) && ReadsElse(els)
    case Call(f, args) => form != Element && Reads(f, Postfix) && ReadsArguments(args)
    case Index(b, i) => form != Element && Reads(b, Postfix) && Reads(i, Any)
    case Dot(l, member) => form != Element && Reads(l, Postfix) && member.Some?
    case Unary(op, e) => form != Postfix && (op == TMinus || op == TNot) && Reads(e, Prefixed)
    case Infix(l, op, r) =>
      if IsBinaryOperator(op) then
        (form == Operation || form == Ranged || form == Conditional || form == Any) && Reads(l, Operation) && Reads(r, Prefixed)
      else if op == TDotDot || op == TDotDotEq then
        (form == Ranged || form == Conditional || form == Any) && Reads(l, Ranged) && Reads(r, Operation)
      else op == TEquals && form == Any && Reads(l, Conditional) && Reads(r, Any)
    case Ternary(c, y, n) => (form == Conditional || form == Any) && Reads(c, Conditional) && Reads(y, Any) && Reads(n, Ranged)
  }

  ghost predicate ReadsElements(ss: Syns)
    decreases ss
  {
    ss.NoSyns? || (Reads(ss.head, Element) && ReadsElements(ss.tail))
  }

  /** An argument that a comma follows is no assignment. */
  ghost predicate ReadsArguments(ss: Syns)
    decreases ss
  {
    ss.NoSyns? || (Reads(ss.head, if ss.tail.NoSyns? then Any else Conditional) && ReadsArguments(ss.tail))
  }

  ghost predicate ReadsElse(e: Else)
    decreases e
  {
    match e
    case NoElse => true
    case ElseIf(before, after, nested) => AllNewlines(before) && AllNewlines(after) && nested.If? && Reads(nested, Any)
    case ElseBlock(before, after, items) => AllNewlines(before) && AllNewlines(after) && ReadsItems(items)
  }

  ghost predicate ReadsStmt(s: Stmt)
    decreases s
  {
    match s
    case Expression(e) => Reads(e, Any)
    case Return(e) => Reads(e, Any)
    case Decl(_, _, init) => init.Missing? || Reads(init, Any)
    case Func(keyword, _, _, block) => (keyword.kind == TFunc || keyword.kind == TMain) && ReadsItems(block)
  }

  /** Statements with newlines and semicolons around them, and at least one between any two. */
  ghost predicate ReadsItems(items: Items)
    decreases items
  {
    match items
    case NoItems => true
    case Sep(mark, rest) => (mark.kind == TNewline || mark.kind == TSemicolon) && ReadsItems(rest)
    case Item(stmt, rest) => ReadsStmt(stmt) && !rest.Item? && ReadsItems(rest)
  }

  // ----- Places and precedences -----

  /** The form that a calling precedence asks for. */
  ghost function FormAt(prec: nat): Form {
    if prec <= PREC_COMMA then Any
    else if prec <= PREC_TERNARY then Ranged
    else if prec <= PREC_AND then Operation
    else if prec <= PREC_UNARY then Prefixed
    else Element
  }

  /** The precedences at which the parser calls itself. */
  predicate IsPlace(prec: nat) {
    || prec == PREC_LOWEST || prec == PREC_COMMA || prec == PREC_TERNARY || prec == PREC_RANGE
    || prec == PREC_FACTOR || prec == PREC_UNARY || prec == PREC_HIGHEST
  }

  /** The right edge of a derivation that is read, by its outermost constructor. */
  ghost function TopEdge(s: Syn): nat {
    match s
    case Unary(_, _) => PREC_UNARY
    case Infix(_, op, _) =>
      if IsBinaryOperator(op) then PREC_FACTOR else if op == TDotDot || op == TDotDotEq then PREC_RANGE else PREC_LOWEST
    case Ternary(_, _, _) => PREC_TERNARY
    case _ => PREC_COUNT
  }

  /** Whether the outermost constructor may stand at a place. */
  ghost predicate TopFits(s: Syn, form: Form) {
    match s
    case Call(_, _) => form != Element
    case Index(_, _) => form != Element
    case Dot(_, _) => form != Element
    case Unary(_, _) => form != Postfix
    case Infix(_, op, _) =>
      if IsBinaryOperator(op) then form == Operation || form == Ranged || form == Conditional || form == Any
      else if op == TDotDot || op == TDotDotEq then form == Ranged || form == Conditional || form == Any
      else form == Any
    case Ternary(_, _, _) => form == Conditional || form == Any
    case _ => true
  }

  lemma {:induction false} ReadsTop(s: Syn, form: Form)
    ensures Reads(s, form) <==> Reads(s, Any) && TopFits(s, form)
  {
  }

  lemma OperatorRules(k: TokenType)
    ensures IsBinaryOperator(k) <==> RuleOf(k).infix.BinaryInfix?
    ensures IsBinaryOperator(k) ==> PREC_AND < Precedence(k) <= PREC_FACTOR && k != TEquals && RightPrecedence(k) == PREC_FACTOR
    ensures k == TDotDot || k == TDotDotEq <==> RuleOf(k).infix.RangeInfix?
    ensures k == TDotDot || k == TDotDotEq ==> Precedence(k) == PREC_RANGE == RightPrecedence(k)
    ensures k == TEquals <==> RuleOf(k).infix.AssignInfix?
    ensures k == TEquals ==> Precedence(k) == PREC_ASSIGN && RightPrecedence(k) == PREC_LOWEST
    ensures IsInfix(k) <==> IsBinaryOperator(k) || k == TDotDot || k == TDotDotEq || k == TEquals
  {
    hide RuleOf, IsBinaryOperator;
    BinaryRules(k);
    OtherRules(k);
    OnlyTheseAreBinary(k);
  }

  lemma BinaryRules(k: TokenType)
    ensures IsBinaryOperator(k) ==> RuleOf(k).infix.BinaryInfix? && PREC_AND < RuleOf(k).precedence <= PREC_FACTOR && k != TEquals
    ensures IsBinaryOperator(k) ==> k != TDotDot && k != TDotDotEq
  {
    match k
    case TPlus =>
    case TMinus =>
    case TAsterisk =>
    case TSlash =>
    case TLt =>
    case TGt =>
    case TLtEq =>
    case TGtEq =>
    case TEqEq =>
    case TNotEq =>
    case _ =>
  }

  lemma OtherRules(k: TokenType)
    ensures k == TDotDot || k == TDotDotEq ==> RuleOf(k).infix.RangeInfix? && RuleOf(k).precedence == PREC_RANGE
    ensures k == TEquals ==> RuleOf(k).infix.AssignInfix? && RuleOf(k).precedence == PREC_ASSIGN
    ensures RuleOf(k).infix.RangeInfix? ==> k == TDotDot || k == TDotDotEq
    ensures RuleOf(k).infix.AssignInfix? ==> k == TEquals
  {
  }

  lemma OnlyTheseAreBinary(k: TokenType)
    ensures RuleOf(k).infix.BinaryInfix? ==> IsBinaryOperator(k)
  {
  }

  lemma GoingOn(k: TokenType)
    ensures GoesOn(k) <==> Precedence(k) > PREC_LOWEST
  {
    hide RuleOf, IsBinaryOperator;
    BinaryRules(k);
    SomeGoOn();
    if !GoesOn(k) { OthersDoNot(k); }
  }

  lemma SomeGoOn()
    ensures forall k | k in {TDotDot, TDotDotEq, TQuestion, TEquals} :: RuleOf(k).precedence > PREC_LOWEST
    ensures forall k | k in {TComma, TLParen, TLSqBracket, TDot} :: RuleOf(k).precedence > PREC_LOWEST
  {
  }

  lemma OthersDoNot(k: TokenType)
    requires !GoesOn(k)
    ensures RuleOf(k).precedence == PREC_LOWEST
  {
    var rule := RuleOf(k);
    if rule.infix.NoInfix? {
      NoInfixRule(k);
    } else {
      assert false by { InfixGoesOn(k); }
    }
  }

  lemma NoInfixRule(k: TokenType)
    requires RuleOf(k).infix.NoInfix?
    ensures RuleOf(k).precedence == PREC_LOWEST
  {
  }

  lemma InfixGoesOn(k: TokenType)
    requires !RuleOf(k).infix.NoInfix?
    ensures GoesOn(k)
  {
    hide RuleOf, IsBinaryOperator;
    OperatorRules(k);
    PostfixRules(k);
  }

  lemma PostfixRules(k: TokenType)
    ensures RuleOf(k).infix.CallInfix? ==> k == TLParen
    ensures RuleOf(k).infix.IndexInfix? ==> k == TLSqBracket
    ensures RuleOf(k).infix.DotInfix? ==> k == TDot
    ensures RuleOf(k).infix.CommaInfix? ==> k == TComma
    ensures RuleOf(k).infix.TernaryInfix? ==> k == TQuestion
  {
  }

  /** What is read ends in an edge that its outermost constructor tells. */
  lemma {:induction false} EdgeOfRead(s: Syn)
    requires Reads(s, Any)
    ensures Edge(s) == TopEdge(s)
  {
    hide RuleOf, Precedence, RightPrecedence;
    match s
    case Unary(_, e) =>
      ReadsTop(e, Prefixed);
      EdgeOfRead(e);
    case Infix(_, op, r) =>
      OperatorRules(op);
      ReadsTop(r, if IsBinaryOperator(op) then Prefixed else if op == TEquals then Any else Operation);
      EdgeOfRead(r);
    case Ternary(_, _, n) =>
      ReadsTop(n, Ranged);
      EdgeOfRead(n);
    case _ =>
  }

  // ----- The same derivations -----

  /** What may be the left operand of an operator, which is met at a place looser than it. */
  ghost predicate TakesLeft(op: nat, form: Form) {
    || (form == Postfix && op == PREC_CALL)
    || (form == Operation && PREC_AND < op <= PREC_FACTOR)
    || (form == Ranged && op == PREC_RANGE)
    || (form == Conditional && (op == PREC_TERNARY || op == PREC_ASSIGN))
  }

  lemma {:induction false} LeftPlace(l: Syn, prec: nat, op: nat, form: Form)
    requires IsPlace(prec) && prec < op && TakesLeft(op, form)
    ensures Reads(l, FormAt(prec)) && op <= Edge(l) <==> Reads(l, form)
  {
    hide Reads, Edge, IsBinaryOperator;
    ReadsTop(l, FormAt(prec));
    ReadsTop(l, form);
    if Reads(l, Any) { EdgeOfRead(l); }
  }

  lemma {:induction false} SameLeaf(t: Tok)
    ensures ShapedLeaf(t) <==> LeafToken(t)
  {
    hide FittingNumeral, Fixed;
    LeafWords();
  }

  lemma LeafWords()
    ensures Fixed(TNil) == Tok(TNil, "nil") && Fixed(TTrue) == Tok(TTrue, "true") && Fixed(TFalse) == Tok(TFalse, "false")
  {
  }

  lemma {:induction false} SameNewlines(toks: seq<Tok>)
    ensures Newlines(toks) <==> AllNewlines(toks)
  {
  }

  /** A derivation is well bound at a place exactly when it is read there. */
  lemma {:induction false} BoundReads(s: Syn, prec: nat)
    requires IsPlace(prec)
    ensures WellBound(s, prec) <==> Reads(s, FormAt(prec))
    decreases s
  {
    hide LeafToken, ShapedLeaf, AllNewlines, Newlines, RuleOf, Precedence, RightPrecedence, IsBinaryOperator;
    match s
    case Missing =>
    case Leaf(tok) => SameLeaf(tok);
    case Group(e) => BoundReads(e, PREC_LOWEST);
    case Array(elems, comma, length) => ArrayReads(elems, comma, length, prec);
    case If(c, newlines, body, els) =>
      BoundReads(c, PREC_LOWEST);
      SameNewlines(newlines);
      ItemsRead(body);
      ElseReads(els);
    case Unary(op, e) =>
      BoundReads(e, PREC_UNARY);
      UnaryFits(s, prec);
    case Infix(l, op, r) => InfixReads(l, op, r, prec);
    case Ternary(c, y, n) => TernaryReads(c, y, n, prec);
    case _ => PostfixReads(s, prec);
  }

  lemma UnaryFits(s: Syn, prec: nat)
    requires IsPlace(prec)
    ensures FormAt(prec) != Postfix && FormAt(PREC_UNARY) == Prefixed == FormAt(PREC_FACTOR)
    ensures FormAt(PREC_LOWEST) == Any == FormAt(PREC_COMMA) && FormAt(PREC_TERNARY) == Ranged && FormAt(PREC_RANGE) == Operation
    ensures FormAt(PREC_HIGHEST) == Element
  {
  }

  lemma {:induction false} ArrayReads(elems: Syns, comma: bool, length: Syn, prec: nat)
    requires IsPlace(prec)
    ensures var s := Array(elems, comma, length);
            WellBound(s, prec) <==> Reads(s, FormAt(prec))
    decreases Array(elems, comma, length), 0
  {
    hide ShapedAll, BoundList, ReadsElements;
    ElementsRead(elems, comma);
    if length.Missing? {
      assert Bound(length, PREC_LOWEST);
    } else {
      BoundReads(length, PREC_LOWEST);
    }
  }

  lemma {:induction false} PostfixReads(s: Syn, prec: nat)
    requires IsPlace(prec) && (s.Call? || s.Index? || s.Dot?)
    ensures WellBound(s, prec) <==> Reads(s, FormAt(prec))
    decreases s, 0
  {
    hide Edge;
    var base := if s.Call? then s.callee else if s.Index? then s.base else s.owner;
    BoundReads(base, prec);
    if prec < PREC_CALL { LeftPlace(base, prec, PREC_CALL, Postfix); }
    if s.Call? { ArgumentsRead(s.args); }
    if s.Index? { BoundReads(s.index, PREC_LOWEST); }
  }

  lemma {:induction false} InfixReads(l: Syn, op: TokenType, r: Syn, prec: nat)
    requires IsPlace(prec)
    ensures var s := Infix(l, op, r);
            WellBound(s, prec) <==> Reads(s, FormAt(prec))
    decreases Infix(l, op, r), 0
  {
    hide Edge, RuleOf, Precedence, RightPrecedence, IsBinaryOperator, IsInfix, WellBound;
    OperatorRules(op);
    BoundInfix(l, op, r, prec);
    if IsInfix(op) {
      var right := RightPrecedence(op);
      BoundReads(l, prec);
      BoundReads(r, right);
      if prec < Precedence(op) {
        LeftPlace(l, prec, Precedence(op), if IsBinaryOperator(op) then Operation else if op == TEquals then Conditional else Ranged);
      }
    }
  }

  lemma {:induction false} BoundInfix(l: Syn, op: TokenType, r: Syn, prec: nat)
    ensures WellBound(Infix(l, op, r), prec) <==>
              && IsInfix(op) && WellBound(l, prec) && WellBound(r, RightPrecedence(op))
              && prec < Precedence(op) <= Edge(l)
  {
    hide IsInfix, RightPrecedence, RuleOf, Edge;
  }

  lemma {:induction false} TernaryReads(c: Syn, y: Syn, n: Syn, prec: nat)
    requires IsPlace(prec)
    ensures var s := Ternary(c, y, n);
            WellBound(s, prec) <==> Reads(s, FormAt(prec))
    decreases Ternary(c, y, n), 0
  {
    hide Edge;
    BoundReads(c, prec);
    BoundReads(y, PREC_LOWEST);
    BoundReads(n, PREC_TERNARY);
    if prec < PREC_TERNARY { LeftPlace(c, prec, PREC_TERNARY, Conditional); }
  }

  lemma {:induction false} ElementsRead(ss: Syns, comma: bool)
    ensures ShapedAll(ss) && BoundList(ss, PREC_HIGHEST, comma) <==> ReadsElements(ss)
    decreases ss
  {
    hide Edge, Reads;
    if ss.Syns? {
      BoundReads(ss.head, PREC_HIGHEST);
      ElementsRead(ss.tail, comma);
      if Reads(ss.head, Element) {
        ReadsTop(ss.head, Element);
        EdgeOfRead(ss.head);
      }
    }
  }

  lemma {:induction false} ArgumentsRead(ss: Syns)
    ensures ShapedAll(ss) && BoundList(ss, PREC_COMMA, false) <==> ReadsArguments(ss)
    decreases ss
  {
    hide Edge, Reads;
    if ss.Syns? {
      BoundReads(ss.head, PREC_COMMA);
      ArgumentsRead(ss.tail);
      ReadsTop(ss.head, Conditional);
      if Reads(ss.head, Any) {
        EdgeOfRead(ss.head);
        AssignOnTop(ss.head);
      }
    }
  }

  /** Only an assignment has an edge that a comma binds tighter than. */
  lemma {:induction false} AssignOnTop(s: Syn)
    requires Reads(s, Any)
    ensures TopFits(s, Conditional) <==> PREC_COMMA <= TopEdge(s)
  {
  }

  lemma {:induction false} ElseReads(e: Else)
    ensures ShapedElse(e) && BoundElse(e) <==> ReadsElse(e)
    decreases e
  {
    match e
    case NoElse =>
    case ElseIf(before, after, nested) =>
      SameNewlines(before);
      SameNewlines(after);
      BoundReads(nested, PREC_LOWEST);
    case ElseBlock(before, after, items) =>
      SameNewlines(before);
      SameNewlines(after);
      ItemsRead(items);
  }

  lemma {:induction false} StmtReads(s: Stmt)
    ensures ShapedStmt(s) && BoundStmt(s) <==> ReadsStmt(s)
    decreases s
  {
    match s
    case Expression(e) => BoundReads(e, PREC_LOWEST);
    case Return(e) => BoundReads(e, PREC_LOWEST);
    case Decl(_, _, init) => if !init.Missing? { BoundReads(init, PREC_LOWEST); }
    case Func(_, _, _, block) => ItemsRead(block);
  }

  lemma {:induction false} ItemsRead(items: Items)
    ensures WellBoundItems(items) <==> ReadsItems(items)
    decreases items
  {
    match items
    case NoItems =>
    case Sep(_, rest) => ItemsRead(rest);
    case Item(stmt, rest) =>
      StmtReads(stmt);
      ItemsRead(rest);
  }

  // ----- What is read, and how -----

  /** The tokens of `s` end at `end`, and the token there does not go on with it. */
  ghost predicate Ends(ts: seq<Tok>, end: nat, s: Syn) {
    end < |ts| && !GoesOn(ts[end].kind) && (OpenIf(s) ==> ElseFree(ts, end))
  }

  /** The parser reads exactly this grammar: an expression is read without error if and only if it is one of it. */
  lemma {:induction false} ExpressionLadder(ts: seq<Tok>, pos: nat, s: Syn, end: nat)
    requires AllSpelled(ts)
    ensures Expr(ts, pos, PREC_LOWEST) == Done(s, end, 0)
       <==> Reads(s, Any) && end == pos + |Yield(s)| && TokensAt(ts, pos, Yield(s)) && Ends(ts, end, s)
  {
    hide AllSpelled, WellBound, Yield, Reads, Edge, OpenIf, ElseFree, Expr, GoesOn, RuleOf, Precedence, TokensAt;
    ExpressionCharacterised(ts, pos, PREC_LOWEST, s, end);
    BoundReads(s, PREC_LOWEST);
    if end < |ts| { GoingOn(ts[end].kind); }
  }

  /** A tighter place takes no more than a looser one. */
  lemma {:induction false} LooserPlace(s: Syn, prec: nat, looser: nat)
    requires Bound(s, prec) && looser <= prec
    ensures Bound(s, looser)
    decreases s
  {
    hide BoundList, BoundItems, BoundElse, Edge, RuleOf;
    match s
    case Infix(l, _, _) => LooserPlace(l, prec, looser);
    case Ternary(c, _, _) => LooserPlace(c, prec, looser);
    case Call(f, _) => LooserPlace(f, prec, looser);
    case Index(b, _) => LooserPlace(b, prec, looser);
    case Dot(l, _) => LooserPlace(l, prec, looser);
    case _ =>
  }

  /** Whatever precedence the parser is called at, an expression without error is one of this grammar. */
  lemma {:induction false} EveryExpressionIsRead(ts: seq<Tok>, pos: nat, prec: nat)
    requires AllSpelled(ts) && Clean(Expr(ts, pos, prec))
    ensures Reads(Expr(ts, pos, prec).value, Any)
  {
    hide AllSpelled, Shaped, Bound, Yield, Reads, Expr, StandsAt;
    var r := Expr(ts, pos, prec);
    ExpressionCharacterised(ts, pos, prec, r.value, r.pos);
    LooserPlace(r.value, prec, PREC_LOWEST);
    BoundReads(r.value, PREC_LOWEST);
  }

  /** The same for programs: no error if and only if the tokens are those of statements of this grammar. */
  lemma {:induction false} ProgramLadder(ts: seq<Tok>, items: Items, end: nat)
    requires AllSpelled(ts)
    ensures Program(ts) == Done(items, end, 0)
       <==> && ReadsItems(items) && end == |YieldItems(items)|
            && TokensAt(ts, 0, YieldItems(items)) && KindAt(ts, end, TEnd)
  {
    hide AllSpelled, WellBoundItems, YieldItems, ReadsItems, Program, TokensAt;
    ProgramCharacterised(ts, items, end);
    ItemsRead(items);
  }

  /** Tokens have one reading. */
  lemma {:induction false} OneReading(s: Syn, t: Syn)
    requires Reads(s, Any) && Reads(t, Any) && Yield(s) == Yield(t)
    ensures s == t
  {
    hide WellBound, Yield, Reads;
    BoundReads(s, PREC_LOWEST);
    BoundReads(t, PREC_LOWEST);
    ExpressionUnambiguous(s, t, PREC_LOWEST);
  }

  ghost predicate OnlyReading(s: Syn) {
    Reads(s, Any) && forall t :: Reads(t, Any) && Yield(t) == Yield(s) ==> t == s
  }

  lemma {:induction false} IsOnlyReading(s: Syn)
    requires Reads(s, Any)
    ensures OnlyReading(s)
  {
    hide Reads, Yield;
    forall t | Reads(t, Any) && Yield(t) == Yield(s) ensures t == s { OneReading(s, t); }
  }

  /** A minus or a not in front of a call applies to the whole of it. */
  lemma {:induction false} PrefixTakesCall(op: TokenType, f: Syn, args: Syns)
    requires (op == TMinus || op == TNot) && Reads(f, Postfix) && ReadsArguments(args)
    ensures OnlyReading(Unary(op, Call(f, args))) && Yield(Call(Unary(op, f), args)) == Yield(Unary(op, Call(f, args)))
  {
    hide OnlyReading, YieldList, Fixed;
    IsOnlyReading(Unary(op, Call(f, args)));
  }

  /** The same for an index and for a member. */
  lemma {:induction false} PrefixTakesIndex(op: TokenType, b: Syn, index: Syn)
    requires (op == TMinus || op == TNot) && Reads(b, Postfix) && Reads(index, Any)
    ensures OnlyReading(Unary(op, Index(b, index))) && Yield(Index(Unary(op, b), index)) == Yield(Unary(op, Index(b, index)))
  {
    hide OnlyReading, Fixed;
    IsOnlyReading(Unary(op, Index(b, index)));
  }

  lemma {:induction false} PrefixTakesMember(op: TokenType, owner: Syn, member: string)
    requires (op == TMinus || op == TNot) && Reads(owner, Postfix)
    ensures var whole := Unary(op, Dot(owner, Some(member)));
            OnlyReading(whole) && Yield(Dot(Unary(op, owner), Some(member))) == Yield(whole)
  {
    hide OnlyReading, Fixed;
    IsOnlyReading(Unary(op, Dot(owner, Some(member))));
  }

  /** Ternaries nest to the left, and the derivation that nests to the right is never built from those tokens. */
  lemma {:induction false} TernariesNestLeft(a: Syn, b: Syn, c: Syn, d: Syn, e: Syn)
    requires Reads(a, Ranged) && Reads(b, Any) && Reads(c, Ranged) && Reads(d, Any) && Reads(e, Ranged)
    ensures OnlyReading(Ternary(Ternary(a, b, c), d, e))
    ensures Yield(Ternary(a, b, Ternary(c, d, e))) == Yield(Ternary(Ternary(a, b, c), d, e))
  {
    hide OnlyReading, Yield;
    ReadsTop(a, Ranged);
    ReadsTop(a, Conditional);
    IsOnlyReading(Ternary(Ternary(a, b, c), d, e));
    TernaryTokens(a, b, c, d, e);
  }

  lemma {:induction false} TernaryTokens(a: Syn, b: Syn, c: Syn, d: Syn, e: Syn)
    ensures Yield(Ternary(a, b, Ternary(c, d, e))) == Yield(Ternary(Ternary(a, b, c), d, e))
  {
    hide Yield;
    TernaryYield(a, b, Ternary(c, d, e));
    TernaryYield(c, d, e);
    TernaryYield(Ternary(a, b, c), d, e);
    TernaryYield(a, b, c);
  }

  lemma {:induction false} TernaryYield(c: Syn, y: Syn, n: Syn)
    ensures Yield(Ternary(c, y, n)) == Yield(c) + [Fixed(TQuestion)] + Yield(y) + [Fixed(TColon)] + Yield(n)
  {
    hide Fixed;
  }

  /** Ranges nest to the left. */
  lemma {:induction false} RangesNestLeft(a: Syn, b: Syn, c: Syn, op1: TokenType, op2: TokenType)
    requires (op1 == TDotDot || op1 == TDotDotEq) && (op2 == TDotDot || op2 == TDotDotEq)
    requires Reads(a, Operation) && Reads(b, Operation) && Reads(c, Operation)
    ensures OnlyReading(Infix(Infix(a, op1, b), op2, c))
  {
    hide OnlyReading;
    ReadsTop(a, Operation);
    ReadsTop(a, Ranged);
    IsOnlyReading(Infix(Infix(a, op1, b), op2, c));
  }

  /** Assignments nest to the right. */
  lemma {:induction false} AssignmentsNestRight(a: Syn, b: Syn, c: Syn)
    requires Reads(a, Conditional) && Reads(b, Conditional) && Reads(c, Any)
    ensures OnlyReading(Infix(a, TEquals, Infix(b, TEquals, c)))
  {
    hide OnlyReading;
    IsOnlyReading(Infix(a, TEquals, Infix(b, TEquals, c)));
  }
}
