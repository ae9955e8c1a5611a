/** The runs of the handlers, as a handler sees them: from just after the token that it handles. */
module Handlers {
  import opened Tokens
  import opened Numbers
  import opened Syntax
  import opened ParserSpec
  import opened Pool
  import opened ParserSteps
  import opened StatementSteps
  import opened Placement

  /** The run of the infix handler of the token just consumed. */
  ghost function Extended(ts: seq<Tok>, pos: nat, l: Syn): Run<Tree> {
    if 0 < pos <= |ts| && Precedence(ts[pos - 1].kind) > PREC_NONE then Erased(Extend(ts, pos - 1, l)) else Halt(OffTokens)
  }

  /** The run of its prefix handler. */
  ghost function Prefixed(ts: seq<Tok>, pos: nat): Run<Tree> {
    if 0 < pos <= |ts| && !RuleOf(ts[pos - 1].kind).prefix.NoPrefix? then Erased(Prefix(ts, pos - 1)) else Halt(OffTokens)
  }

  /** An expression from `pos` on, with what the machine needs to know about where it ends. */
  lemma {:induction false} OperandEnds(ts: seq<Tok>, pos: nat, prec: nat)
    ensures var e := Erased(Expr(ts, pos, prec));
            e.Done? ==> pos < e.pos <= |ts|
  {
    hide Expr, Erase;
  }

  lemma {:induction false} UnaryHere(ts: seq<Tok>, pos: nat)
    requires 0 < pos <= |ts| && RuleOf(ts[pos - 1].kind).prefix.UnaryPrefix?
    ensures var e := Erased(Expr(ts, pos, PREC_UNARY));
            && Prefixed(ts, pos) == (if e.Done? then Done(UnaryTree(ts[pos - 1].kind, e.value), e.pos, e.errors) else e)
            && (e.Done? ==> pos < e.pos <= |ts|)
  {
    hide Expr, Erase, Erased, Prefix;
    UnaryRun(ts, pos - 1);
    OperandEnds(ts, pos, PREC_UNARY);
  }

  lemma {:induction false} GroupHere(ts: seq<Tok>, pos: nat)
    requires 0 < pos <= |ts| && RuleOf(ts[pos - 1].kind).prefix.GroupingPrefix?
    ensures var e := Erased(Expr(ts, pos, PREC_LOWEST));
            Prefixed(ts, pos) ==
            if e.Done? then
              var close := Expect(ts, e.pos, TRParen);
              if close.Done? then Done(e.value, close.pos, e.errors + close.errors) else Halt(close.why)
            else e
  {
    hide Expr, Erase, Erased, Prefix;
    GroupRun(ts, pos - 1);
  }

  lemma {:induction false} LeafHere(ts: seq<Tok>, pos: nat)
    requires 0 < pos <= |ts| && RuleOf(ts[pos - 1].kind).prefix in {StringPrefix, IdentifierPrefix, NilPrefix, BoolPrefix}
    ensures Prefixed(ts, pos) == Done(LeafTree(ts[pos - 1]), pos, 0)
  {
    hide Erased, Prefix, LeafTree;
    LeafRun(ts, pos - 1);
    LeafKinds(ts[pos - 1]);
  }

  lemma {:induction false} NumberHere(ts: seq<Tok>, pos: nat)
    requires 0 < pos <= |ts| && RuleOf(ts[pos - 1].kind).prefix.NumberPrefix?
    ensures var n := FittingNumeral(ts[pos - 1].text);
            && LeafTree(ts[pos - 1]) == NumberTree(n.GetOr(0))
            && Prefixed(ts, pos) == Done(LeafTree(ts[pos - 1]), pos, if n.Some? then 0 else 1)
  {
    hide Erased, Prefix, LeafTree, FittingNumeral;
    NumberRun(ts, pos - 1);
  }

  lemma {:induction false} ArrayHere(ts: seq<Tok>, pos: nat)
    requires 0 < pos <= |ts| && RuleOf(ts[pos - 1].kind).prefix.ArrayPrefix?
    ensures var list := Elements(ts, pos);
            && (list.Done? ==> list.pos <= |ts|)
            && Prefixed(ts, pos) ==
               if list.Halt? then Halt(list.why)
               else
                 var elems := EraseAll(list.value.items);
                 var length := LengthRun(ts, list.pos, |List(elems)|);
                 if length.Halt? then length
                 else Done(ArrayTree(elems, length.value), length.pos, list.errors + length.errors)
  {
    hide Elements, Erased, Prefix, LengthRun, List, EraseAll;
    ArrayRun(ts, pos - 1);
    ElementsWithin(ts, pos - 1);
  }

  lemma {:induction false} IfHere(ts: seq<Tok>, pos: nat)
    requires 0 < pos <= |ts| && RuleOf(ts[pos - 1].kind).prefix.IfPrefix?
    ensures Prefixed(ts, pos) == Erased(IfExpr(ts, pos))
  {
    hide IfExpr, Erased, Prefix;
    IfIsPrefix(ts, pos - 1);
  }

  lemma {:induction false} ForHere(ts: seq<Tok>, pos: nat)
    requires 0 < pos <= |ts| && RuleOf(ts[pos - 1].kind).prefix.ForPrefix?
    ensures Prefixed(ts, pos) == Halt(ForExpression)
  {
    hide Prefix;
    NoLoops(ts, pos - 1);
  }

  // ----- Infix handlers -----

  lemma {:induction false} BinaryHere(ts: seq<Tok>, pos: nat, l: Syn)
    requires 0 < pos <= |ts| && RuleOf(ts[pos - 1].kind).infix.BinaryInfix?
    ensures var e := Erased(Expr(ts, pos, PREC_FACTOR));
            && Extended(ts, pos, l) == (if e.Done? then Done(BinaryTree(Erase(l), e.value), e.pos, e.errors) else e)
            && (e.Done? ==> pos < e.pos <= |ts|)
  {
    hide Expr, Erase, Erased, Extend;
    BinaryRun(ts, pos - 1, l);
    OperandEnds(ts, pos, PREC_FACTOR);
  }

  lemma {:induction false} RangeHere(ts: seq<Tok>, pos: nat, l: Syn)
    requires 0 < pos <= |ts| && RuleOf(ts[pos - 1].kind).infix.RangeInfix?
    ensures var e := Erased(Expr(ts, pos, PREC_RANGE));
            && Extended(ts, pos, l) ==
                 (if e.Done? then Done(RangeTree(Erase(l), ts[pos - 1].kind == TDotDotEq, e.value), e.pos, e.errors) else e)
            && (e.Done? ==> pos < e.pos <= |ts|)
  {
    hide Expr, Erase, Erased, Extend;
    RangeRun(ts, pos - 1, l);
    OperandEnds(ts, pos, PREC_RANGE);
  }

  lemma {:induction false} AssignHere(ts: seq<Tok>, pos: nat, l: Syn)
    requires 0 < pos <= |ts| && RuleOf(ts[pos - 1].kind).infix.AssignInfix?
    ensures var e := Erased(Expr(ts, pos, PREC_LOWEST));
            && Extended(ts, pos, l) == (if e.Done? then Done(AssignTree(Erase(l), e.value), e.pos, e.errors) else e)
            && (e.Done? ==> pos < e.pos <= |ts|)
  {
    hide Expr, Erase, Erased, Extend;
    AssignRun(ts, pos - 1, l);
    OperandEnds(ts, pos, PREC_LOWEST);
  }

  lemma {:induction false} TernaryHere(ts: seq<Tok>, pos: nat, c: Syn)
    requires 0 < pos <= |ts| && RuleOf(ts[pos - 1].kind).infix.TernaryInfix?
    ensures var y := Erased(Expr(ts, pos, PREC_LOWEST));
            && (y.Done? ==> pos < y.pos <= |ts|)
            && Extended(ts, pos, c) ==
               if y.Halt? then y else
               var colon := Expect(ts, y.pos, TColon);
               if colon.Halt? then Halt(colon.why) else
               var n := Erased(Expr(ts, colon.pos, PREC_TERNARY));
               if n.Halt? then n
               else Done(TernaryTree(Erase(c), y.value, n.value), n.pos, y.errors + colon.errors + n.errors)
  {
    hide Expr, Expect, Erase, Extend, Erased;
    TernaryRun(ts, pos - 1, c);
    OperandEnds(ts, pos, PREC_LOWEST);
  }

  lemma {:induction false} CallHere(ts: seq<Tok>, pos: nat, f: Syn)
    requires 0 < pos <= |ts| && RuleOf(ts[pos - 1].kind).infix.CallInfix?
    ensures var args := Arguments(ts, pos);
            Extended(ts, pos, f) ==
            if args.Halt? then Halt(args.why) else
            var close := Expect(ts, args.pos, TRParen);
            if close.Halt? then Halt(close.why)
            else Done(CallTree(Erase(f), EraseAll(args.value)), close.pos, args.errors + close.errors)
  {
    hide Arguments, Expect, Erase, Extend, Erased, EraseAll;
    CallRun(ts, pos - 1, f);
  }

  lemma {:induction false} IndexHere(ts: seq<Tok>, pos: nat, b: Syn)
    requires 0 < pos <= |ts| && RuleOf(ts[pos - 1].kind).infix.IndexInfix?
    ensures var e := Erased(Expr(ts, pos, PREC_LOWEST));
            && (e.Done? ==> pos < e.pos <= |ts|)
            && Extended(ts, pos, b) ==
               if e.Halt? then e else
               var close := Expect(ts, e.pos, TRSqBracket);
               if close.Halt? then Halt(close.why)
               else Done(IndexTree(Erase(b), e.value), close.pos, e.errors + close.errors)
  {
    hide Expr, Expect, Erase, Extend, Erased;
    IndexRun(ts, pos - 1, b);
    OperandEnds(ts, pos, PREC_LOWEST);
  }

  lemma {:induction false} DotHere(ts: seq<Tok>, pos: nat, l: Syn)
    requires 0 < pos <= |ts| && RuleOf(ts[pos - 1].kind).infix.DotInfix?
    ensures var member := Expect(ts, pos, TIdent);
            Extended(ts, pos, l) ==
            if member.Halt? then Halt(member.why)
            else Done(DotTree(Erase(l), if member.value then Some(ts[pos].text) else None), member.pos, member.errors)
  {
    hide Erase, Extend, Erased;
    DotRun(ts, pos - 1, l);
  }

  lemma {:induction false} CommaHere(ts: seq<Tok>, pos: nat, l: Syn)
    requires 0 < pos <= |ts| && Precedence(ts[pos - 1].kind) > PREC_NONE
    ensures !RuleOf(ts[pos - 1].kind).infix.NoInfix?
    ensures RuleOf(ts[pos - 1].kind).infix.CommaInfix? ==> Extended(ts, pos, l) == Halt(CommaOperator)
  {
    hide Extend, RuleOf;
    NoTuples(ts, pos - 1, l);
  }

  /** In the loop: an infix handler's run, seen from the operator. */
  lemma {:induction false} ExtendedNext(ts: seq<Tok>, pos: nat, l: Syn)
    requires pos < |ts| && Precedence(ts[pos].kind) > PREC_NONE
    ensures Extended(ts, pos + 1, l) == Erased(Extend(ts, pos, l))
  {
    hide Extend, Erased;
  }

  lemma {:induction false} PrefixedNext(ts: seq<Tok>, pos: nat)
    requires pos < |ts| && !RuleOf(ts[pos].kind).prefix.NoPrefix?
    ensures Prefixed(ts, pos + 1) == Erased(Prefix(ts, pos))
  {
    hide Prefix, Erased;
  }
}
