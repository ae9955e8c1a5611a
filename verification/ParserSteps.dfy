/** What each handler does to a run, down to the trees that the machine builds. */
module ParserSteps {
  import opened Tokens
  import opened Numbers
  import opened Syntax
  import opened ParserSpec
  import opened Grammar
  import opened Pool

  ghost function Erased(r: Run<Syn>): Run<Tree> {
    if r.Done? then Done(Erase(r.value), r.pos, r.errors) else Halt(r.why)
  }

  ghost function ErasedBlock(r: Run<Items>): Run<Tree> {
    if r.Done? then Done(BlockTree(EraseItems(r.value)), r.pos, r.errors) else Halt(r.why)
  }

  ghost function ErasedElse(r: Run<Else>): Run<Tree> {
    if r.Done? then Done(EraseElse(r.value), r.pos, r.errors) else Halt(r.why)
  }

  ghost function ErasedStmt(r: Run<Stmt>): Run<Tree> {
    if r.Done? then Done(EraseStmt(r.value), r.pos, r.errors) else Halt(r.why)
  }

  ghost function ErasedList(r: Run<Syns>): Run<seq<Tree>> {
    if r.Done? then Done(List(EraseAll(r.value)), r.pos, r.errors) else Halt(r.why)
  }

  // ----- Prefix handlers -----

  lemma {:induction false} LeafRun(ts: seq<Tok>, pos: nat)
    requires pos < |ts| && RuleOf(ts[pos].kind).prefix in
               {NumberPrefix, StringPrefix, IdentifierPrefix, NilPrefix, BoolPrefix}
    ensures Erased(Prefix(ts, pos))
         == Done(LeafTree(ts[pos]), pos + 1, if ts[pos].kind == TNum && FittingNumeral(ts[pos].text).None? then 1 else 0)
  {
    hide FittingNumeral, LeafTree;
  }

  lemma {:induction false} UnaryRun(ts: seq<Tok>, pos: nat)
    requires pos < |ts| && RuleOf(ts[pos].kind).prefix.UnaryPrefix?
    ensures var e := Erased(Expr(ts, pos + 1, PREC_UNARY));
            Erased(Prefix(ts, pos)) ==
            if e.Done? then Done(UnaryTree(ts[pos].kind, e.value), e.pos, e.errors) else e
  {
  }

  lemma {:induction false} GroupRun(ts: seq<Tok>, pos: nat)
    requires pos < |ts| && RuleOf(ts[pos].kind).prefix.GroupingPrefix?
    ensures var e := Erased(Expr(ts, pos + 1, PREC_LOWEST));
            Erased(Prefix(ts, pos)) ==
            if e.Done? then
              var close := Expect(ts, e.pos, TRParen);
              if close.Done? then Done(e.value, close.pos, e.errors + close.errors) else Halt(close.why)
            else e
  {
  }

  // ----- Infix handlers -----

  lemma {:induction false} InfixRun(ts: seq<Tok>, pos: nat, l: Syn)
    requires pos < |ts| && IsInfix(ts[pos].kind)
    ensures var k := ts[pos].kind;
            var e := Erased(Expr(ts, pos + 1, RightPrecedence(k)));
            Erased(Extend(ts, pos, l)) ==
            if e.Done? then Done(InfixTree(Erase(l), k, e.value), e.pos, e.errors) else e
  {
    hide InfixTree;
  }

  lemma {:induction false} BinaryRun(ts: seq<Tok>, pos: nat, l: Syn)
    requires pos < |ts| && RuleOf(ts[pos].kind).infix.BinaryInfix?
    ensures var e := Erased(Expr(ts, pos + 1, PREC_FACTOR));
            Erased(Extend(ts, pos, l)) ==
            if e.Done? then Done(BinaryTree(Erase(l), e.value), e.pos, e.errors) else e
  {
  }

  lemma {:induction false} RangeRun(ts: seq<Tok>, pos: nat, l: Syn)
    requires pos < |ts| && RuleOf(ts[pos].kind).infix.RangeInfix?
    ensures var e := Erased(Expr(ts, pos + 1, PREC_RANGE));
            Erased(Extend(ts, pos, l)) ==
            if e.Done? then Done(RangeTree(Erase(l), ts[pos].kind == TDotDotEq, e.value), e.pos, e.errors) else e
  {
  }

  lemma {:induction false} AssignRun(ts: seq<Tok>, pos: nat, l: Syn)
    requires pos < |ts| && RuleOf(ts[pos].kind).infix.AssignInfix?
    ensures var e := Erased(Expr(ts, pos + 1, PREC_LOWEST));
            Erased(Extend(ts, pos, l)) ==
            if e.Done? then Done(AssignTree(Erase(l), e.value), e.pos, e.errors) else e
  {
  }

  lemma {:induction false} TernaryRun(ts: seq<Tok>, pos: nat, c: Syn)
    requires pos < |ts| && RuleOf(ts[pos].kind).infix.TernaryInfix?
    ensures var y := Erased(Expr(ts, pos + 1, PREC_LOWEST));
            Erased(Extend(ts, pos, c)) ==
            if y.Halt? then y else
            var colon := Expect(ts, y.pos, TColon);
            if colon.Halt? then Halt(colon.why) else
            var n := Erased(Expr(ts, colon.pos, PREC_TERNARY));
            if n.Halt? then n
            else Done(TernaryTree(Erase(c), y.value, n.value), n.pos, y.errors + colon.errors + n.errors)
  {
  }

  lemma {:induction false} CallRun(ts: seq<Tok>, pos: nat, f: Syn)
    requires pos < |ts| && RuleOf(ts[pos].kind).infix.CallInfix?
    ensures var args := Arguments(ts, pos + 1);
            Erased(Extend(ts, pos, f)) ==
            if args.Halt? then Halt(args.why) else
            var close := Expect(ts, args.pos, TRParen);
            if close.Halt? then Halt(close.why)
            else Done(CallTree(Erase(f), EraseAll(args.value)), close.pos, args.errors + close.errors)
  {
    hide Arguments;
  }

  lemma {:induction false} IndexRun(ts: seq<Tok>, pos: nat, b: Syn)
    requires pos < |ts| && RuleOf(ts[pos].kind).infix.IndexInfix?
    ensures var e := Erased(Expr(ts, pos + 1, PREC_LOWEST));
            Erased(Extend(ts, pos, b)) ==
            if e.Halt? then e else
            var close := Expect(ts, e.pos, TRSqBracket);
            if close.Halt? then Halt(close.why)
            else Done(IndexTree(Erase(b), e.value), close.pos, e.errors + close.errors)
  {
  }

  lemma DotRun(ts: seq<Tok>, pos: nat, l: Syn)
    requires pos < |ts| && RuleOf(ts[pos].kind).infix.DotInfix?
    ensures var member := Expect(ts, pos + 1, TIdent);
            Erased(Extend(ts, pos, l)) ==
            if member.Halt? then Halt(member.why)
            else Done(DotTree(Erase(l), if member.value then Some(ts[pos + 1].text) else None), member.pos, member.errors)
  {
  }

  /** An infix handler only adds nodes. */
  lemma {:induction false} ExtendGrows(ts: seq<Tok>, pos: nat, l: Syn)
    requires pos < |ts| && Precedence(ts[pos].kind) > PREC_NONE
    ensures Extend(ts, pos, l).Done? ==> Size(Erase(l)) <= Size(Erase(Extend(ts, pos, l).value))
  {
    hide Expr, Arguments, EraseAll, Size, SizeAll, Expect, RuleOf, IsInfix;
    var k := ts[pos].kind;
    if Extend(ts, pos, l).Done? {
      Operators(k);
      if IsInfix(k) {
        InfixRun(ts, pos, l);
        InfixSize(Erase(l), k, Erase(Expr(ts, pos + 1, RightPrecedence(k)).value));
      } else if k == TQuestion {
        TernaryRun(ts, pos, l);
        GrownTernary(Erase(l));
      } else if k == TLParen {
        CallRun(ts, pos, l);
        GrownTernary(Erase(l));
      } else if k == TLSqBracket {
        IndexRun(ts, pos, l);
        GrownTernary(Erase(l));
      } else {
        OnlyDot(ts, pos, l);
        DotRun(ts, pos, l);
        GrownTernary(Erase(l));
      }
    }
  }

  lemma Operators(k: TokenType)
    requires Precedence(k) > PREC_NONE
    ensures IsInfix(k) || k in {TQuestion, TLParen, TLSqBracket, TDot, TComma}
    ensures k == TQuestion ==> RuleOf(k).infix.TernaryInfix?
    ensures k == TLParen ==> RuleOf(k).infix.CallInfix?
    ensures k == TLSqBracket ==> RuleOf(k).infix.IndexInfix?
    ensures k == TDot ==> RuleOf(k).infix.DotInfix?
    ensures k == TComma ==> RuleOf(k).infix.CommaInfix?
  {
  }

  lemma {:induction false} OnlyDot(ts: seq<Tok>, pos: nat, l: Syn)
    requires pos < |ts| && Extend.requires(ts, pos, l) && Extend(ts, pos, l).Done? && ts[pos].kind in {TDot, TComma}
    ensures ts[pos].kind == TDot && RuleOf(ts[pos].kind).infix.DotInfix?
  {
  }

  lemma {:induction false} GrownTernary(l: Tree)
    ensures forall y, n :: Size(l) <= Size(TernaryTree(l, y, n))
    ensures forall args :: Size(l) <= Size(CallTree(l, args))
    ensures forall i :: Size(l) <= Size(IndexTree(l, i))
    ensures forall member :: Size(l) <= Size(DotTree(l, member))
  {
    hide Size;
    forall y, n ensures Size(l) <= Size(TernaryTree(l, y, n)) { FirstPartFits(TernaryTree(l, y, n), l); }
    forall args ensures Size(l) <= Size(CallTree(l, args)) { FirstPartFits(CallTree(l, args), l); }
    forall i ensures Size(l) <= Size(IndexTree(l, i)) { FirstPartFits(IndexTree(l, i), l); }
    forall member ensures Size(l) <= Size(DotTree(l, member)) { FirstPartFits(DotTree(l, member), l); }
  }

  lemma {:induction false} FirstPartFits(t: Tree, l: Tree)
    requires !t.NoTree? && Parts(t) != [] && Parts(t)[0] == l
    ensures Size(l) <= Size(t)
  {
    hide Size, Parts;
    SizeOfParts(t);
    PartSize(Parts(t), 0);
  }

  lemma {:induction false} LoopGrows(ts: seq<Tok>, pos: nat, l: Syn, prec: nat)
    ensures Loop(ts, pos, l, prec).Done? ==> Size(Erase(l)) <= Size(Erase(Loop(ts, pos, l, prec).value))
    decreases |ts| - pos
  {
    hide Extend, Size, Erase, RuleOf;
    if Loop(ts, pos, l, prec).Done? && prec < Precedence(ts[pos].kind) {
      ExtendGrows(ts, pos, l);
      LoopGrows(ts, Extend(ts, pos, l).pos, Extend(ts, pos, l).value, prec);
    }
  }

  lemma {:induction false} ExprRun(ts: seq<Tok>, pos: nat, prec: nat)
    requires pos < |ts|
    ensures RuleOf(ts[pos].kind).prefix.NoPrefix? ==> Expr(ts, pos, prec) == Done(Missing, pos + 1, 1)
    ensures !RuleOf(ts[pos].kind).prefix.NoPrefix? ==>
              var head := Prefix(ts, pos);
              && (head.Halt? ==> Expr(ts, pos, prec) == head)
              && (head.Done? ==> Expr(ts, pos, prec) == Loop(ts, head.pos, head.value, prec).After(head.errors))
  {
    hide Prefix, Loop, RuleOf;
  }

  lemma {:induction false} LoopRun(ts: seq<Tok>, pos: nat, l: Syn, prec: nat)
    requires pos < |ts|
    ensures Precedence(ts[pos].kind) <= prec ==> Loop(ts, pos, l, prec) == Done(l, pos, 0)
    ensures prec < Precedence(ts[pos].kind) ==>
              var longer := Extend(ts, pos, l);
              && (longer.Halt? ==> Loop(ts, pos, l, prec) == longer)
              && (longer.Done? ==>
                    Loop(ts, pos, l, prec) == Loop(ts, longer.pos, longer.value, prec).After(longer.errors))
  {
    hide Extend, RuleOf;
  }

  // ----- Lists, loop by loop: what is done, and what the rest of the run will add -----

  ghost function AppendSyns(done: Syns, rest: Syns): Syns {
    match done
    case NoSyns => rest
    case Syns(head, tail) => Syns(head, AppendSyns(tail, rest))
  }

  ghost function ListAfter(done: Syns, errors: nat, r: Run<Syns>): Run<Syns> {
    if r.Done? then Done(AppendSyns(done, r.value), r.pos, errors + r.errors) else r
  }

  lemma {:induction false} AppendOne(done: Syns, e: Syn, rest: Syns)
    ensures AppendSyns(AppendSyns(done, Syns(e, NoSyns)), rest) == AppendSyns(done, Syns(e, rest))
    ensures List(EraseAll(AppendSyns(done, Syns(e, NoSyns)))) == List(EraseAll(done)) + [Erase(e)]
  {
    hide Erase;
    if done.Syns? {
      AppendOne(done.tail, e, rest);
    } else {
      assert EraseAll(Syns(e, NoSyns)) == Trees(Erase(e), EraseAll(NoSyns));
      assert List(Trees(Erase(e), NoTrees)) == [Erase(e)] + List(NoTrees);
    }
  }

  /** Appending cannot make a list's trees smaller. */
  lemma {:induction false} AppendGrows(done: Syns, rest: Syns)
    ensures Sizes(List(EraseAll(AppendSyns(done, rest)))) == Sizes(List(EraseAll(done))) + Sizes(List(EraseAll(rest)))
  {
    hide Erase, Size;
    if done.Syns? {
      AppendGrows(done.tail, rest);
      FirstOfList(EraseAll(done));
      FirstOfList(EraseAll(AppendSyns(done, rest)));
    }
  }

  lemma {:induction false} FirstOfList(ts: Trees)
    requires ts.Trees?
    ensures Sizes(List(ts)) == Size(ts.head) + Sizes(List(ts.tail))
  {
    hide Size;
    assert List(ts)[1..] == List(ts.tail);
  }

  lemma ArgumentRun(ts: seq<Tok>, pos: nat)
    ensures var e := Expr(ts, pos, PREC_COMMA);
            && (e.Halt? ==> ArgumentList(ts, pos) == Halt(e.why))
            && (e.Done? && e.pos >= |ts| ==> ArgumentList(ts, pos) == Halt(OffTokens))
            && (e.Done? && e.pos < |ts| && ts[e.pos].kind != TComma ==>
                  ArgumentList(ts, pos) == Done(Syns(e.value, NoSyns), e.pos, e.errors))
            && (e.Done? && e.pos < |ts| && ts[e.pos].kind == TComma ==>
                  ArgumentList(ts, pos) == ListAfter(Syns(e.value, NoSyns), e.errors, ArgumentList(ts, e.pos + 1)))
  {
    hide Expr, AppendSyns;
    var e := Expr(ts, pos, PREC_COMMA);
    if e.Done? && ArgumentList(ts, e.pos + 1).Done? { NoSynsFirst(e.value, ArgumentList(ts, e.pos + 1).value); }
  }

  /** One more argument: the rest of the run, as seen from the start of the list. */
  lemma {:induction false} ArgumentStep(ts: seq<Tok>, done: Syns, errors: nat, pos: nat)
    ensures var e := Expr(ts, pos, PREC_COMMA);
            var whole := ListAfter(done, errors, ArgumentList(ts, pos));
            && (e.Halt? ==> whole == Halt(e.why))
            && (e.Done? && e.pos >= |ts| ==> whole == Halt(OffTokens))
            && (e.Done? && e.pos < |ts| && ts[e.pos].kind != TComma ==>
                  whole == Done(AppendSyns(done, Syns(e.value, NoSyns)), e.pos, errors + e.errors))
            && (e.Done? && e.pos < |ts| && ts[e.pos].kind == TComma ==>
                  whole == ListAfter(AppendSyns(done, Syns(e.value, NoSyns)), errors + e.errors, ArgumentList(ts, e.pos + 1)))
            && (e.Done? && whole.Done? ==>
                  Sizes(List(EraseAll(done))) + Size(Erase(e.value)) <= Sizes(List(EraseAll(whole.value))))
  {
    hide Expr, ArgumentList, AppendSyns, Sizes, List, EraseAll, Size, Erase;
    ArgumentRun(ts, pos);
    var e := Expr(ts, pos, PREC_COMMA);
    if e.Done? && e.pos < |ts| {
      NeedsAtLeast(done, e.value, NoSyns);
      if ts[e.pos].kind == TComma {
        var more := ArgumentList(ts, e.pos + 1);
        if more.Done? {
          AppendOne(done, e.value, more.value);
          NoSynsFirst(e.value, more.value);
          NeedsAtLeast(done, e.value, more.value);
        }
      }
    }
  }

  lemma {:induction false} NeedsAtLeast(done: Syns, e: Syn, rest: Syns)
    ensures Sizes(List(EraseAll(done))) + Size(Erase(e)) <= Sizes(List(EraseAll(AppendSyns(done, Syns(e, rest)))))
  {
    hide Sizes, List, Erase, Size, AppendSyns;
    AppendGrows(done, Syns(e, rest));
    FirstOfList(EraseAll(Syns(e, rest)));
  }

  lemma {:induction false} NoSynsFirst(e: Syn, rest: Syns)
    ensures AppendSyns(Syns(e, NoSyns), rest) == Syns(e, rest)
  {
  }
}
