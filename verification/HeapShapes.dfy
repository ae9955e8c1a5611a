/** What each shape of tree does to the heap, and how runs add to it. */
module HeapShapes {
  import opened Tokens
  import opened Syntax
  import opened ParserSpec
  import opened Grammar
  import opened Pool
  import opened ParserSteps
  import opened StatementSteps
  import opened Heaps
  import Layout
  import HeapFrames

  lemma {:induction false} HeapNone(base: nat, h: Heap)
    ensures Build(NoTree, base, h) == h && BuildAll([], base, h) == h && PushArgs([], base, h) == Pushed(h, EMPTY)
    ensures forall node :: PushStmts([], node, base, h) == Pushed(h, EMPTY)
  {
  }

  lemma {:induction false} HeapOne(t: Tree, base: nat, h: Heap)
    ensures BuildAll([t], base, h) == Build(t, base, h)
  {
    hide Build, Size;
    assert [t][1..] == [];
    HeapNone(base + Size(t), Build(t, base, h));
  }

  lemma {:induction false} HeapTwo(a: Tree, b: Tree, base: nat, h: Heap)
    ensures BuildAll([a, b], base, h) == Build(b, base + Size(a), Build(a, base, h))
  {
    hide Build, Size;
    assert [a, b][1..] == [b];
    HeapOne(b, base + Size(a), Build(a, base, h));
  }

  lemma {:induction false} HeapThree(a: Tree, b: Tree, c: Tree, base: nat, h: Heap)
    ensures BuildAll([a, b, c], base, h) == Build(c, base + Size(a) + Size(b), Build(b, base + Size(a), Build(a, base, h)))
  {
    hide Build, Size;
    assert [a, b, c][1..] == [b, c];
    HeapTwo(b, c, base + Size(a), Build(a, base, h));
  }

  /** A tree without a list of its own. */
  lemma {:induction false} HeapParts(t: Tree, base: nat, h: Heap)
    requires !t.NoTree? && !t.BlockTree? && !t.CallTree? && !t.ArrayTree? && !t.FuncTree?
    ensures var parts, k := Parts(t), Earlier(t);
            Build(t, base, h) == BuildAll(parts[k..], base + Sizes(parts[..k]) + 1, BuildAll(parts[..k], base, h))
  {
    hide BuildAll, Parts, Earlier, Sizes, Size;
  }

  /** A node before its parts. */
  lemma {:induction false} HeapBefore(t: Tree, base: nat, h: Heap)
    requires !t.NoTree? && !t.BlockTree? && !t.CallTree? && !t.ArrayTree? && !t.FuncTree? && Earlier(t) == 0
    ensures Build(t, base, h) == BuildAll(Parts(t), base + 1, h)
  {
    hide Build, BuildAll, Parts, Earlier, Sizes, Size;
    HeapParts(t, base, h);
    assert Parts(t)[..0] == [] && Parts(t)[0..] == Parts(t);
    HeapNone(base, h);
    Layout.NoParts(base);
  }

  lemma {:induction false} HeapLeaf(t: Tree, base: nat, h: Heap)
    requires !t.NoTree? && Parts(t) == [] && !t.BlockTree?
    ensures Build(t, base, h) == h
  {
    hide Build, Sizes, Size;
    HeapBefore(t, base, h);
    HeapNone(base + 1, h);
  }

  lemma {:induction false} HeapFirst(t: Tree, e: Tree, base: nat, h: Heap)
    requires (t.UnaryTree? && t.operand == e) || t == ReturnTree(e)
    ensures Build(t, base, h) == Build(e, base + 1, h)
  {
    hide Build, Sizes, Size;
    HeapBefore(t, base, h);
    HeapOne(e, base + 1, h);
  }

  /** A node after its first part. */
  lemma {:induction false} HeapAfterFirst(t: Tree, first: Tree, rest: seq<Tree>, base: nat, h: Heap)
    requires !t.NoTree? && !t.BlockTree? && !t.CallTree? && !t.ArrayTree? && !t.FuncTree?
    requires Earlier(t) == 1 && Parts(t) == [first] + rest
    ensures Build(t, base, h) == BuildAll(rest, base + Size(first) + 1, Build(first, base, h))
  {
    hide Build, BuildAll, Parts, Earlier, Sizes, Size;
    HeapParts(t, base, h);
    assert Parts(t)[..1] == [first] && Parts(t)[1..] == rest;
    HeapOne(first, base, h);
    Layout.LayOne(first, base);
  }

  lemma {:induction false} HeapPair(t: Tree, l: Tree, r: Tree, base: nat, h: Heap)
    requires Layout.IsPair(t, l, r)
    ensures Build(t, base, h) == Build(r, base + Size(l) + 1, Build(l, base, h))
  {
    hide Build, Sizes, Size;
    assert [l, r] == [l] + [r];
    HeapAfterFirst(t, l, [r], base, h);
    HeapOne(r, base + Size(l) + 1, Build(l, base, h));
  }

  lemma {:induction false} HeapDot(l: Tree, member: Option<string>, base: nat, h: Heap)
    ensures Build(DotTree(l, member), base, h) == Build(l, base, h)
  {
    hide Build, Sizes, Size;
    assert [l] == [l] + [];
    HeapAfterFirst(DotTree(l, member), l, [], base, h);
    HeapNone(base + Size(l) + 1, Build(l, base, h));
  }

  lemma {:induction false} HeapTernary(c: Tree, y: Tree, n: Tree, base: nat, h: Heap)
    ensures var at := base + Size(c) + 1;
            Build(TernaryTree(c, y, n), base, h) == Build(n, at + Size(y), Build(y, at, Build(c, base, h)))
  {
    hide Build, Sizes, Size;
    assert [c, y, n] == [c] + [y, n];
    HeapAfterFirst(TernaryTree(c, y, n), c, [y, n], base, h);
    HeapTwo(y, n, base + Size(c) + 1, Build(c, base, h));
  }

  lemma {:induction false} HeapIf(c: Tree, y: Tree, n: Tree, base: nat, h: Heap)
    ensures Build(IfTree(c, y, n), base, h)
         == Build(n, base + Size(c) + Size(y), Build(y, base + Size(c), Build(c, base, h)))
  {
    hide Build, BuildAll, Sizes, Size;
    var t := IfTree(c, y, n);
    HeapParts(t, base, h);
    assert Parts(t)[..3] == [c, y, n] && Parts(t)[3..] == [];
    HeapThree(c, y, n, base, h);
    HeapNone(base + Sizes(Parts(t)[..3]) + 1, BuildAll([c, y, n], base, h));
  }

  lemma {:induction false} HeapCall(f: Tree, args: Trees, base: nat, h: Heap)
    ensures var at := base + Size(f);
            var p := PushArgs(List(args), at + 1, Build(f, base, h));
            Build(CallTree(f, args), base, h) == SetList(p.heap, at, p.slots)
  {
    hide BuildAll, PushArgs, Sizes, Size, List, Parts, Earlier;
    CallParts(f, args);
    HeapOne(f, base, h);
    Layout.LayOne(f, base);
  }

  lemma {:induction false} CallParts(f: Tree, args: Trees)
    ensures var t := CallTree(f, args);
            Earlier(t) == 1 <= |Parts(t)| && Parts(t)[..1] == [f] && Parts(t)[1..] == List(args)
  {
  }

  lemma {:induction false} HeapArray(elems: Trees, length: Tree, base: nat, h: Heap)
    ensures var p := PushArgs(List(elems), base + 1, h);
            Build(ArrayTree(elems, length), base, h)
              == SetList(Build(length, base + 1 + Sizes(List(elems)), p.heap), base, p.slots)
  {
    hide BuildAll, PushArgs, Sizes, Size, List, Parts, Earlier;
    var t := ArrayTree(elems, length);
    ArrayParts(t);
    HeapFrames.NoPartsYet(t, base, h);
  }

  lemma {:induction false} HeapBlock(stmts: Trees, base: nat, h: Heap)
    ensures Build(BlockTree(stmts), base, h) == PushStmts(List(stmts), base, base + 1, SetList(h, base, EMPTY)).heap
  {
    hide BuildAll, PushStmts, Sizes, Size, List;
    HeapFrames.NoPartsYet(BlockTree(stmts), base, h);
  }

  lemma {:induction false} HeapDecl(isConst: bool, name: string, init: Tree, base: nat, h: Heap)
    ensures Build(DeclTree(isConst, IdentTree(name), init), base, h) == Build(init, base + 2, h)
  {
    hide Build, Sizes, Size;
    HeapBefore(DeclTree(isConst, IdentTree(name), init), base, h);
    HeapTwo(IdentTree(name), init, base + 1, h);
    HeapLeaf(IdentTree(name), base + 1, h);
    Layout.LayLeaf(IdentTree(name), base + 1);
  }

  lemma {:induction false} NameHeap(name: string, base: nat, h: Heap)
    ensures Build(IdentTree(name), base, h) == h && Size(IdentTree(name)) == 1
  {
    hide Build, Size;
    HeapLeaf(IdentTree(name), base, h);
    Layout.LayLeaf(IdentTree(name), base);
  }

  lemma {:induction false} HeapFunc(name: string, params: seq<Param>, block: Tree, base: nat, h: Heap)
    ensures Build(FuncTree(IdentTree(name), params, block), base, h) == Build(block, base + 2, Describe(params, base, h))
  {
    hide BuildAll, Describe, Sizes, Size, Parts, Earlier;
    var t := FuncTree(IdentTree(name), params, block);
    FuncParts(t);
    HeapFrames.NoPartsYet(t, base, h);
    NameHeap(name, base + 1, h);
  }

  /** One more list element. */
  lemma {:induction false} HeapSnoc(ts: seq<Tree>, t: Tree, base: nat, h: Heap)
    ensures var p := PushArgs(ts, base, h);
            PushArgs(ts + [t], base, h) == PushArg(t, base + Sizes(ts), p.heap, p.slots)
  {
    hide PushArg, Sizes, Size;
    assert (ts + [t])[..|ts|] == ts;
  }

  lemma {:induction false} HeapSnocStmt(ts: seq<Tree>, t: Tree, node: nat, base: nat, h: Heap)
    ensures var p := PushStmts(ts, node, base, h);
            PushStmts(ts + [t], node, base, h) == PushStmt(t, node, base + Sizes(ts), p.heap, p.slots)
  {
    hide PushStmt, Sizes, Size;
    assert (ts + [t])[..|ts|] == ts;
  }

  lemma {:induction false} HeapSnocParam(ps: seq<Param>, p: Param, h: Heap)
    ensures var q := PushParams(ps, h);
            PushParams(ps + [p], h) == PushParam(p, q.heap, q.slots)
  {
    hide PushParam;
    assert (ps + [p])[..|ps|] == ps;
  }

  // ----- Lists only grow -----

  lemma {:induction false} MoreArgs(a: seq<Tree>, b: seq<Tree>, base: nat, h: Heap)
    ensures |PushArgs(a, base, h).heap.mem| <= |PushArgs(a + b, base, h).heap.mem|
    decreases |b|
  {
    hide PushArgs, PushArg;
    if b == [] {
      assert a + b == a;
    } else {
      var n := |b| - 1;
      MoreArgs(a, b[..n], base, h);
      HeapSnoc(a + b[..n], b[n], base, h);
      assert a + b == a + b[..n] + [b[n]];
    }
  }

  lemma {:induction false} MoreStmts(a: seq<Tree>, b: seq<Tree>, node: nat, base: nat, h: Heap)
    ensures |PushStmts(a, node, base, h).heap.mem| <= |PushStmts(a + b, node, base, h).heap.mem|
    decreases |b|
  {
    hide PushStmts, PushStmt;
    if b == [] {
      assert a + b == a;
    } else {
      var n := |b| - 1;
      MoreStmts(a, b[..n], node, base, h);
      HeapSnocStmt(a + b[..n], b[n], node, base, h);
      assert a + b == a + b[..n] + [b[n]];
    }
  }

  lemma {:induction false} MoreParams(a: seq<Param>, b: seq<Param>, h: Heap)
    ensures |PushParams(a, h).heap.mem| <= |PushParams(a + b, h).heap.mem|
    decreases |b|
  {
    hide PushParams, PushParam;
    if b == [] {
      assert a + b == a;
    } else {
      var n := |b| - 1;
      MoreParams(a, b[..n], h);
      HeapSnocParam(a + b[..n], b[n], h);
      assert a + b == a + b[..n] + [b[n]];
    }
  }

  // ----- An infix handler builds on its left operand -----

  ghost predicate BuildsOn(l: Tree, t: Tree, base: nat, h: Heap) {
    |Build(l, base, h).mem| <= |Build(t, base, h).mem|
  }

  lemma {:induction false} ExtendBuilds(ts: seq<Tok>, pos: nat, l: Syn, base: nat, h: Heap)
    requires pos < |ts| && Precedence(ts[pos].kind) > PREC_NONE
    ensures Extend(ts, pos, l).Done? ==> BuildsOn(Erase(l), Erase(Extend(ts, pos, l).value), base, h)
  {
    hide Expr, Arguments, EraseAll, Size, SizeAll, Expect, RuleOf, IsInfix, Build, Erase, Erased;
    var k := ts[pos].kind;
    if Extend(ts, pos, l).Done? {
      Operators(k);
      if IsInfix(k) {
        InfixRun(ts, pos, l);
        ErasedValue(Extend(ts, pos, l));
        ErasedValue(Expr(ts, pos + 1, RightPrecedence(k)));
        InfixBuilds(Erase(l), k, Erase(Expr(ts, pos + 1, RightPrecedence(k)).value), base, h);
      } else {
        OtherBuilds(ts, pos, l, base, h);
      }
    }
  }

  lemma ErasedValue(r: Run<Syn>)
    ensures r.Done? <==> Erased(r).Done?
    ensures r.Done? ==> Erased(r).value == Erase(r.value)
  {
    hide Erase;
  }

  lemma {:induction false} InfixBuilds(l: Tree, op: TokenType, r: Tree, base: nat, h: Heap)
    ensures BuildsOn(l, InfixTree(l, op, r), base, h)
  {
    hide Build, RuleOf, Size;
    HeapPair(BinaryTree(l, r), l, r, base, h);
    HeapPair(RangeTree(l, op == TDotDotEq, r), l, r, base, h);
    HeapPair(AssignTree(l, r), l, r, base, h);
  }

  lemma {:induction false} OtherBuilds(ts: seq<Tok>, pos: nat, l: Syn, base: nat, h: Heap)
    requires pos < |ts| && Precedence(ts[pos].kind) > PREC_NONE && ts[pos].kind in {TQuestion, TLParen, TLSqBracket, TDot, TComma}
    requires Extend(ts, pos, l).Done?
    ensures BuildsOn(Erase(l), Erase(Extend(ts, pos, l).value), base, h)
  {
    hide *;
    Operators(ts[pos].kind);
    ErasedValue(Extend(ts, pos, l));
    if ts[pos].kind == TQuestion {
      TernaryBuilds(ts, pos, l, base, h);
    } else if ts[pos].kind == TLParen {
      CallBuilds(ts, pos, l, base, h);
    } else if ts[pos].kind == TLSqBracket {
      IndexBuilds(ts, pos, l, base, h);
    } else {
      OnlyDot(ts, pos, l);
      DotBuilds(ts, pos, l, base, h);
    }
  }

  lemma {:induction false} TernaryBuilds(ts: seq<Tok>, pos: nat, l: Syn, base: nat, h: Heap)
    requires pos < |ts| && Precedence(ts[pos].kind) > PREC_NONE && RuleOf(ts[pos].kind).infix.TernaryInfix?
    requires Erased(Extend(ts, pos, l)).Done?
    ensures BuildsOn(Erase(l), Erased(Extend(ts, pos, l)).value, base, h)
  {
    hide Expr, Size, Expect, RuleOf, Build, Erase, Extend, Erased;
    TernaryRun(ts, pos, l);
    var t := Erased(Extend(ts, pos, l)).value;
    HeapTernary(Erase(l), t.yes, t.no, base, h);
  }

  lemma {:induction false} CallBuilds(ts: seq<Tok>, pos: nat, l: Syn, base: nat, h: Heap)
    requires pos < |ts| && Precedence(ts[pos].kind) > PREC_NONE && RuleOf(ts[pos].kind).infix.CallInfix?
    requires Erased(Extend(ts, pos, l)).Done?
    ensures BuildsOn(Erase(l), Erased(Extend(ts, pos, l)).value, base, h)
  {
    hide Arguments, EraseAll, Size, Expect, RuleOf, Build, Erase, Extend, Erased, PushArgs;
    CallRun(ts, pos, l);
    HeapCall(Erase(l), Erased(Extend(ts, pos, l)).value.args, base, h);
  }

  lemma {:induction false} IndexBuilds(ts: seq<Tok>, pos: nat, l: Syn, base: nat, h: Heap)
    requires pos < |ts| && Precedence(ts[pos].kind) > PREC_NONE && RuleOf(ts[pos].kind).infix.IndexInfix?
    requires Erased(Extend(ts, pos, l)).Done?
    ensures BuildsOn(Erase(l), Erased(Extend(ts, pos, l)).value, base, h)
  {
    hide Expr, Size, Expect, RuleOf, Build, Erase, Extend, Erased;
    IndexRun(ts, pos, l);
    var t := Erased(Extend(ts, pos, l)).value;
    HeapPair(t, Erase(l), t.index, base, h);
  }

  lemma {:induction false} DotBuilds(ts: seq<Tok>, pos: nat, l: Syn, base: nat, h: Heap)
    requires pos < |ts| && Precedence(ts[pos].kind) > PREC_NONE && RuleOf(ts[pos].kind).infix.DotInfix?
    requires Erased(Extend(ts, pos, l)).Done?
    ensures BuildsOn(Erase(l), Erased(Extend(ts, pos, l)).value, base, h)
  {
    hide Expect, Size, RuleOf, Build, Erase, Extend, Erased;
    DotRun(ts, pos, l);
    HeapDot(Erase(l), Erased(Extend(ts, pos, l)).value.member, base, h);
  }

  lemma {:induction false} LoopBuilds(ts: seq<Tok>, pos: nat, l: Syn, prec: nat, base: nat, h: Heap)
    ensures Loop(ts, pos, l, prec).Done? ==> BuildsOn(Erase(l), Erase(Loop(ts, pos, l, prec).value), base, h)
    decreases |ts| - pos
  {
    hide Extend, Build, Erase, RuleOf;
    if Loop(ts, pos, l, prec).Done? && prec < Precedence(ts[pos].kind) {
      ExtendBuilds(ts, pos, l, base, h);
      LoopBuilds(ts, Extend(ts, pos, l).pos, Extend(ts, pos, l).value, prec, base, h);
    }
  }

  // ----- Lists that a run goes on with -----

  lemma {:induction false} AppendLists(done: Syns, rest: Syns)
    ensures List(EraseAll(AppendSyns(done, rest))) == List(EraseAll(done)) + List(EraseAll(rest))
  {
    hide Erase;
    if done.Syns? {
      AppendLists(done.tail, rest);
      var a, b, c := [Erase(done.head)], List(EraseAll(done.tail)), List(EraseAll(rest));
      assert a + (b + c) == a + b + c;
    } else {
      assert List(EraseAll(NoSyns)) == [];
    }
  }

  lemma {:induction false} AppendItemLists(done: Items, rest: Items)
    ensures List(EraseItems(AppendItems(done, rest))) == List(EraseItems(done)) + List(EraseItems(rest))
  {
    hide EraseStmt;
    match done
    case NoItems => assert List(EraseItems(NoItems)) == [];
    case Sep(_, more) => AppendItemLists(more, rest);
    case Item(stmt, more) =>
      AppendItemLists(more, rest);
      var a, b, c := [EraseStmt(stmt)], List(EraseItems(more)), List(EraseItems(rest));
      assert a + (b + c) == a + b + c;
  }

  /** What is pushed so far takes no more than the whole list. */
  ghost predicate ArgsWithin(trees: seq<Tree>, whole: seq<Tree>, base: nat, h: Heap) {
    |PushArgs(trees, base, h).heap.mem| <= |PushArgs(whole, base, h).heap.mem|
  }

  lemma {:induction false} ArgsBefore(done: Syns, e: Syn, rest: Syns, base: nat, h: Heap)
    ensures ArgsWithin(List(EraseAll(done)) + [Erase(e)], List(EraseAll(AppendSyns(done, Syns(e, rest)))), base, h)
  {
    hide Erase, PushArgs, AppendSyns;
    var trees := List(EraseAll(done)) + [Erase(e)];
    AppendOne(done, e, rest);
    AppendLists(AppendSyns(done, Syns(e, NoSyns)), rest);
    MoreArgs(trees, List(EraseAll(rest)), base, h);
  }

  lemma {:induction false} ArgumentBuilds(ts: seq<Tok>, done: Syns, errors: nat, pos: nat, base: nat, h: Heap)
    ensures var e := Expr(ts, pos, PREC_COMMA);
            var whole := ListAfter(done, errors, ArgumentList(ts, pos));
            e.Done? && whole.Done? ==>
              ArgsWithin(List(EraseAll(done)) + [Erase(e.value)], List(EraseAll(whole.value)), base, h)
  {
    hide Expr, ArgumentList, AppendSyns, List, EraseAll, Erase, ArgsWithin;
    ArgumentRun(ts, pos);
    var e := Expr(ts, pos, PREC_COMMA);
    if e.Done? && e.pos < |ts| {
      if ts[e.pos].kind == TComma {
        var more := ArgumentList(ts, e.pos + 1);
        if more.Done? {
          NoSynsFirst(e.value, more.value);
          ArgsBefore(done, e.value, more.value, base, h);
        }
      } else {
        ArgsBefore(done, e.value, NoSyns, base, h);
      }
    }
  }

  lemma {:induction false} ElementBuilds(ts: seq<Tok>, done: Syns, errors: nat, pos: nat, base: nat, h: Heap)
    requires pos < |ts| && ts[pos].kind != TRSqBracket
    ensures var e := Expr(ts, pos, PREC_HIGHEST);
            var whole := ElemsAfter(done, errors, Elements(ts, pos));
            e.Done? && whole.Done? ==>
              ArgsWithin(List(EraseAll(done)) + [Erase(e.value)], List(EraseAll(whole.value.items)), base, h)
  {
    hide Expr, Elements, AppendSyns, List, EraseAll, Erase, ArgsWithin;
    ElementRun(ts, pos);
    var e := Expr(ts, pos, PREC_HIGHEST);
    if e.Done? && e.pos < |ts| {
      if ts[e.pos].kind == TComma {
        var more := Elements(ts, e.pos + 1);
        if more.Done? {
          NoSynsFirst(e.value, more.value.items);
          ArgsBefore(done, e.value, more.value.items, base, h);
        }
      } else {
        ArgsBefore(done, e.value, NoSyns, base, h);
      }
    }
  }

  lemma {:induction false} StatementBuilds(ts: seq<Tok>, done: Items, errors: nat, pos: nat, end: TokenType, node: nat, base: nat, h: Heap)
    requires pos < |ts| && ts[pos].kind != end && !IsSeparator(ts[pos].kind)
    ensures var stmt := Statement(ts, pos);
            var whole := ItemsAfter(done, errors, Statements(ts, pos, end));
            stmt.Done? && whole.Done? ==>
              |PushStmts(List(EraseItems(done)) + [EraseStmt(stmt.value)], node, base, h).heap.mem|
                <= |PushStmts(List(EraseItems(whole.value)), node, base, h).heap.mem|
  {
    hide AppendItems, Statement, Statements, List, EraseItems, EraseStmt, IsSeparator, PushStmts;
    StatementsRun(ts, pos, end);
    var stmt := Statement(ts, pos);
    if stmt.Done? && stmt.pos < |ts| {
      var more := Statements(ts, stmt.pos, end);
      var rest := if more.Done? then more.value else NoItems;
      AppendItem(done, stmt.value, rest);
      AppendItemLists(AppendItems(done, Item(stmt.value, NoItems)), rest);
      MoreStmts(List(EraseItems(done)) + [EraseStmt(stmt.value)], List(EraseItems(rest)), node, base, h);
    }
  }

  /** One more parameter takes no more than the whole list. */
  lemma {:induction false} ParameterBuilds(ts: seq<Tok>, done: seq<Param>, pos: nat, h: Heap)
    ensures var whole := ParamsAfter(done, ParameterList(ts, pos));
            var param := ParamRun(ts, pos);
            param.Done? && whole.Done? ==>
              |PushParams(done + [param.value], h).heap.mem| <= |PushParams(whole.value, h).heap.mem|
  {
    hide PushParams;
    var whole, param := ParamsAfter(done, ParameterList(ts, pos)), ParamRun(ts, pos);
    ParameterStep(ts, done, pos);
    if param.Done? && whole.Done? && param.pos < |ts| && ts[param.pos].kind == TComma {
      MoreParams(done + [param.value], ParamList(ParameterList(ts, param.pos + 1).value), h);
    }
  }

  // ----- Declarations and functions -----

  lemma {:induction false} DeclBuild(ts: seq<Tok>, pos: nat, base: nat, h: Heap)
    requires pos + 1 < |ts| && InitRun(ts, pos + 2).Done?
    ensures var run := ErasedStmt(ConstVarDecl(ts, pos));
            run.Done? && Build(run.value, base, h) == Build(InitRun(ts, pos + 2).value, base + 2, h)
  {
    hide InitRun, ErasedStmt, ConstVarDecl, Build, Size;
    DeclRun(ts, pos);
    HeapDecl(ts[pos].kind == TConst, ts[pos + 1].text, InitRun(ts, pos + 2).value, base, h);
  }

  lemma {:induction false} FuncBuild(ts: seq<Tok>, pos: nat, base: nat, h: Heap)
    requires pos + 1 < |ts| && BodyRun(ts, if ts[pos + 1].kind == TIdent then pos + 2 else pos + 1).Done?
    ensures var run := ErasedStmt(FuncDecl(ts, pos));
            var body := BodyRun(ts, if ts[pos + 1].kind == TIdent then pos + 2 else pos + 1);
            run.Done? && Build(run.value, base, h) == Build(body.value.1, base + 2, Describe(body.value.0, base, h))
  {
    hide BodyRun, ErasedStmt, FuncDecl, Build, Size, Describe;
    FuncRun(ts, pos);
    var at := if ts[pos + 1].kind == TIdent then pos + 2 else pos + 1;
    var body := BodyRun(ts, at);
    HeapFunc(ts[at - 1].text, body.value.0, body.value.1, base, h);
  }
}
