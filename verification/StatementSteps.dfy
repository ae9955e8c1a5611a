/** The same for array literals, if expressions, blocks and statements. */
module StatementSteps {
  import opened Tokens
  import opened Syntax
  import opened ParserSpec
  import opened Pool
  import opened ParserSteps

  // ----- Array literals -----

  ghost function ErasedElems(r: Run<ElemList>): Run<seq<Tree>> {
    if r.Done? then Done(List(EraseAll(r.value.items)), r.pos, r.errors) else Halt(r.why)
  }

  ghost function ElemsAfter(done: Syns, errors: nat, r: Run<ElemList>): Run<ElemList> {
    if r.Done? then Done(ElemList(AppendSyns(done, r.value.items), r.value.comma), r.pos, errors + r.errors) else r
  }

  /** The optional length of an array literal with `count` elements, and its closing bracket. */
  ghost function LengthRun(ts: seq<Tok>, pos: nat, count: nat): Run<Tree> {
    if pos >= |ts| then Halt(OffTokens)
    else if ts[pos].kind == TSemicolon then
      var length :- Erased(Expr(ts, pos + 1, PREC_LOWEST));
      var close :- Expect(ts, length.pos, TRSqBracket);
      Done(length.value, close.pos, (if count == 1 then 0 else 1) + length.errors + close.errors)
    else
      var close :- Expect(ts, pos, TRSqBracket);
      Done(NoTree, close.pos, close.errors)
  }

  lemma {:induction false} ArrayRun(ts: seq<Tok>, pos: nat)
    requires pos < |ts| && RuleOf(ts[pos].kind).prefix.ArrayPrefix?
    ensures var list := Elements(ts, pos + 1);
            Erased(Prefix(ts, pos)) ==
            if list.Halt? then Halt(list.why)
            else
              var elems := EraseAll(list.value.items);
              var length := LengthRun(ts, list.pos, |List(elems)|);
              if length.Halt? then length
              else Done(ArrayTree(elems, length.value), length.pos, list.errors + length.errors)
  {
    hide ArrayLiteral, Elements, LengthRun, List, EraseAll;
    ArrayLiteralRun(ts, pos + 1);
  }

  lemma {:induction false} ArrayLiteralRun(ts: seq<Tok>, pos: nat)
    ensures var list := Elements(ts, pos);
            Erased(ArrayLiteral(ts, pos)) ==
            if list.Halt? then Halt(list.why)
            else
              var elems := EraseAll(list.value.items);
              var length := LengthRun(ts, list.pos, |List(elems)|);
              if length.Halt? then length
              else Done(ArrayTree(elems, length.value), length.pos, list.errors + length.errors)
  {
    hide Elements, Expr, EraseAll, List, Expect;
    var list := Elements(ts, pos);
    if list.Done? { OneElement(list.value.items); }
    assert Erase(Missing) == NoTree;
  }

  lemma {:induction false} OneElement(ss: Syns)
    ensures |List(EraseAll(ss))| == 1 <==> ss.Syns? && ss.tail.NoSyns?
  {
    hide Erase;
    if ss.Syns? && ss.tail.Syns? {
      assert List(EraseAll(ss)) == [Erase(ss.head)] + List(EraseAll(ss.tail));
      assert List(EraseAll(ss.tail)) == [Erase(ss.tail.head)] + List(EraseAll(ss.tail.tail));
    }
  }

  lemma {:induction false} ElementRun(ts: seq<Tok>, pos: nat)
    requires pos < |ts| && ts[pos].kind != TRSqBracket
    ensures var e := Expr(ts, pos, PREC_HIGHEST);
            && (e.Halt? ==> Elements(ts, pos) == Halt(e.why))
            && (e.Done? && e.pos >= |ts| ==> Elements(ts, pos) == Halt(OffTokens))
            && (e.Done? && e.pos < |ts| && ts[e.pos].kind != TComma ==>
                  Elements(ts, pos) == Done(ElemList(Syns(e.value, NoSyns), false), e.pos, e.errors))
            && (e.Done? && e.pos < |ts| && ts[e.pos].kind == TComma ==>
                  Elements(ts, pos) == ElemsAfter(Syns(e.value, NoSyns), e.errors, Elements(ts, e.pos + 1)))
  {
    hide Expr, AppendSyns;
    var e := Expr(ts, pos, PREC_HIGHEST);
    if e.Done? && Elements(ts, e.pos + 1).Done? { NoSynsFirst(e.value, Elements(ts, e.pos + 1).value.items); }
  }

  lemma {:induction false} ElementStep(ts: seq<Tok>, done: Syns, errors: nat, pos: nat)
    requires pos < |ts| && ts[pos].kind != TRSqBracket
    ensures var e := Expr(ts, pos, PREC_HIGHEST);
            var whole := ElemsAfter(done, errors, Elements(ts, pos));
            && (e.Halt? ==> whole == Halt(e.why))
            && (e.Done? && e.pos >= |ts| ==> whole == Halt(OffTokens))
            && (e.Done? && e.pos < |ts| && ts[e.pos].kind != TComma ==>
                  whole == Done(ElemList(AppendSyns(done, Syns(e.value, NoSyns)), false), e.pos, errors + e.errors))
            && (e.Done? && e.pos < |ts| && ts[e.pos].kind == TComma ==>
                  whole == ElemsAfter(AppendSyns(done, Syns(e.value, NoSyns)), errors + e.errors, Elements(ts, e.pos + 1)))
            && (e.Done? && whole.Done? ==>
                  Sizes(List(EraseAll(done))) + Size(Erase(e.value)) <= Sizes(List(EraseAll(whole.value.items))))
  {
    hide Expr, Elements, AppendSyns, Sizes, List, EraseAll, Size, Erase;
    ElementRun(ts, pos);
    var e := Expr(ts, pos, PREC_HIGHEST);
    if e.Done? && e.pos < |ts| {
      NeedsAtLeast(done, e.value, NoSyns);
      if ts[e.pos].kind == TComma {
        var more := Elements(ts, e.pos + 1);
        if more.Done? {
          AppendOne(done, e.value, more.value.items);
          NoSynsFirst(e.value, more.value.items);
          NeedsAtLeast(done, e.value, more.value.items);
        }
      }
    }
  }

  lemma {:induction false} AppendNothing(done: Syns)
    ensures AppendSyns(done, NoSyns) == done
  {
    if done.Syns? { AppendNothing(done.tail); }
  }

  /** Where the loop over elements ends for want of one. */
  lemma {:induction false} LastElements(ts: seq<Tok>, done: Syns, errors: nat, pos: nat)
    ensures var whole := ElemsAfter(done, errors, Elements(ts, pos));
            && (pos >= |ts| ==> whole == Halt(OffTokens))
            && (pos < |ts| && ts[pos].kind == TRSqBracket ==> whole == Done(ElemList(done, true), pos, errors))
  {
    hide AppendSyns;
    AppendNothing(done);
  }

  // ----- If expressions -----

  /** The block of an if, from just after its test. */
  ghost function ThenRun(ts: seq<Tok>, pos: nat): (r: Run<Tree>)
    ensures r.Done? && pos <= |ts| ==> pos < r.pos <= |ts|
  {
    var open :- Expect(ts, SkipNewlines(ts, pos), TLBrace);
    var body :- ErasedBlock(Block(ts, open.pos));
    Done(body.value, body.pos, open.errors + body.errors)
  }

  lemma {:induction false} IfRun(ts: seq<Tok>, pos: nat)
    ensures var c := Erased(Expr(ts, pos, PREC_LOWEST));
            Erased(IfExpr(ts, pos)) ==
            if c.Halt? then c else
            var body := ThenRun(ts, c.pos);
            if body.Halt? then body else
            var els := ErasedElse(ElseArm(ts, body.pos));
            if els.Halt? then els
            else Done(IfTree(c.value, body.value, els.value), els.pos, c.errors + body.errors + els.errors)
  {
    hide Expr, SkipNewlines, Block, ElseArm, EraseItems;
  }

  /** The arm itself, after `else` and newlines. */
  ghost function ArmRun(ts: seq<Tok>, pos: nat): Run<Tree> {
    if pos >= |ts| then Halt(OffTokens)
    else if ts[pos].kind == TIf then Erased(IfExpr(ts, pos + 1))
    else
      var open :- Expect(ts, pos, TLBrace);
      var body :- ErasedBlock(Block(ts, open.pos));
      Done(body.value, body.pos, open.errors + body.errors)
  }

  lemma ElseRun(ts: seq<Tok>, pos: nat)
    ensures var next := SkipNewlines(ts, pos);
            ErasedElse(ElseArm(ts, pos)) ==
            if next >= |ts| then Halt(OffTokens)
            else if ts[next].kind != TElse then Done(NoTree, pos, 0)
            else ArmRun(ts, SkipNewlines(ts, next + 1))
  {
    hide IfExpr, SkipNewlines, Block, EraseItems;
  }

  // ----- Blocks and statements -----

  ghost function AppendItems(done: Items, rest: Items): Items {
    match done
    case NoItems => rest
    case Sep(mark, more) => Sep(mark, AppendItems(more, rest))
    case Item(stmt, more) => Item(stmt, AppendItems(more, rest))
  }

  ghost function ItemsAfter(done: Items, errors: nat, r: Run<Items>): Run<Items> {
    if r.Done? then Done(AppendItems(done, r.value), r.pos, errors + r.errors) else r
  }

  ghost function ErasedItems(r: Run<Items>): Run<seq<Tree>> {
    if r.Done? then Done(List(EraseItems(r.value)), r.pos, r.errors) else Halt(r.why)
  }

  lemma {:induction false} AppendSep(done: Items, mark: Tok, rest: Items)
    ensures AppendItems(AppendItems(done, Sep(mark, NoItems)), rest) == AppendItems(done, Sep(mark, rest))
    ensures EraseItems(AppendItems(done, Sep(mark, NoItems))) == EraseItems(done)
  {
    hide EraseStmt;
    if !done.NoItems? { AppendSep(done.rest, mark, rest); }
  }

  lemma {:induction false} AppendItem(done: Items, stmt: Stmt, rest: Items)
    ensures AppendItems(AppendItems(done, Item(stmt, NoItems)), rest) == AppendItems(done, Item(stmt, rest))
    ensures List(EraseItems(AppendItems(done, Item(stmt, NoItems)))) == List(EraseItems(done)) + [EraseStmt(stmt)]
  {
    hide EraseStmt;
    if !done.NoItems? {
      AppendItem(done.rest, stmt, rest);
    } else {
      assert List(Trees(EraseStmt(stmt), NoTrees)) == [EraseStmt(stmt)] + List(NoTrees);
    }
  }

  lemma {:induction false} AppendItemsGrows(done: Items, rest: Items)
    ensures Sizes(List(EraseItems(AppendItems(done, rest)))) == Sizes(List(EraseItems(done))) + Sizes(List(EraseItems(rest)))
  {
    hide EraseStmt, Size;
    match done
    case NoItems =>
    case Sep(_, more) => AppendItemsGrows(more, rest);
    case Item(_, more) =>
      AppendItemsGrows(more, rest);
      FirstOfList(EraseItems(done));
      FirstOfList(EraseItems(AppendItems(done, rest)));
  }

  lemma {:induction false} AppendNoItems(done: Items)
    ensures AppendItems(done, NoItems) == done
  {
    if !done.NoItems? { AppendNoItems(done.rest); }
  }

  lemma {:induction false} BlockRun(ts: seq<Tok>, pos: nat)
    ensures var items := Statements(ts, pos, TRBrace);
            ErasedBlock(Block(ts, pos)) ==
            if items.Halt? then Halt(items.why) else Done(BlockTree(EraseItems(items.value)), items.pos + 1, items.errors)
  {
    hide Statements, EraseItems;
  }

  lemma EndsAreNotSeparators()
    ensures !IsSeparator(TRBrace) && !IsSeparator(TEnd)
  {
  }

  /** Where the loop over statements ends. */
  lemma {:induction false} EndStep(ts: seq<Tok>, done: Items, errors: nat, pos: nat, end: TokenType)
    ensures pos >= |ts| ==> ItemsAfter(done, errors, Statements(ts, pos, end)) == Halt(OffTokens)
    ensures pos < |ts| && ts[pos].kind == end ==> ItemsAfter(done, errors, Statements(ts, pos, end)) == Done(done, pos, errors)
  {
    hide AppendItems;
    AppendNoItems(done);
  }

  /** A separator where a statement could have started. */
  lemma SeparatorStep(ts: seq<Tok>, done: Items, errors: nat, pos: nat, end: TokenType)
    requires pos < |ts| && ts[pos].kind != end && IsSeparator(ts[pos].kind)
    ensures ItemsAfter(done, errors, Statements(ts, pos, end)) ==
            ItemsAfter(AppendItems(done, Sep(ts[pos], NoItems)), errors, Statements(ts, pos + 1, end))
    ensures EraseItems(AppendItems(done, Sep(ts[pos], NoItems))) == EraseItems(done)
  {
    hide AppendItems, EraseItems, Statements, IsSeparator;
    SeparatorRun(ts, pos, end);
    var more := Statements(ts, pos + 1, end);
    AppendSep(done, ts[pos], if more.Done? then more.value else NoItems);
  }

  lemma {:induction false} SeparatorRun(ts: seq<Tok>, pos: nat, end: TokenType)
    requires pos < |ts| && ts[pos].kind != end && IsSeparator(ts[pos].kind)
    ensures var more := Statements(ts, pos + 1, end);
            Statements(ts, pos, end) == if more.Done? then Done(Sep(ts[pos], more.value), more.pos, more.errors) else more
  {
    hide Statement;
  }

  /** A statement, with the check of what follows it. */
  lemma {:induction false} StatementStep(ts: seq<Tok>, done: Items, errors: nat, pos: nat, end: TokenType)
    requires pos < |ts| && ts[pos].kind != end && !IsSeparator(ts[pos].kind)
    ensures var stmt := Statement(ts, pos);
            var whole := ItemsAfter(done, errors, Statements(ts, pos, end));
            && (stmt.Halt? ==> whole == Halt(stmt.why))
            && (stmt.Done? && stmt.pos >= |ts| ==> whole == Halt(OffTokens))
            && (stmt.Done? && stmt.pos < |ts| ==>
                  var closed := IsSeparator(ts[stmt.pos].kind) || ts[stmt.pos].kind == end;
                  whole == ItemsAfter(AppendItems(done, Item(stmt.value, NoItems)),
                                      errors + stmt.errors + (if closed then 0 else 1), Statements(ts, stmt.pos, end)))
            && (stmt.Done? && whole.Done? ==>
                  Sizes(List(EraseItems(done))) + Size(EraseStmt(stmt.value)) <= Sizes(List(EraseItems(whole.value))))
  {
    hide AppendItems, Statement, Statements, Sizes, List, EraseItems, Size, EraseStmt, IsSeparator;
    StatementsRun(ts, pos, end);
    var stmt := Statement(ts, pos);
    if stmt.Done? && stmt.pos < |ts| {
      var more := Statements(ts, stmt.pos, end);
      var rest := if more.Done? then more.value else NoItems;
      AppendItem(done, stmt.value, rest);
      AppendItemsGrows(done, Item(stmt.value, rest));
      FirstStatement(stmt.value, rest);
    }
  }

  lemma {:induction false} StatementsRun(ts: seq<Tok>, pos: nat, end: TokenType)
    requires pos < |ts| && ts[pos].kind != end && !IsSeparator(ts[pos].kind)
    ensures var stmt := Statement(ts, pos);
            Statements(ts, pos, end) ==
            if stmt.Halt? then Halt(stmt.why)
            else if stmt.pos >= |ts| then Halt(OffTokens)
            else
              var more := Statements(ts, stmt.pos, end);
              var closed := IsSeparator(ts[stmt.pos].kind) || ts[stmt.pos].kind == end;
              if more.Halt? then Halt(more.why)
              else Done(Item(stmt.value, more.value), more.pos, stmt.errors + (if closed then 0 else 1) + more.errors)
  {
    hide Statement, IsSeparator;
  }

  lemma {:induction false} FirstStatement(s: Stmt, rest: Items)
    ensures Size(EraseStmt(s)) <= Sizes(List(EraseItems(Item(s, rest))))
  {
    hide Sizes, List, Size, EraseStmt;
    FirstOfList(EraseItems(Item(s, rest)));
  }

  lemma StatementRun(ts: seq<Tok>, pos: nat)
    requires pos < |ts|
    ensures var k := ts[pos].kind;
            ErasedStmt(Statement(ts, pos)) ==
            if k == TReturn then
              var e := Erased(Expr(ts, pos + 1, PREC_LOWEST));
              if e.Halt? then e else Done(ReturnTree(e.value), e.pos, e.errors)
            else if k == TFunc || k == TMain then ErasedStmt(FuncDecl(ts, pos))
            else if k == TVar || k == TConst then ErasedStmt(ConstVarDecl(ts, pos))
            else Erased(Expr(ts, pos, PREC_LOWEST))
  {
    hide Expr, FuncDecl, ConstVarDecl;
  }

  /** The optional initialiser of a declaration. */
  ghost function InitRun(ts: seq<Tok>, pos: nat): Run<Tree> {
    if pos >= |ts| then Halt(OffTokens)
    else if ts[pos].kind == TEquals then Erased(Expr(ts, pos + 1, PREC_LOWEST))
    else Done(NoTree, pos, 0)
  }

  lemma DeclRun(ts: seq<Tok>, pos: nat)
    requires pos < |ts|
    ensures ErasedStmt(ConstVarDecl(ts, pos)) ==
            if pos + 1 >= |ts| then Halt(OffTokens)
            else
              var init := InitRun(ts, pos + 2);
              if init.Halt? then init
              else Done(DeclTree(ts[pos].kind == TConst, IdentTree(ts[pos + 1].text), init.value), init.pos, init.errors)
  {
    hide Expr;
    assert Erase(Missing) == NoTree;
  }

  /** The parameters, the opening brace and the block of a function. */
  ghost function BodyRun(ts: seq<Tok>, pos: nat): Run<(seq<Param>, Tree)> {
    var params :- ParamsOf(Parameters(ts, pos));
    var open :- Expect(ts, params.pos, TLBrace);
    var block :- ErasedBlock(Block(ts, open.pos));
    Done((params.value, block.value), block.pos, params.errors + open.errors + block.errors)
  }

  lemma {:induction false} FuncRun(ts: seq<Tok>, pos: nat)
    requires pos < |ts|
    ensures ErasedStmt(FuncDecl(ts, pos)) ==
            if pos + 1 >= |ts| then Halt(OffTokens)
            else
              var afterName := if ts[pos + 1].kind == TIdent then pos + 2 else pos + 1;
              var body := BodyRun(ts, afterName);
              if body.Halt? then Halt(body.why)
              else Done(FuncTree(IdentTree(ts[afterName - 1].text), body.value.0, body.value.1), body.pos, body.errors)
  {
    hide Parameters, Block, EraseItems, ParamList;
  }

  // ----- Parameters -----

  ghost function ParamsOf(r: Run<Params>): Run<seq<Param>> {
    if r.Done? then Done(ParamList(r.value), r.pos, r.errors) else Halt(r.why)
  }

  ghost function ParamsAfter(done: seq<Param>, r: Run<Params>): Run<seq<Param>> {
    if r.Done? then Done(done + ParamList(r.value), r.pos, r.errors) else Halt(r.why)
  }

  /** One parameter: whatever token comes first is its name, and a colon brings a type. */
  ghost function ParamRun(ts: seq<Tok>, pos: nat): Run<Param> {
    if pos + 1 >= |ts| then Halt(OffTokens)
    else if ts[pos + 1].kind != TColon then Done(Param(ts[pos].text, None), pos + 1, 0)
    else if pos + 2 >= |ts| then Halt(OffTokens)
    else if ts[pos + 2].kind != TIdent then Halt(NoParamType)
    else Done(Param(ts[pos].text, Some(ts[pos + 2].text)), pos + 3, 0)
  }

  lemma ParameterStep(ts: seq<Tok>, done: seq<Param>, pos: nat)
    ensures var whole := ParamsAfter(done, ParameterList(ts, pos));
            var param := ParamRun(ts, pos);
            if param.Halt? then whole == Halt(param.why)
            else if param.pos >= |ts| then whole == Halt(OffTokens)
            else if ts[param.pos].kind == TComma then
              whole == ParamsAfter(done + [param.value], ParameterList(ts, param.pos + 1))
            else whole == Done(done + [param.value], param.pos, 0)
  {
    NoParameters();
    OneParameter(done, ts, pos);
  }

  lemma NoParameters()
    ensures ParamList(NoParams) == []
    ensures forall x: seq<Param> :: [] + x == x && x + [] == x
  {
  }

  lemma OneParameter(done: seq<Param>, ts: seq<Tok>, pos: nat)
    ensures forall name, typ, more :: done + ParamList(Params(name, typ, more)) == done + [Param(name.text, typ)] + ParamList(more)
  {
  }

  lemma {:induction false} ParametersRun(ts: seq<Tok>, pos: nat)
    ensures var list := ParamsAfter([], ParameterList(ts, pos + 1));
            ParamsOf(Parameters(ts, pos)) ==
            if pos >= |ts| then Halt(OffTokens)
            else if ts[pos].kind != TLParen then Done([], pos, 0)
            else if list.Halt? then list
            else
              var close := Expect(ts, list.pos, TRParen);
              if close.Halt? then Halt(close.why) else Done(list.value, close.pos, list.errors + close.errors)
  {
    hide ParameterList;
    NoParameters();
  }
}
