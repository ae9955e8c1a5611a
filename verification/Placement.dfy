/** Where the parts of a tree go when they follow an earlier part of the pool, and how runs begin. */
module Placement {
  import opened Tokens
  import opened Numbers
  import opened Syntax
  import opened ParserSpec
  import opened Pool
  import opened Layout
  import opened ParserSteps
  import opened StatementSteps

  /** Layouts as they follow an earlier part of the pool. */
  lemma {:induction false} PairSize(t: Tree, l: Tree, r: Tree, base: nat)
    requires IsPair(t, l, r)
    ensures Size(t) == Size(l) + 1 + Size(r) && |Flatten(l, base)| == Size(l) && Root(t, base) == Some(base + Size(l))
  {
    hide IsPair, Flatten, Root, Size, DataOf;
    LayPair(t, l, r, base);
  }

  lemma {:induction false} PlacePair(prefix: seq<Node>, t: Tree, data: Data, l: Tree, r: Tree)
    requires IsPair(t, l, r) && data == DataOf(t)
    ensures var at := |prefix| + Size(l);
            && prefix + Flatten(t, |prefix|) == (prefix + Flatten(l, |prefix|))
                 + [Node(data, [Root(l, |prefix|), Root(r, at + 1)])] + Flatten(r, at + 1)
            && |prefix + Flatten(l, |prefix|)| == at
            && Root(t, |prefix|) == Some(at) && Size(t) == Size(l) + 1 + Size(r)
  {
    hide IsPair, Flatten, Root, Size, DataOf;
    LayPair(t, l, r, |prefix|);
    var node := Node(data, [Root(l, |prefix|), Root(r, |prefix| + Size(l) + 1)]);
    Regroup(prefix, Flatten(l, |prefix|), [node], Flatten(r, |prefix| + Size(l) + 1));
  }

  lemma Regroup(a: seq<Node>, b: seq<Node>, c: seq<Node>, d: seq<Node>)
    ensures a + (b + c + d) == (a + b) + c + d
  {
  }

  lemma After(a: seq<Node>, b: seq<Node>, c: seq<Node>)
    ensures a + (b + c) == (a + b) + c
  {
  }

  lemma {:induction false} PlaceTernary(prefix: seq<Node>, c: Tree, y: Tree, n: Tree)
    ensures var t := TernaryTree(c, y, n);
            var at := |prefix| + Size(c);
            && prefix + Flatten(t, |prefix|) == (prefix + Flatten(c, |prefix|))
                 + [Node(TernaryData, [Root(c, |prefix|), Root(y, at + 1), Root(n, at + 1 + Size(y))])]
                 + (Flatten(y, at + 1) + Flatten(n, at + 1 + Size(y)))
            && |prefix + Flatten(c, |prefix|)| == at
            && Root(t, |prefix|) == Some(at) && Size(t) == Size(c) + 1 + Size(y) + Size(n)
  {
    hide Flatten, Root, Size;
    LayTernary(c, y, n, |prefix|);
    var at := |prefix| + Size(c);
    var node := Node(TernaryData, [Root(c, |prefix|), Root(y, at + 1), Root(n, at + 1 + Size(y))]);
    Regroup(prefix, Flatten(c, |prefix|), [node], Flatten(y, at + 1) + Flatten(n, at + 1 + Size(y)));
  }

  lemma {:induction false} PlaceCall(prefix: seq<Node>, f: Tree, args: Trees)
    ensures var t := CallTree(f, args);
            var at := |prefix| + Size(f);
            && prefix + Flatten(t, |prefix|) == (prefix + Flatten(f, |prefix|))
                 + [Node(CallData, [Root(f, |prefix|)] + Roots(List(args), at + 1))] + FlattenAll(List(args), at + 1)
            && |prefix + Flatten(f, |prefix|)| == at
            && Root(t, |prefix|) == Some(at) && Size(t) == Size(f) + 1 + Sizes(List(args))
  {
    hide Flatten, FlattenAll, Root, Roots, Size, Sizes, List;
    LayCall(f, args, |prefix|);
    var at := |prefix| + Size(f);
    var node := Node(CallData, [Root(f, |prefix|)] + Roots(List(args), at + 1));
    Regroup(prefix, Flatten(f, |prefix|), [node], FlattenAll(List(args), at + 1));
  }

  /** The child pointers of an array literal whose elements start at `at`. */
  ghost function ArrayRefs(elems: seq<Tree>, length: Tree, at: nat): seq<Ref> {
    Roots(elems, at) + [Root(length, at + Sizes(elems))]
  }

  ghost function ArrayNodes(elems: seq<Tree>, length: Tree, at: nat): seq<Node> {
    FlattenAll(elems, at) + Flatten(length, at + Sizes(elems))
  }

  lemma {:induction false} PlaceArray(prefix: seq<Node>, elems: Trees, length: Tree)
    ensures var t, at := ArrayTree(elems, length), |prefix| + 1;
            && prefix + Flatten(t, |prefix|) ==
                 prefix + [Node(ArrayData, ArrayRefs(List(elems), length, at))] + ArrayNodes(List(elems), length, at)
            && Root(t, |prefix|) == Some(|prefix|) && Size(t) == 1 + Sizes(List(elems)) + Size(length)
  {
    hide *;
    ArrayLayout(elems, length, |prefix|);
    var node := [Node(ArrayData, ArrayRefs(List(elems), length, |prefix| + 1))];
    After(prefix, node, ArrayNodes(List(elems), length, |prefix| + 1));
  }

  /** The slices of the elements and of the length, as they are added. */
  lemma {:induction false} ArrayJoin(before: seq<Node>, elems: seq<Tree>, length: Tree, at: nat)
    ensures before + FlattenAll(elems, at) + Flatten(length, at + Sizes(elems)) == before + ArrayNodes(elems, length, at)
    ensures |FlattenAll(elems, at)| == Sizes(elems) && |Roots(elems, at)| == |elems|
  {
    hide Flatten, FlattenAll, Root, Roots, Size, Sizes;
    After(before, FlattenAll(elems, at), Flatten(length, at + Sizes(elems)));
  }

  lemma {:induction false} ArrayLayout(elems: Trees, length: Tree, base: nat)
    ensures var t, at := ArrayTree(elems, length), base + 1;
            && Flatten(t, base) == [Node(ArrayData, ArrayRefs(List(elems), length, at))] + ArrayNodes(List(elems), length, at)
            && Root(t, base) == Some(base) && Size(t) == 1 + Sizes(List(elems)) + Size(length)
  {
    hide Flatten, FlattenAll, Root, Roots, Size, Sizes, List;
    LayArray(elems, length, base);
  }

  lemma {:induction false} PlaceIf(prefix: seq<Node>, c: Tree, y: Tree, n: Tree)
    ensures var t := IfTree(c, y, n);
            var thenAt, elseAt := |prefix| + Size(c), |prefix| + Size(c) + Size(y);
            && prefix + Flatten(t, |prefix|) ==
                 prefix + Flatten(c, |prefix|) + Flatten(y, thenAt) + Flatten(n, elseAt)
                 + [Node(IfData, [Root(c, |prefix|), Root(y, thenAt), Root(n, elseAt)])]
            && Root(t, |prefix|) == Some(elseAt + Size(n)) && Size(t) == Size(c) + Size(y) + Size(n) + 1
            && |prefix + Flatten(c, |prefix|)| == thenAt
            && |prefix + Flatten(c, |prefix|) + Flatten(y, thenAt)| == elseAt
            && |prefix + Flatten(c, |prefix|) + Flatten(y, thenAt) + Flatten(n, elseAt)| == elseAt + Size(n)
  {
    hide Flatten, Root, Size;
    LayIf(c, y, n, |prefix|);
    assert forall v: seq<Node>, w, x, z :: prefix + (v + w + x + z) == prefix + v + w + x + z;
  }

  lemma {:induction false} PlaceBlock(prefix: seq<Node>, stmts: Trees)
    ensures var t := BlockTree(stmts);
            && prefix + Flatten(t, |prefix|) == prefix + [Node(BlockData, Roots(List(stmts), |prefix| + 1))]
                 + FlattenAll(List(stmts), |prefix| + 1)
            && Root(t, |prefix|) == Some(|prefix|) && Size(t) == 1 + Sizes(List(stmts))
  {
    hide *;
    LayBlock(stmts, |prefix|);
    After(prefix, [Node(BlockData, Roots(List(stmts), |prefix| + 1))], FlattenAll(List(stmts), |prefix| + 1));
  }

  lemma {:induction false} PlaceReturn(prefix: seq<Node>, e: Tree)
    ensures var t := ReturnTree(e);
            && prefix + Flatten(t, |prefix|) == prefix + [Node(ReturnData, [Root(e, |prefix| + 1)])] + Flatten(e, |prefix| + 1)
            && Root(t, |prefix|) == Some(|prefix|) && Size(t) == 1 + Size(e)
  {
    hide *;
    LayReturn(e, |prefix|);
    After(prefix, [Node(ReturnData, [Root(e, |prefix| + 1)])], Flatten(e, |prefix| + 1));
  }

  lemma {:induction false} PlaceNamed(prefix: seq<Node>, t: Tree, name: string, rest: Tree)
    requires (t.DeclTree? && t.ident == IdentTree(name) && t.init == rest)
          || (t.FuncTree? && t.ident == IdentTree(name) && t.block == rest)
    ensures var at := |prefix|;
            && prefix + Flatten(t, at) == prefix + [Node(DataOf(t), [Some(at + 1), Root(rest, at + 2)])]
                 + ([Node(IdentData(name), [])] + Flatten(rest, at + 2))
            && Root(t, at) == Some(at) && Size(t) == 2 + Size(rest)
  {
    hide *;
    LayNamed(t, name, rest, |prefix|);
    var at := |prefix|;
    var node, ident := Node(DataOf(t), [Some(at + 1), Root(rest, at + 2)]), [Node(IdentData(name), [])];
    After(prefix, [node] + ident, Flatten(rest, at + 2));
    Regroup(prefix, [], [node], ident);
    After(prefix + [node], ident, Flatten(rest, at + 2));
  }

  /** A declaration's run, and where its nodes go. */
  lemma DeclPlace(ts: seq<Tok>, pos: nat, prefix: seq<Node>)
    requires pos < |ts|
    ensures var run := ErasedStmt(ConstVarDecl(ts, pos));
            if pos + 1 >= |ts| then run == Halt(OffTokens)
            else
              var init, data := InitRun(ts, pos + 2), DeclData(ts[pos].kind == TConst);
              && (init.Halt? ==> run == init)
              && (init.Done? ==>
                    && run.Done? && run.pos == init.pos && run.errors == init.errors && Size(run.value) == 2 + Size(init.value)
                    && NamedPlace(prefix, run.value, data, ts[pos + 1].text, init.value))
  {
    hide InitRun, ErasedStmt, ConstVarDecl, Flatten, Root, Size;
    DeclRun(ts, pos);
    if pos + 1 < |ts| && InitRun(ts, pos + 2).Done? {
      var name, init := ts[pos + 1].text, InitRun(ts, pos + 2).value;
      PlaceNamed(prefix, DeclTree(ts[pos].kind == TConst, IdentTree(name), init), name, init);
    }
  }

  /** The same for a function. */
  lemma {:induction false} FuncPlace(ts: seq<Tok>, pos: nat, prefix: seq<Node>)
    requires pos < |ts|
    ensures var run := ErasedStmt(FuncDecl(ts, pos));
            if pos + 1 >= |ts| then run == Halt(OffTokens)
            else
              var at := if ts[pos + 1].kind == TIdent then pos + 2 else pos + 1;
              var body := BodyRun(ts, at);
              && (body.Halt? ==> run == Halt(body.why))
              && (body.Done? ==>
                    && run.Done? && run.pos == body.pos && run.errors == body.errors && Size(run.value) == 2 + Size(body.value.1)
                    && NamedPlace(prefix, run.value, FuncData(body.value.0), ts[at - 1].text, body.value.1))
  {
    hide BodyRun, ErasedStmt, FuncDecl, Flatten, Root, Size;
    FuncRun(ts, pos);
    if pos + 1 < |ts| {
      var at := if ts[pos + 1].kind == TIdent then pos + 2 else pos + 1;
      var body := BodyRun(ts, at);
      if body.Done? {
        var name := ts[at - 1].text;
        PlaceNamed(prefix, FuncTree(IdentTree(name), body.value.0, body.value.1), name, body.value.1);
      }
    }
  }

  /** A node with `data`, the identifier `name` and the slice of `rest` follow `prefix`. */
  ghost predicate NamedPlace(prefix: seq<Node>, t: Tree, data: Data, name: string, rest: Tree) {
    var at := |prefix|;
    && prefix + Flatten(t, at) == NamedPool(prefix, Node(data, [Some(at + 1), Root(rest, at + 2)]), name, rest)
    && Root(t, at) == Some(at)
  }

  ghost function NamedPool(prefix: seq<Node>, node: Node, name: string, rest: Tree): seq<Node> {
    prefix + [node] + ([Node(IdentData(name), [])] + Flatten(rest, |prefix| + 2))
  }

  lemma {:induction false} NamedJoin(prefix: seq<Node>, node: Node, name: string, rest: Tree)
    ensures prefix + [node] + [Node(IdentData(name), [])] + Flatten(rest, |prefix| + 2) == NamedPool(prefix, node, name, rest)
  {
    hide Flatten;
    After(prefix + [node], [Node(IdentData(name), [])], Flatten(rest, |prefix| + 2));
  }

  lemma {:induction false} NameNode(name: string, base: nat)
    ensures Flatten(IdentTree(name), base) == [Node(IdentData(name), [])] && Root(IdentTree(name), base) == Some(base)
    ensures Size(IdentTree(name)) == 1
  {
    LayLeaf(IdentTree(name), base);
  }

  lemma NothingDoneYet(r: Run<ElemList>)
    ensures r == ElemsAfter(NoSyns, 0, r)
  {
  }

  lemma {:induction false} NoStatementsYet(base: nat, r: Run<Items>)
    ensures List(EraseItems(NoItems)) == [] && FlattenAll([], base) == [] && Roots([], base) == []
    ensures r == ItemsAfter(NoItems, 0, r)
  {
  }

  lemma {:induction false} StopsAtEnd(ts: seq<Tok>, pos: nat, end: TokenType)
    ensures Statements(ts, pos, end).Done? ==>
              var r := Statements(ts, pos, end);
              pos <= r.pos < |ts| && ts[r.pos].kind == end
  {
  }

  /** One more tree at the end of a forest. */
  lemma OneMoreTree(trees: seq<Tree>, t: Tree, base: nat)
    ensures FlattenAll(trees + [t], base) == FlattenAll(trees, base) + Flatten(t, base + Sizes(trees))
    ensures Roots(trees + [t], base) == Roots(trees, base) + [Root(t, base + Sizes(trees))]
    ensures Sizes(trees + [t]) == Sizes(trees) + Size(t) && |FlattenAll(trees, base)| == Sizes(trees)
  {
    hide Flatten, FlattenAll, Roots, Root, Size, Sizes;
    LayAppend(trees, [t], base);
    LayOne(t, base + Sizes(trees));
  }

  lemma ElementsWithin(ts: seq<Tok>, pos: nat)
    requires pos < |ts|
    ensures Elements(ts, pos + 1).Done? ==> Elements(ts, pos + 1).pos <= |ts|
  {
  }

  lemma {:induction false} NumberRun(ts: seq<Tok>, pos: nat)
    requires pos < |ts| && RuleOf(ts[pos].kind).prefix.NumberPrefix?
    ensures var n := FittingNumeral(ts[pos].text);
            && LeafTree(ts[pos]) == NumberTree(n.GetOr(0))
            && Erased(Prefix(ts, pos)) == Done(LeafTree(ts[pos]), pos + 1, if n.Some? then 0 else 1)
  {
    hide FittingNumeral;
  }

  lemma LeafKinds(t: Tok)
    ensures RuleOf(t.kind).prefix.StringPrefix? ==> t.kind != TNum && LeafTree(t) == StringTree(t.text)
    ensures RuleOf(t.kind).prefix.IdentifierPrefix? ==> t.kind != TNum && LeafTree(t) == IdentTree(t.text)
    ensures RuleOf(t.kind).prefix.NilPrefix? ==> t.kind != TNum && LeafTree(t) == NilTree
    ensures RuleOf(t.kind).prefix.BoolPrefix? ==> t.kind != TNum && LeafTree(t) == BoolTree(t.kind == TTrue)
  {
    hide NumberValue;
  }

  lemma {:induction false} NoLoops(ts: seq<Tok>, pos: nat)
    requires pos < |ts|
    ensures RuleOf(ts[pos].kind).prefix.ForPrefix? ==> Prefix(ts, pos) == Halt(ForExpression)
  {
  }

  lemma {:induction false} IfIsPrefix(ts: seq<Tok>, pos: nat)
    requires pos < |ts| && RuleOf(ts[pos].kind).prefix.IfPrefix?
    ensures Prefix(ts, pos) == IfExpr(ts, pos + 1)
  {
  }

  lemma {:induction false} NoTuples(ts: seq<Tok>, pos: nat, l: Syn)
    requires pos < |ts| && Precedence(ts[pos].kind) > PREC_NONE
    ensures !RuleOf(ts[pos].kind).infix.NoInfix?
    ensures RuleOf(ts[pos].kind).infix.CommaInfix? ==> Extend(ts, pos, l) == Halt(CommaOperator)
  {
  }

  lemma {:induction false} ArgumentsRun(ts: seq<Tok>, pos: nat)
    ensures Arguments(ts, pos) ==
            if pos >= |ts| then Halt(OffTokens)
            else if ts[pos].kind == TRParen then Done(NoSyns, pos, 0) else ArgumentList(ts, pos)
  {
    hide ArgumentList;
  }

  lemma {:induction false} EmptyForest(base: nat)
    ensures List(EraseAll(NoSyns)) == [] && FlattenAll([], base) == [] && Roots([], base) == [] && Sizes([]) == 0
  {
  }

  lemma NothingDone(r: Run<Syns>)
    ensures r == ListAfter(NoSyns, 0, r)
  {
  }

  lemma {:induction false} NoToken(ts: seq<Tok>, pos: nat, prec: nat)
    requires pos >= |ts|
    ensures Expr(ts, pos, prec) == Halt(OffTokens)
  {
  }

  lemma {:induction false} NoOperator(ts: seq<Tok>, pos: nat, l: Syn, prec: nat)
    requires pos >= |ts|
    ensures Loop(ts, pos, l, prec) == Halt(OffTokens)
  {
  }

  lemma {:induction false} NullTree(base: nat)
    ensures Flatten(NoTree, base) == [] && Root(NoTree, base) == None && Size(NoTree) == 0 && Erase(Missing) == NoTree
  {
  }
}
