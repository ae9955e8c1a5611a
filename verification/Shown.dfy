/**
 What the finished pool holds of a program, node by node and straight from its derivation: which data, which
 children in which order. Shown to be the same as that the pool's pointers represent the derivation's tree.
 */
module Shown {
  import opened Tokens
  import opened Numbers
  import opened Syntax
  import opened Pool
  import opened PoolTheorems
  import opened HeldTrees
  import Ladder

  /** A pointer to a node with this data and these children. */
  ghost predicate NodeIs(nodes: seq<Node>, ref: Ref, data: Data, children: seq<Ref>) {
    ref.Some? && ref.value < |nodes| && nodes[ref.value] == Node(data, children)
  }

  ghost function ChildrenOf(nodes: seq<Node>, ref: Ref): seq<Ref> {
    if ref.Some? && ref.value < |nodes| then nodes[ref.value].children else []
  }

  /** The child at `i`, or NULL. */
  ghost function Child(nodes: seq<Node>, ref: Ref, i: nat): Ref {
    if i < |ChildrenOf(nodes, ref)| then ChildrenOf(nodes, ref)[i] else None
  }

  ghost function LeafData(t: Tok): Data {
    if t.kind == TNum then NumberData(if FittingNumeral(t.text).Some? then FittingNumeral(t.text).value else 0)
    else if t.kind == TString then StringData(t.text)
    else if t.kind == TIdent then IdentData(t.text)
    else if t.kind == TTrue then BoolData(true)
    else if t.kind == TFalse then BoolData(false)
    else NilData
  }

  ghost function InfixData(op: TokenType): Data {
    if op == TDotDot then RangeData(false)
    else if op == TDotDotEq then RangeData(true)
    else if op == TEquals then AssignData
    else BinaryData
  }

  /** The nodes reached from `ref` are those of the derivation `s`. */
  ghost predicate Shows(nodes: seq<Node>, ref: Ref, s: Syn)
    decreases s
  {
    var kids := ChildrenOf(nodes, ref);
    match s
    case Missing => ref == None
    case Leaf(tok) => NodeIs(nodes, ref, LeafData(tok), [])
    case Group(e) => Shows(nodes, ref, e)
    case Unary(op, e) =>
      NodeIs(nodes, ref, UnaryData(op), [Child(nodes, ref, 0)]) && Shows(nodes, Child(nodes, ref, 0), e)
    case Infix(l, op, r) =>
      && NodeIs(nodes, ref, InfixData(op), [Child(nodes, ref, 0), Child(nodes, ref, 1)])
      && Shows(nodes, Child(nodes, ref, 0), l) && Shows(nodes, Child(nodes, ref, 1), r)
    case Ternary(c, y, n) =>
      && NodeIs(nodes, ref, TernaryData, [Child(nodes, ref, 0), Child(nodes, ref, 1), Child(nodes, ref, 2)])
      && Shows(nodes, Child(nodes, ref, 0), c) && Shows(nodes, Child(nodes, ref, 1), y) && Shows(nodes, Child(nodes, ref, 2), n)
    case Index(b, i) =>
      && NodeIs(nodes, ref, IndexData, [Child(nodes, ref, 0), Child(nodes, ref, 1)])
      && Shows(nodes, Child(nodes, ref, 0), b) && Shows(nodes, Child(nodes, ref, 1), i)
    case Dot(l, member) =>
      NodeIs(nodes, ref, DotData(member), [Child(nodes, ref, 0)]) && Shows(nodes, Child(nodes, ref, 0), l)
    case Call(f, args) =>
      && NodeIs(nodes, ref, CallData, kids) && kids != []
      && Shows(nodes, kids[0], f) && ShowsAll(nodes, kids[1..], args)
    case Array(elems, _, length) =>
      && NodeIs(nodes, ref, ArrayData, kids) && kids != []
      && ShowsAll(nodes, kids[..|kids| - 1], elems) && Shows(nodes, kids[|kids| - 1], length)
    case If(c, _, body, els) =>
      && NodeIs(nodes, ref, IfData, [Child(nodes, ref, 0), Child(nodes, ref, 1), Child(nodes, ref, 2)])
      && Shows(nodes, Child(nodes, ref, 0), c) && ShowsBlock(nodes, Child(nodes, ref, 1), body)
      && ShowsElse(nodes, Child(nodes, ref, 2), els)
  }

  ghost predicate ShowsAll(nodes: seq<Node>, refs: seq<Ref>, ss: Syns)
    decreases ss
  {
    match ss
    case NoSyns => refs == []
    case Syns(head, tail) => refs != [] && Shows(nodes, refs[0], head) && ShowsAll(nodes, refs[1..], tail)
  }

  ghost predicate ShowsElse(nodes: seq<Node>, ref: Ref, e: Else)
    decreases e
  {
    match e
    case NoElse => ref == None
    case ElseIf(_, _, nested) => Shows(nodes, ref, nested)
    case ElseBlock(_, _, items) => ShowsBlock(nodes, ref, items)
  }

  /** A block's children are its statements in order; separators leave nothing. */
  ghost predicate ShowsBlock(nodes: seq<Node>, ref: Ref, items: Items)
    decreases items, 1
  {
    NodeIs(nodes, ref, BlockData, ChildrenOf(nodes, ref)) && ShowsItems(nodes, ChildrenOf(nodes, ref), items)
  }

  ghost predicate ShowsItems(nodes: seq<Node>, refs: seq<Ref>, items: Items)
    decreases items, 0
  {
    match items
    case NoItems => refs == []
    case Sep(_, rest) => ShowsItems(nodes, refs, rest)
    case Item(stmt, rest) => refs != [] && ShowsStmt(nodes, refs[0], stmt) && ShowsItems(nodes, refs[1..], rest)
  }

  ghost predicate ShowsStmt(nodes: seq<Node>, ref: Ref, s: Stmt)
    decreases s
  {
    match s
    case Expression(e) => Shows(nodes, ref, e)
    case Return(e) => NodeIs(nodes, ref, ReturnData, [Child(nodes, ref, 0)]) && Shows(nodes, Child(nodes, ref, 0), e)
    case Decl(isConst, declared, init) =>
      && NodeIs(nodes, ref, DeclData(isConst), [Child(nodes, ref, 0), Child(nodes, ref, 1)])
      && NodeIs(nodes, Child(nodes, ref, 0), IdentData(declared.text), []) && Shows(nodes, Child(nodes, ref, 1), init)
    case Func(keyword, named, params, block) =>
      && NodeIs(nodes, ref, FuncData(Named(params)), [Child(nodes, ref, 0), Child(nodes, ref, 1)])
      && NodeIs(nodes, Child(nodes, ref, 0), IdentData(if named.Some? then named.value else keyword.text), [])
      && ShowsBlock(nodes, Child(nodes, ref, 1), block)
  }

  /** The names and types of parameters, in order. */
  ghost function Named(ps: Params): seq<Param> {
    if ps.NoParams? then [] else [Param(ps.name.text, ps.typ)] + Named(ps.more)
  }

  // ----- The same as representing the tree -----

  ghost predicate RepresentsAll(nodes: seq<Node>, refs: seq<Ref>, ts: seq<Tree>) {
    |refs| == |ts| && forall i :: 0 <= i < |ts| ==> Represents(nodes, refs[i], ts[i])
  }

  lemma {:induction false} RepresentsNode(nodes: seq<Node>, ref: Ref, t: Tree)
    ensures t.NoTree? ==> (Represents(nodes, ref, t) <==> ref == None)
    ensures !t.NoTree? ==>
              (Represents(nodes, ref, t) <==>
                 NodeIs(nodes, ref, DataOf(t), ChildrenOf(nodes, ref)) && RepresentsAll(nodes, ChildrenOf(nodes, ref), Parts(t)))
  {
    hide DataOf, Parts, Size;
    if !t.NoTree? {
      SizeOfParts(t);
      forall i | 0 <= i < |Parts(t)| ensures Size(Parts(t)[i]) < Size(t) { PartSize(Parts(t), i); }
    }
  }

  lemma {:induction false} RepresentsFew(nodes: seq<Node>, refs: seq<Ref>, a: Tree, b: Tree, c: Tree)
    ensures RepresentsAll(nodes, refs, []) <==> refs == []
    ensures RepresentsAll(nodes, refs, [a]) <==> |refs| == 1 && Represents(nodes, refs[0], a)
    ensures RepresentsAll(nodes, refs, [a, b]) <==> |refs| == 2 && Represents(nodes, refs[0], a) && Represents(nodes, refs[1], b)
    ensures RepresentsAll(nodes, refs, [a, b, c])
       <==> |refs| == 3 && Represents(nodes, refs[0], a) && Represents(nodes, refs[1], b) && Represents(nodes, refs[2], c)
  {
    hide Represents;
    assert forall i :: 0 <= i < 2 ==> [a, b][i] == if i == 0 then a else b;
    assert forall i :: 0 <= i < 3 ==> [a, b, c][i] == if i == 0 then a else if i == 1 then b else c;
  }

  lemma {:induction false} RepresentsCons(nodes: seq<Node>, refs: seq<Ref>, t: Tree, ts: seq<Tree>)
    ensures RepresentsAll(nodes, refs, [t] + ts)
       <==> refs != [] && Represents(nodes, refs[0], t) && RepresentsAll(nodes, refs[1..], ts)
  {
    hide Represents;
    if refs != [] && Represents(nodes, refs[0], t) && RepresentsAll(nodes, refs[1..], ts) {
      forall i | 0 <= i < |[t] + ts| ensures Represents(nodes, refs[i], ([t] + ts)[i]) {
        if i > 0 { assert refs[i] == refs[1..][i - 1]; }
      }
    }
    if RepresentsAll(nodes, refs, [t] + ts) {
      assert ([t] + ts)[0] == t;
      forall i | 0 <= i < |ts| ensures Represents(nodes, refs[1..][i], ts[i]) { assert ([t] + ts)[i + 1] == ts[i]; }
    }
  }

  lemma {:induction false} RepresentsSnoc(nodes: seq<Node>, refs: seq<Ref>, ts: seq<Tree>, t: Tree)
    ensures RepresentsAll(nodes, refs, ts + [t])
       <==> refs != [] && RepresentsAll(nodes, refs[..|refs| - 1], ts) && Represents(nodes, refs[|refs| - 1], t)
  {
    hide Represents;
    var n := |ts|;
    if refs != [] && RepresentsAll(nodes, refs[..|refs| - 1], ts) && Represents(nodes, refs[|refs| - 1], t) {
      forall i | 0 <= i < n + 1 ensures Represents(nodes, refs[i], (ts + [t])[i]) {
        if i < n { assert refs[i] == refs[..n][i]; }
      }
    }
    if RepresentsAll(nodes, refs, ts + [t]) {
      assert (ts + [t])[n] == t;
      forall i | 0 <= i < n ensures Represents(nodes, refs[..n][i], ts[i]) { assert (ts + [t])[i] == ts[i]; }
    }
  }

  /** A node with known children. */
  lemma {:induction false} KnownChildren(nodes: seq<Node>, ref: Ref, data: Data)
    ensures var kids := ChildrenOf(nodes, ref);
            && (NodeIs(nodes, ref, data, kids) && |kids| == 1 <==> NodeIs(nodes, ref, data, [Child(nodes, ref, 0)]))
            && (NodeIs(nodes, ref, data, kids) && |kids| == 2 <==>
                  NodeIs(nodes, ref, data, [Child(nodes, ref, 0), Child(nodes, ref, 1)]))
            && (NodeIs(nodes, ref, data, kids) && |kids| == 3 <==>
                  NodeIs(nodes, ref, data, [Child(nodes, ref, 0), Child(nodes, ref, 1), Child(nodes, ref, 2)]))
  {
    var kids := ChildrenOf(nodes, ref);
    assert |kids| == 1 ==> kids == [kids[0]];
    assert |kids| == 2 ==> kids == [kids[0], kids[1]];
    assert |kids| == 3 ==> kids == [kids[0], kids[1], kids[2]];
  }

  lemma {:induction false} OneChild(nodes: seq<Node>, ref: Ref, t: Tree, a: Tree)
    requires !t.NoTree? && Parts(t) == [a]
    ensures Represents(nodes, ref, t)
       <==> NodeIs(nodes, ref, DataOf(t), [Child(nodes, ref, 0)]) && Represents(nodes, Child(nodes, ref, 0), a)
  {
    hide DataOf, Parts, Represents, RepresentsAll, NodeIs;
    RepresentsNode(nodes, ref, t);
    RepresentsFew(nodes, ChildrenOf(nodes, ref), a, a, a);
    KnownChildren(nodes, ref, DataOf(t));
    NodeChildren(nodes, ref, DataOf(t), [Child(nodes, ref, 0)]);
  }

  lemma {:induction false} TwoChildren(nodes: seq<Node>, ref: Ref, t: Tree, a: Tree, b: Tree)
    requires !t.NoTree? && Parts(t) == [a, b]
    ensures Represents(nodes, ref, t)
       <==> && NodeIs(nodes, ref, DataOf(t), [Child(nodes, ref, 0), Child(nodes, ref, 1)])
            && Represents(nodes, Child(nodes, ref, 0), a) && Represents(nodes, Child(nodes, ref, 1), b)
  {
    hide DataOf, Parts, Represents, RepresentsAll, NodeIs;
    RepresentsNode(nodes, ref, t);
    RepresentsFew(nodes, ChildrenOf(nodes, ref), a, b, b);
    KnownChildren(nodes, ref, DataOf(t));
    NodeChildren(nodes, ref, DataOf(t), [Child(nodes, ref, 0), Child(nodes, ref, 1)]);
  }

  lemma {:induction false} ThreeChildren(nodes: seq<Node>, ref: Ref, t: Tree, a: Tree, b: Tree, c: Tree)
    requires !t.NoTree? && Parts(t) == [a, b, c]
    ensures Represents(nodes, ref, t)
       <==> && NodeIs(nodes, ref, DataOf(t), [Child(nodes, ref, 0), Child(nodes, ref, 1), Child(nodes, ref, 2)])
            && Represents(nodes, Child(nodes, ref, 0), a) && Represents(nodes, Child(nodes, ref, 1), b)
            && Represents(nodes, Child(nodes, ref, 2), c)
  {
    hide DataOf, Parts, Represents, RepresentsAll, NodeIs;
    RepresentsNode(nodes, ref, t);
    RepresentsFew(nodes, ChildrenOf(nodes, ref), a, b, c);
    KnownChildren(nodes, ref, DataOf(t));
    NodeChildren(nodes, ref, DataOf(t), [Child(nodes, ref, 0), Child(nodes, ref, 1), Child(nodes, ref, 2)]);
  }

  lemma NodeChildren(nodes: seq<Node>, ref: Ref, data: Data, kids: seq<Ref>)
    ensures NodeIs(nodes, ref, data, kids) ==> ChildrenOf(nodes, ref) == kids
  {
  }

  lemma {:induction false} NoChildren(nodes: seq<Node>, ref: Ref, t: Tree)
    requires !t.NoTree? && Parts(t) == []
    ensures Represents(nodes, ref, t) <==> NodeIs(nodes, ref, DataOf(t), [])
  {
    hide DataOf, Parts, Represents;
    RepresentsNode(nodes, ref, t);
  }

  /** A derivation is shown exactly where its tree is represented. */
  lemma {:induction false} ShownIsRepresented(nodes: seq<Node>, ref: Ref, s: Syn)
    ensures Shows(nodes, ref, s) <==> Represents(nodes, ref, Erase(s))
    decreases s
  {
    hide Represents, NodeIs, ChildrenOf, Child, LeafData, InfixData, RuleOf, InfixTree, LeafTree;
    var t := Erase(s);
    var a, b, c := Child(nodes, ref, 0), Child(nodes, ref, 1), Child(nodes, ref, 2);
    match s
    case Missing => RepresentsNode(nodes, ref, t);
    case Leaf(tok) => LeafIsShown(nodes, ref, tok);
    case Group(e) => ShownIsRepresented(nodes, ref, e);
    case Unary(op, e) =>
      ShownIsRepresented(nodes, a, e);
      OneChild(nodes, ref, t, Erase(e));
    case Infix(l, op, r) =>
      ShownIsRepresented(nodes, a, l);
      ShownIsRepresented(nodes, b, r);
      InfixParts(Erase(l), op, Erase(r));
      TwoChildren(nodes, ref, t, Erase(l), Erase(r));
    case Ternary(x, y, n) =>
      ShownIsRepresented(nodes, a, x);
      ShownIsRepresented(nodes, b, y);
      ShownIsRepresented(nodes, c, n);
      ThreeChildren(nodes, ref, t, Erase(x), Erase(y), Erase(n));
    case Index(x, i) =>
      ShownIsRepresented(nodes, a, x);
      ShownIsRepresented(nodes, b, i);
      TwoChildren(nodes, ref, t, Erase(x), Erase(i));
    case Dot(l, member) =>
      ShownIsRepresented(nodes, a, l);
      OneChild(nodes, ref, t, Erase(l));
    case If(x, _, body, els) =>
      ShownIsRepresented(nodes, a, x);
      BlockIsShown(nodes, b, body);
      ElseIsShown(nodes, c, els);
      ThreeChildren(nodes, ref, t, Erase(x), BlockTree(EraseItems(body)), EraseElse(els));
    case Call(f, args) => CallIsShown(nodes, ref, f, args);
    case Array(elems, comma, length) => ArrayIsShown(nodes, ref, elems, comma, length);
  }

  lemma {:induction false} LeafIsShown(nodes: seq<Node>, ref: Ref, tok: Tok)
    ensures NodeIs(nodes, ref, LeafData(tok), []) <==> Represents(nodes, ref, LeafTree(tok))
  {
    hide Represents, NodeIs, FittingNumeral;
    NoChildren(nodes, ref, LeafTree(tok));
  }

  lemma {:induction false} InfixParts(l: Tree, op: TokenType, r: Tree)
    ensures var t := InfixTree(l, op, r);
            !t.NoTree? && DataOf(t) == InfixData(op) && Parts(t) == [l, r]
  {
    hide RuleOf;
    Ladder.OperatorRules(op);
  }

  lemma {:induction false} CallIsShown(nodes: seq<Node>, ref: Ref, f: Syn, args: Syns)
    ensures Shows(nodes, ref, Call(f, args)) <==> Represents(nodes, ref, Erase(Call(f, args)))
    decreases Call(f, args), 0
  {
    hide Represents, RepresentsAll, NodeIs, ChildrenOf, ShowsAll, List;
    var t, kids := CallTree(Erase(f), EraseAll(args)), ChildrenOf(nodes, ref);
    RepresentsNode(nodes, ref, t);
    RepresentsCons(nodes, kids, Erase(f), List(EraseAll(args)));
    if kids != [] {
      ShownIsRepresented(nodes, kids[0], f);
      AllAreShown(nodes, kids[1..], args);
    }
  }

  lemma {:induction false} ArrayIsShown(nodes: seq<Node>, ref: Ref, elems: Syns, comma: bool, length: Syn)
    ensures Shows(nodes, ref, Array(elems, comma, length)) <==> Represents(nodes, ref, Erase(Array(elems, comma, length)))
    decreases Array(elems, comma, length), 0
  {
    hide Represents, RepresentsAll, NodeIs, ChildrenOf, ShowsAll;
    var kids := ChildrenOf(nodes, ref);
    ArrayChildren(nodes, ref, EraseAll(elems), Erase(length));
    if kids != [] {
      ShownIsRepresented(nodes, kids[|kids| - 1], length);
      AllAreShown(nodes, kids[..|kids| - 1], elems);
    }
  }

  lemma {:induction false} ArrayChildren(nodes: seq<Node>, ref: Ref, elems: Trees, length: Tree)
    ensures var kids := ChildrenOf(nodes, ref);
            Represents(nodes, ref, ArrayTree(elems, length)) <==>
              && NodeIs(nodes, ref, ArrayData, kids) && kids != []
              && RepresentsAll(nodes, kids[..|kids| - 1], List(elems)) && Represents(nodes, kids[|kids| - 1], length)
  {
    hide Represents, RepresentsAll, NodeIs, ChildrenOf, List;
    RepresentsNode(nodes, ref, ArrayTree(elems, length));
    RepresentsSnoc(nodes, ChildrenOf(nodes, ref), List(elems), length);
  }

  lemma {:induction false} AllAreShown(nodes: seq<Node>, refs: seq<Ref>, ss: Syns)
    ensures ShowsAll(nodes, refs, ss) <==> RepresentsAll(nodes, refs, List(EraseAll(ss)))
    decreases ss
  {
    hide Represents, RepresentsAll;
    RepresentsFew(nodes, refs, NoTree, NoTree, NoTree);
    if ss.Syns? {
      RepresentsCons(nodes, refs, Erase(ss.head), List(EraseAll(ss.tail)));
      if refs != [] {
        ShownIsRepresented(nodes, refs[0], ss.head);
        AllAreShown(nodes, refs[1..], ss.tail);
      }
    }
  }

  lemma {:induction false} ElseIsShown(nodes: seq<Node>, ref: Ref, e: Else)
    ensures ShowsElse(nodes, ref, e) <==> Represents(nodes, ref, EraseElse(e))
    decreases e
  {
    hide Represents, ShowsBlock;
    match e
    case NoElse => RepresentsNode(nodes, ref, NoTree);
    case ElseIf(_, _, nested) => ShownIsRepresented(nodes, ref, nested);
    case ElseBlock(_, _, items) => BlockIsShown(nodes, ref, items);
  }

  lemma {:induction false} BlockIsShown(nodes: seq<Node>, ref: Ref, items: Items)
    ensures ShowsBlock(nodes, ref, items) <==> Represents(nodes, ref, BlockTree(EraseItems(items)))
    decreases items, 1
  {
    hide Represents, RepresentsAll, NodeIs, ShowsItems, ChildrenOf;
    RepresentsNode(nodes, ref, BlockTree(EraseItems(items)));
    ItemsAreShown(nodes, ChildrenOf(nodes, ref), items);
  }

  lemma {:induction false} ItemsAreShown(nodes: seq<Node>, refs: seq<Ref>, items: Items)
    ensures ShowsItems(nodes, refs, items) <==> RepresentsAll(nodes, refs, List(EraseItems(items)))
    decreases items, 0
  {
    hide Represents, RepresentsAll;
    RepresentsFew(nodes, refs, NoTree, NoTree, NoTree);
    match items
    case NoItems =>
    case Sep(_, rest) => ItemsAreShown(nodes, refs, rest);
    case Item(stmt, rest) =>
      RepresentsCons(nodes, refs, EraseStmt(stmt), List(EraseItems(rest)));
      if refs != [] {
        StmtIsShown(nodes, refs[0], stmt);
        ItemsAreShown(nodes, refs[1..], rest);
      }
  }

  lemma {:induction false} StmtIsShown(nodes: seq<Node>, ref: Ref, s: Stmt)
    ensures ShowsStmt(nodes, ref, s) <==> Represents(nodes, ref, EraseStmt(s))
    decreases s
  {
    hide Represents, NodeIs, ChildrenOf, Child, ShowsBlock;
    var t := EraseStmt(s);
    var a, b := Child(nodes, ref, 0), Child(nodes, ref, 1);
    match s
    case Expression(e) => ShownIsRepresented(nodes, ref, e);
    case Return(e) =>
      ShownIsRepresented(nodes, a, e);
      OneChild(nodes, ref, t, Erase(e));
    case Decl(isConst, declared, init) =>
      ShownIsRepresented(nodes, b, init);
      NoChildren(nodes, a, IdentTree(declared.text));
      TwoChildren(nodes, ref, t, IdentTree(declared.text), Erase(init));
    case Func(keyword, named, params, block) =>
      BlockIsShown(nodes, b, block);
      NoChildren(nodes, a, t.ident);
      TwoChildren(nodes, ref, t, t.ident, t.block);
      NamedIs(params);
  }

  lemma {:induction false} NamedIs(ps: Params)
    ensures Named(ps) == ParamList(ps)
  {
    if ps.Params? { NamedIs(ps.more); }
  }

  /**
   The finished pool of a program: node 0 is its block, every node below it holds what the derivation says,
   and every node but that one has exactly one parent.
   */
  lemma {:induction false} PoolShowsProgram(items: Items)
    ensures var nodes := Flatten(BlockTree(EraseItems(items)), 0);
            && ShowsBlock(nodes, Some(0), items)
            && forall i: nat :: i < |nodes| ==> ParentCount(nodes, i) == if i == 0 then 0 else 1
  {
    hide Represents, Flatten, ParentCount, ShowsBlock;
    WholePool(BlockTree(EraseItems(items)));
    BlockIsShown(Flatten(BlockTree(EraseItems(items)), 0), Some(0), items);
  }

  /** What memory holds of a program's pool is what its derivation says exactly when no list has lost anything. */
  lemma {:induction false} MemoryShowsExactlyWhen(items: Items)
    ensures var t := BlockTree(EraseItems(items));
            ShowsBlock(Held(t, 0), Some(0), items) <==> Intact(t)
  {
    hide Represents, Held, ParentCount, ShowsBlock, Intact;
    var t := BlockTree(EraseItems(items));
    BlockIsShown(Held(t, 0), Some(0), items);
    WholeInMemory(t);
    BlockRoot(t);
    assert Held(t, 0)[0..|Held(t, 0)|] == Held(t, 0);
    if Represents(Held(t, 0), Some(0), t) { RepresentedIsIntact(Held(t, 0), t, 0); }
  }
}
