/** How the slice of a tree is made from the slices of its parts, one lemma a shape. */
module Layout {
  import opened Tokens
  import opened Syntax
  import opened Pool

  /** A node without parts. */
  lemma {:induction false} LayLeaf(t: Tree, base: nat)
    requires !t.NoTree? && Parts(t) == []
    ensures Flatten(t, base) == [Node(DataOf(t), [])] && Root(t, base) == Some(base) && Size(t) == 1
  {
    hide Parts, DataOf, Size;
    EarlierLeaf(t);
    LayBefore(t, base);
    NoParts(base + 1);
  }

  lemma EarlierLeaf(t: Tree)
    ensures Parts(t) == [] ==> Earlier(t) == 0
  {
  }

  /** A node allocated before all of its parts. */
  lemma {:induction false} LayBefore(t: Tree, base: nat)
    requires !t.NoTree? && Earlier(t) == 0
    ensures Flatten(t, base) == [Node(DataOf(t), Roots(Parts(t), base + 1))] + FlattenAll(Parts(t), base + 1)
    ensures Root(t, base) == Some(base) && Size(t) == 1 + Sizes(Parts(t))
  {
    hide Parts, DataOf, Size, Earlier, Flatten, FlattenAll, Roots;
    SizeOfParts(t);
    assert Parts(t)[..0] == [] && Parts(t)[0..] == Parts(t);
    FlatParts(t, base);
    NoParts(base);
    assert [] + Roots(Parts(t), base + 1) == Roots(Parts(t), base + 1);
    assert [] + [NodeOf(t, base)] + FlattenAll(Parts(t), base + 1) == [NodeOf(t, base)] + FlattenAll(Parts(t), base + 1);
  }

  lemma {:induction false} NoParts(base: nat)
    ensures Roots([], base) == [] && FlattenAll([], base) == [] && Sizes([]) == 0
  {
  }

  /** A node allocated after its first part. */
  lemma LayAfterFirst(t: Tree, first: Tree, rest: seq<Tree>, base: nat)
    requires !t.NoTree? && Earlier(t) == 1 && Parts(t) == [first] + rest
    ensures var at := base + Size(first) + 1;
            Flatten(t, base) == Flatten(first, base)
              + [Node(DataOf(t), [Root(first, base)] + Roots(rest, at))] + FlattenAll(rest, at)
    ensures Root(t, base) == Some(base + Size(first)) && Size(t) == Size(first) + 1 + Sizes(rest)
  {
    hide Parts, DataOf, Size, Earlier, Flatten, FlattenAll, Roots, Sizes;
    SizeOfParts(t);
    assert Parts(t)[..1] == [first] && Parts(t)[1..] == rest;
    SizesShort(first, first, first);
    FlatParts(t, base);
    LayOne(first, base);
  }

  lemma {:induction false} LayOne(t: Tree, base: nat)
    ensures FlattenAll([t], base) == Flatten(t, base) && Roots([t], base) == [Root(t, base)] && Sizes([t]) == Size(t)
  {
    hide Size, Flatten, Root;
    assert [t][1..] == [];
  }

  lemma LayTwo(a: Tree, b: Tree, base: nat)
    ensures FlattenAll([a, b], base) == Flatten(a, base) + Flatten(b, base + Size(a))
    ensures Roots([a, b], base) == [Root(a, base), Root(b, base + Size(a))] && Sizes([a, b]) == Size(a) + Size(b)
  {
    hide Size, Flatten, Root;
    assert [a, b][1..] == [b];
    LayOne(b, base + Size(a));
  }

  lemma {:induction false} LayAppend(a: seq<Tree>, b: seq<Tree>, base: nat)
    ensures FlattenAll(a + b, base) == FlattenAll(a, base) + FlattenAll(b, base + Sizes(a))
    ensures Roots(a + b, base) == Roots(a, base) + Roots(b, base + Sizes(a))
    ensures Sizes(a + b) == Sizes(a) + Sizes(b)
    decreases |a|
  {
    hide Size, Flatten, Root, FlattenAll, Roots, Sizes;
    SizesAppend(a, b);
    if a == [] {
      assert a + b == b;
      NoParts(base);
      assert [] + Roots(b, base) == Roots(b, base) && [] + FlattenAll(b, base) == FlattenAll(b, base);
    } else {
      FirstSize(a);
      LayAppend(a[1..], b, base + Size(a[0]));
      AppendAssoc(a, b, base);
    }
  }

  lemma {:induction false} FirstSize(a: seq<Tree>)
    requires a != []
    ensures Sizes(a) == Size(a[0]) + Sizes(a[1..])
  {
    hide Size;
  }

  lemma AppendAssoc(a: seq<Tree>, b: seq<Tree>, base: nat)
    requires a != []
    requires var at := base + Size(a[0]);
             && FlattenAll(a[1..] + b, at) == FlattenAll(a[1..], at) + FlattenAll(b, base + Sizes(a))
             && Roots(a[1..] + b, at) == Roots(a[1..], at) + Roots(b, base + Sizes(a))
    ensures FlattenAll(a + b, base) == FlattenAll(a, base) + FlattenAll(b, base + Sizes(a))
    ensures Roots(a + b, base) == Roots(a, base) + Roots(b, base + Sizes(a))
  {
    hide Size, Flatten, Root, Sizes;
    assert (a + b)[1..] == a[1..] + b;
    var at := base + Size(a[0]);
    assert Flatten(a[0], base) + (FlattenAll(a[1..], at) + FlattenAll(b, base + Sizes(a)))
        == Flatten(a[0], base) + FlattenAll(a[1..], at) + FlattenAll(b, base + Sizes(a));
    assert [Root(a[0], base)] + (Roots(a[1..], at) + Roots(b, base + Sizes(a)))
        == [Root(a[0], base)] + Roots(a[1..], at) + Roots(b, base + Sizes(a));
  }

  /** The if node comes after all of its parts. */
  lemma LayIf(c: Tree, y: Tree, n: Tree, base: nat)
    ensures var t := IfTree(c, y, n);
            var thenAt, elseAt := base + Size(c), base + Size(c) + Size(y);
            && Flatten(t, base) == Flatten(c, base) + Flatten(y, thenAt) + Flatten(n, elseAt)
                 + [Node(IfData, [Root(c, base), Root(y, thenAt), Root(n, elseAt)])]
            && Root(t, base) == Some(elseAt + Size(n)) && Size(t) == Size(c) + Size(y) + Size(n) + 1
  {
    hide Flatten, FlattenAll, Roots, Sizes;
    hide NodeOf;
    var t := IfTree(c, y, n);
    var parts := [c, y, n];
    var at := base + Size(c) + Size(y) + Size(n);
    assert parts[..3] == parts && parts[3..] == [];
    SizesShort(c, y, n);
    FlatParts(t, base);
    LayThree(c, y, n, base);
    NoParts(at + 1);
    IfNode(c, y, n, base);
    assert FlattenAll(parts, base) + [NodeOf(t, base)] + [] == FlattenAll(parts, base) + [NodeOf(t, base)];
  }

  lemma {:induction false} IfNode(c: Tree, y: Tree, n: Tree, base: nat)
    ensures NodeOf(IfTree(c, y, n), base)
         == Node(IfData, [Root(c, base), Root(y, base + Size(c)), Root(n, base + Size(c) + Size(y))])
  {
    hide *;
    var t, parts := IfTree(c, y, n), [c, y, n];
    var refs := [Root(c, base), Root(y, base + Size(c)), Root(n, base + Size(c) + Size(y))];
    IfShape(c, y, n);
    assert parts[..3] == parts && parts[3..] == [];
    NodeParts(t, base);
    LayThree(c, y, n, base);
    NoParts(base + Sizes(parts) + 1);
    assert refs + [] == refs;
  }

  lemma {:induction false} IfShape(c: Tree, y: Tree, n: Tree)
    ensures var t := IfTree(c, y, n);
            DataOf(t) == IfData && Parts(t) == [c, y, n] && Earlier(t) == 3
  {
  }

  lemma {:induction false} NodeParts(t: Tree, base: nat)
    requires !t.NoTree?
    ensures var parts, k := Parts(t), Earlier(t);
            NodeOf(t, base) == Node(DataOf(t), Roots(parts[..k], base) + Roots(parts[k..], base + Sizes(parts[..k]) + 1))
  {
    hide DataOf, Parts, Earlier, Roots, Sizes;
  }

  lemma LayThree(a: Tree, b: Tree, c: Tree, base: nat)
    ensures FlattenAll([a, b, c], base)
         == Flatten(a, base) + Flatten(b, base + Size(a)) + Flatten(c, base + Size(a) + Size(b))
    ensures Roots([a, b, c], base) == [Root(a, base), Root(b, base + Size(a)), Root(c, base + Size(a) + Size(b))]
    ensures Sizes([a, b, c]) == Size(a) + Size(b) + Size(c)
  {
    hide Size, Flatten, Root;
    assert [a, b, c][1..] == [b, c];
    LayTwo(b, c, base + Size(a));
  }

  // ----- The shapes the handlers build -----

  lemma {:induction false} LayUnary(op: TokenType, e: Tree, base: nat)
    ensures var t := UnaryTree(op, e);
            && Flatten(t, base) == [Node(UnaryData(op), [Root(e, base + 1)])] + Flatten(e, base + 1)
            && Root(t, base) == Some(base) && Size(t) == 1 + Size(e)
  {
    hide Flatten, FlattenAll, Roots, Root, Sizes, Size;
    LayBefore(UnaryTree(op, e), base);
    LayOne(e, base + 1);
  }

  lemma {:induction false} LayReturn(e: Tree, base: nat)
    ensures var t := ReturnTree(e);
            && Flatten(t, base) == [Node(ReturnData, [Root(e, base + 1)])] + Flatten(e, base + 1)
            && Root(t, base) == Some(base) && Size(t) == 1 + Size(e)
  {
    hide Flatten, FlattenAll, Roots, Root, Sizes, Size;
    LayBefore(ReturnTree(e), base);
    LayOne(e, base + 1);
  }

  /** A node between its left part and its right part. */
  /** The trees of the operators whose node stands between their two operands. */
  ghost predicate IsPair(t: Tree, l: Tree, r: Tree) {
    t == BinaryTree(l, r) || (t.RangeTree? && t.lhs == l && t.rhs == r) || t == AssignTree(l, r) || t == IndexTree(l, r)
  }

  lemma LayPair(t: Tree, l: Tree, r: Tree, base: nat)
    requires IsPair(t, l, r)
    ensures var at := base + Size(l) + 1;
            && Flatten(t, base) == Flatten(l, base) + [Node(DataOf(t), [Root(l, base), Root(r, at)])] + Flatten(r, at)
            && Root(t, base) == Some(at - 1) && Size(t) == Size(l) + 1 + Size(r)
  {
    hide Flatten, FlattenAll, Roots, Root, Sizes, Size, DataOf;
    assert [l, r] == [l] + [r];
    LayAfterFirst(t, l, [r], base);
    LayOne(r, base + Size(l) + 1);
    assert [Root(l, base)] + [Root(r, base + Size(l) + 1)] == [Root(l, base), Root(r, base + Size(l) + 1)];
  }

  lemma LayTernary(c: Tree, y: Tree, n: Tree, base: nat)
    ensures var t := TernaryTree(c, y, n);
            var at := base + Size(c) + 1;
            && Flatten(t, base) == Flatten(c, base)
                 + [Node(TernaryData, [Root(c, base), Root(y, at), Root(n, at + Size(y))])]
                 + (Flatten(y, at) + Flatten(n, at + Size(y)))
            && Root(t, base) == Some(at - 1) && Size(t) == Size(c) + 1 + Size(y) + Size(n)
  {
    hide Flatten, FlattenAll, Roots, Root, Sizes, Size;
    assert [c, y, n] == [c] + [y, n];
    LayAfterFirst(TernaryTree(c, y, n), c, [y, n], base);
    var at := base + Size(c) + 1;
    LayTwo(y, n, at);
    assert [Root(c, base)] + [Root(y, at), Root(n, at + Size(y))] == [Root(c, base), Root(y, at), Root(n, at + Size(y))];
  }

  lemma {:induction false} LayCall(f: Tree, args: Trees, base: nat)
    ensures var t := CallTree(f, args);
            var at := base + Size(f) + 1;
            && Flatten(t, base) == Flatten(f, base)
                 + [Node(CallData, [Root(f, base)] + Roots(List(args), at))] + FlattenAll(List(args), at)
            && Root(t, base) == Some(at - 1) && Size(t) == Size(f) + 1 + Sizes(List(args))
  {
    hide Flatten, FlattenAll, Roots, Root, Sizes, Size, List;
    LayAfterFirst(CallTree(f, args), f, List(args), base);
  }

  lemma {:induction false} LayDot(l: Tree, member: Option<string>, base: nat)
    ensures var t := DotTree(l, member);
            && Flatten(t, base) == Flatten(l, base) + [Node(DotData(member), [Root(l, base)])]
            && Root(t, base) == Some(base + Size(l)) && Size(t) == Size(l) + 1
  {
    hide Flatten, FlattenAll, Roots, Root, Sizes, Size;
    assert [l] == [l] + [];
    LayAfterFirst(DotTree(l, member), l, [], base);
    NoParts(base + Size(l) + 1);
    assert [Root(l, base)] + [] == [Root(l, base)];
    assert forall x: seq<Node> :: x + [] == x;
  }

  lemma {:induction false} LayArray(elems: Trees, length: Tree, base: nat)
    ensures var t := ArrayTree(elems, length);
            var at := base + 1 + Sizes(List(elems));
            && Flatten(t, base) == [Node(ArrayData, Roots(List(elems), base + 1) + [Root(length, at)])]
                 + (FlattenAll(List(elems), base + 1) + Flatten(length, at))
            && Root(t, base) == Some(base) && Size(t) == 1 + Sizes(List(elems)) + Size(length)
  {
    hide Flatten, FlattenAll, Roots, Root, Sizes, Size, List;
    LayBefore(ArrayTree(elems, length), base);
    LayAppend(List(elems), [length], base + 1);
    LayOne(length, base + 1 + Sizes(List(elems)));
  }

  lemma {:induction false} LayBlock(stmts: Trees, base: nat)
    ensures var t := BlockTree(stmts);
            && Flatten(t, base) == [Node(BlockData, Roots(List(stmts), base + 1))] + FlattenAll(List(stmts), base + 1)
            && Root(t, base) == Some(base) && Size(t) == 1 + Sizes(List(stmts))
  {
    hide Flatten, FlattenAll, Roots, Root, Sizes, Size, List;
    LayBefore(BlockTree(stmts), base);
  }

  /** A declaration or a function: the node, its identifier, and then the rest. */
  lemma LayNamed(t: Tree, name: string, rest: Tree, base: nat)
    requires (t.DeclTree? && t.ident == IdentTree(name) && t.init == rest)
          || (t.FuncTree? && t.ident == IdentTree(name) && t.block == rest)
    ensures && Flatten(t, base) == [Node(DataOf(t), [Some(base + 1), Root(rest, base + 2)])]
                 + [Node(IdentData(name), [])] + Flatten(rest, base + 2)
            && Root(t, base) == Some(base) && Size(t) == 2 + Size(rest)
  {
    hide Flatten, FlattenAll, Roots, Root, Sizes, Size;
    LayBefore(t, base);
    LayTwo(IdentTree(name), rest, base + 1);
    LayLeaf(IdentTree(name), base + 1);
    assert forall x: seq<Node>, y, z :: x + (y + z) == x + y + z;
  }
}
