/**
 The node pool. A tree built by one call occupies one contiguous slice of it, in an order that
 depends only on the tree; nodes refer to each other by their index in the pool.
 */
module Pool {
  import opened Tokens
  import opened Syntax
  import opened Grammar

  /** A pointer to a node: its index in the pool, or NULL. */
  type Ref = Option<nat>

  /** What a node stores besides its child pointers. */
  datatype Data =
    | NumberData(number: int) | StringData(text: string) | IdentData(name: string) | NilData | BoolData(value: bool)
    | UnaryData(op: TokenType) | ArrayData | BinaryData | RangeData(inclusive: bool) | AssignData | TernaryData
    | CallData | IndexData | DotData(member: Option<string>) | IfData | BlockData | DeclData(isConst: bool)
    | FuncData(params: seq<Param>) | ReturnData

  /**
   A node: its child pointers stand in the order of the fields, a list of pointers in place of its
   elements. An array literal's last child is its length expression.
   */
  datatype Node = Node(data: Data, children: seq<Ref>)

  // ----- A tree as data and parts -----

  ghost function List(ts: Trees): seq<Tree> {
    match ts
    case NoTrees => []
    case Trees(head, tail) => [head] + List(tail)
  }

  ghost function DataOf(t: Tree): Data
    requires !t.NoTree?
  {
    match t
    case NumberTree(n) => NumberData(n)
    case StringTree(text) => StringData(text)
    case IdentTree(name) => IdentData(name)
    case NilTree => NilData
    case BoolTree(b) => BoolData(b)
    case UnaryTree(op, _) => UnaryData(op)
    case ArrayTree(_, _) => ArrayData
    case BinaryTree(_, _) => BinaryData
    case RangeTree(_, inclusive, _) => RangeData(inclusive)
    case AssignTree(_, _) => AssignData
    case TernaryTree(_, _, _) => TernaryData
    case CallTree(_, _) => CallData
    case IndexTree(_, _) => IndexData
    case DotTree(_, member) => DotData(member)
    case IfTree(_, _, _) => IfData
    case BlockTree(_) => BlockData
    case DeclTree(isConst, _, _) => DeclData(isConst)
    case FuncTree(_, params, _) => FuncData(params)
    case ReturnTree(_) => ReturnData
  }

  /** The subtrees, in the order in which they are built. */
  ghost function Parts(t: Tree): seq<Tree> {
    match t
    case UnaryTree(_, e) => [e]
    case ArrayTree(elems, length) => List(elems) + [length]
    case BinaryTree(l, r) => [l, r]
    case RangeTree(l, _, r) => [l, r]
    case AssignTree(l, r) => [l, r]
    case TernaryTree(c, y, n) => [c, y, n]
    case CallTree(f, args) => [f] + List(args)
    case IndexTree(b, i) => [b, i]
    case DotTree(l, _) => [l]
    case IfTree(c, t, e) => [c, t, e]
    case BlockTree(stmts) => List(stmts)
    case DeclTree(_, ident, init) => [ident, init]
    case FuncTree(_, _, _) => [t.ident, t.block]
    case ReturnTree(e) => [e]
    case _ => []
  }

  /** How many of them are built before the node itself is allocated. */
  ghost function Earlier(t: Tree): (k: nat)
    ensures k <= |Parts(t)|
  {
    match t
    case BinaryTree(_, _) => 1
    case RangeTree(_, _, _) => 1
    case AssignTree(_, _) => 1
    case TernaryTree(_, _, _) => 1
    case CallTree(_, _) => 1
    case IndexTree(_, _) => 1
    case DotTree(_, _) => 1
    case IfTree(_, _, _) => 3
    case _ => 0
  }

  // ----- Size and layout -----

  /** How many nodes a tree takes. */
  ghost function Size(t: Tree): nat {
    match t
    case NoTree => 0
    case UnaryTree(_, e) => 1 + Size(e)
    case ArrayTree(elems, length) => 1 + SizeAll(elems) + Size(length)
    case BinaryTree(l, r) => 1 + Size(l) + Size(r)
    case RangeTree(l, _, r) => 1 + Size(l) + Size(r)
    case AssignTree(l, r) => 1 + Size(l) + Size(r)
    case TernaryTree(c, y, n) => 1 + Size(c) + Size(y) + Size(n)
    case CallTree(f, args) => 1 + Size(f) + SizeAll(args)
    case IndexTree(b, i) => 1 + Size(b) + Size(i)
    case DotTree(l, _) => 1 + Size(l)
    case IfTree(c, t, e) => 1 + Size(c) + Size(t) + Size(e)
    case BlockTree(stmts) => 1 + SizeAll(stmts)
    case DeclTree(_, ident, init) => 1 + Size(ident) + Size(init)
    case FuncTree(ident, _, block) => 1 + Size(ident) + Size(block)
    case ReturnTree(e) => 1 + Size(e)
    case _ => 1
  }

  ghost function SizeAll(ts: Trees): nat {
    match ts
    case NoTrees => 0
    case Trees(head, tail) => Size(head) + SizeAll(tail)
  }

  ghost function Sizes(parts: seq<Tree>): nat {
    if parts == [] then 0 else Size(parts[0]) + Sizes(parts[1..])
  }

  lemma {:induction false} SizesAppend(a: seq<Tree>, b: seq<Tree>)
    ensures Sizes(a + b) == Sizes(a) + Sizes(b)
    decreases |a|
  {
    hide Size;
    if a == [] {
      assert a + b == b;
    } else {
      assert (a + b)[1..] == a[1..] + b;
      SizesAppend(a[1..], b);
    }
  }

  lemma {:induction false} SizesList(ts: Trees)
    ensures Sizes(List(ts)) == SizeAll(ts)
  {
    hide Size;
    if ts.Trees? {
      SizesList(ts.tail);
      assert List(ts)[1..] == List(ts.tail);
    }
  }

  lemma {:induction false} SizesShort(a: Tree, b: Tree, c: Tree)
    ensures Sizes([]) == 0 && Sizes([a]) == Size(a) && Sizes([a, b]) == Size(a) + Size(b)
    ensures Sizes([a, b, c]) == Size(a) + Size(b) + Size(c)
  {
    hide Size;
    assert forall x :: Sizes([x]) == Size(x) + Sizes([]);
    assert [a, b][1..] == [b] && [b, c][1..] == [c] && [a, b, c][1..] == [b, c];
    assert Sizes([a, b]) == Size(a) + Sizes([b]) && Sizes([b, c]) == Size(b) + Sizes([c]);
    assert Sizes([a, b, c]) == Size(a) + Sizes([b, c]);
  }

  lemma {:induction false} SizeOfParts(t: Tree)
    requires !t.NoTree?
    ensures Size(t) == 1 + Sizes(Parts(t))
    ensures Sizes(Parts(t)) == Sizes(Parts(t)[..Earlier(t)]) + Sizes(Parts(t)[Earlier(t)..])
  {
    hide Sizes, Size, Earlier, Parts;
    var parts, k := Parts(t), Earlier(t);
    assert parts == parts[..k] + parts[k..];
    SizesAppend(parts[..k], parts[k..]);
    PartsAddUp(t);
  }

  lemma {:induction false} PartsAddUp(t: Tree)
    requires !t.NoTree?
    ensures Size(t) == 1 + Sizes(Parts(t))
  {
    hide Sizes, Earlier, Size, SizeAll, Parts;
    if t.ArrayTree? || t.CallTree? || t.BlockTree? {
      ListAddsUp(t);
    } else {
      FewAddUp(t);
    }
  }

  lemma {:induction false} ListAddsUp(t: Tree)
    requires t.ArrayTree? || t.CallTree? || t.BlockTree?
    ensures Size(t) == 1 + Sizes(Parts(t))
  {
    hide Sizes, SizeAll, List;
    match t
    case ArrayTree(elems, length) =>
      SizesAppend(List(elems), [length]);
      SizesList(elems);
      SizesShort(length, length, length);
    case CallTree(f, args) =>
      SizesAppend([f], List(args));
      SizesList(args);
      SizesShort(f, f, f);
    case BlockTree(stmts) => SizesList(stmts);
  }

  lemma {:induction false} FewAddUp(t: Tree)
    requires !t.NoTree? && !t.ArrayTree? && !t.CallTree? && !t.BlockTree?
    ensures Size(t) == 1 + Sizes(Parts(t))
  {
    hide Sizes, SizeAll, List;
    var p := Parts(t);
    assert |p| <= 3;
    if |p| == 0 {
      SizesShort(NoTree, NoTree, NoTree);
    } else if |p| == 1 {
      SizesShort(p[0], p[0], p[0]);
      assert p == [p[0]];
    } else if |p| == 2 {
      SizesShort(p[0], p[1], p[1]);
      assert p == [p[0], p[1]];
    } else {
      SizesShort(p[0], p[1], p[2]);
      assert p == [p[0], p[1], p[2]];
    }
  }

  ghost function Root(t: Tree, base: nat): Ref {
    if t.NoTree? then None else Some(base + Sizes(Parts(t)[..Earlier(t)]))
  }

  /** The roots of trees that are laid out one after another. */
  ghost function Roots(parts: seq<Tree>, base: nat): (refs: seq<Ref>)
    ensures |refs| == |parts|
  {
    if parts == [] then [] else [Root(parts[0], base)] + Roots(parts[1..], base + Size(parts[0]))
  }

  /** The node of a tree whose first part starts at `base`. */
  ghost function NodeOf(t: Tree, base: nat): Node
    requires !t.NoTree?
  {
    var parts, k := Parts(t), Earlier(t);
    Node(DataOf(t), Roots(parts[..k], base) + Roots(parts[k..], base + Sizes(parts[..k]) + 1))
  }

  /** The slice of the pool that holds `t` when its first node has index `base`. */
  ghost function Flatten(t: Tree, base: nat): (slice: seq<Node>)
    ensures |slice| == Size(t)
    decreases Size(t), 0, 0
  {
    if t.NoTree? then []
    else
      SizeOfParts(t);
      var parts, k := Parts(t), Earlier(t);
      var at := base + Sizes(parts[..k]);
      FlattenAll(parts[..k], base) + [NodeOf(t, base)] + FlattenAll(parts[k..], at + 1)
  }

  ghost function FlattenAll(parts: seq<Tree>, base: nat): (slice: seq<Node>)
    ensures |slice| == Sizes(parts)
    decreases Sizes(parts), 1, |parts|
  {
    if parts == [] then []
    else Flatten(parts[0], base) + FlattenAll(parts[1..], base + Size(parts[0]))
  }

  // ----- The slice is one tree: every other node has exactly one parent -----

  /** How often a list of pointers names node `i`. */
  ghost function RefCount(refs: seq<Ref>, i: nat): nat {
    if refs == [] then 0 else (if refs[0] == Some(i) then 1 else 0) + RefCount(refs[1..], i)
  }

  /** How often node `i` is a child of one of the nodes. */
  ghost function ParentCount(nodes: seq<Node>, i: nat): nat {
    if nodes == [] then 0 else RefCount(nodes[0].children, i) + ParentCount(nodes[1..], i)
  }

  ghost function Inside(base: nat, n: nat, i: nat): nat {
    if base <= i < base + n then 1 else 0
  }

  lemma {:induction false} RefCountAppend(a: seq<Ref>, b: seq<Ref>, i: nat)
    ensures RefCount(a + b, i) == RefCount(a, i) + RefCount(b, i)
    decreases |a|
  {
    if a == [] {
      assert a + b == b;
    } else {
      assert (a + b)[1..] == a[1..] + b;
      RefCountAppend(a[1..], b, i);
    }
  }

  lemma {:induction false} ParentCountAppend(a: seq<Node>, b: seq<Node>, i: nat)
    ensures ParentCount(a + b, i) == ParentCount(a, i) + ParentCount(b, i)
    decreases |a|
  {
    hide RefCount;
    if a == [] {
      assert a + b == b;
    } else {
      assert (a + b)[1..] == a[1..] + b;
      ParentCountAppend(a[1..], b, i);
    }
  }

  lemma {:induction false} OneRef(r: Ref, i: nat)
    ensures RefCount([r], i) == if r == Some(i) then 1 else 0
  {
    assert [r][1..] == [];
  }

  /** A slice's child pointers and its root name exactly the indices of the slice, each once. */
  lemma {:induction false} OneParentEach(t: Tree, base: nat, i: nat)
    ensures ParentCount(Flatten(t, base), i) + RefCount([Root(t, base)], i) == Inside(base, Size(t), i)
    decreases Size(t), 0, 0
  {
    hide DataOf, Parts, Earlier, NodeOf, Roots, RefCount, ParentCount, Sizes, Size, Flatten, FlattenAll;
    OneRef(Root(t, base), i);
    if t.NoTree? {
      NothingFlat(t, base, i);
    } else {
      var parts, k := Parts(t), Earlier(t);
      var at := base + Sizes(parts[..k]);
      var before, after := FlattenAll(parts[..k], base), FlattenAll(parts[k..], at + 1);
      SizeOfParts(t);
      OneParentAll(parts[..k], base, i);
      OneParentAll(parts[k..], at + 1, i);
      FlatParts(t, base);
      ParentCountAppend(before + [NodeOf(t, base)], after, i);
      ParentCountAppend(before, [NodeOf(t, base)], i);
      OwnRefs(t, base, i);
    }
  }

  lemma {:induction false} NothingFlat(t: Tree, base: nat, i: nat)
    ensures t.NoTree? ==> ParentCount(Flatten(t, base), i) == 0 == Size(t)
  {
  }

  lemma {:induction false} FlatParts(t: Tree, base: nat)
    requires !t.NoTree?
    ensures var parts, k := Parts(t), Earlier(t);
            var at := base + Sizes(parts[..k]);
            Flatten(t, base) == FlattenAll(parts[..k], base) + [NodeOf(t, base)] + FlattenAll(parts[k..], at + 1)
  {
    hide Parts, Earlier, NodeOf;
  }

  lemma {:induction false} OwnRefs(t: Tree, base: nat, i: nat)
    requires !t.NoTree?
    ensures ParentCount([NodeOf(t, base)], i)
         == RefCount(Roots(Parts(t)[..Earlier(t)], base), i)
            + RefCount(Roots(Parts(t)[Earlier(t)..], base + Sizes(Parts(t)[..Earlier(t)]) + 1), i)
  {
    hide DataOf, Parts, Earlier, Sizes, Roots, RefCount;
    var parts, k := Parts(t), Earlier(t);
    var node := NodeOf(t, base);
    assert [node][1..] == [];
    RefCountAppend(Roots(parts[..k], base), Roots(parts[k..], base + Sizes(parts[..k]) + 1), i);
  }

  lemma {:induction false} OneParentAll(parts: seq<Tree>, base: nat, i: nat)
    ensures ParentCount(FlattenAll(parts, base), i) + RefCount(Roots(parts, base), i) == Inside(base, Sizes(parts), i)
    decreases Sizes(parts), 1, |parts|
  {
    hide Size, Root, Flatten;
    if parts != [] {
      hide ParentCount, RefCount;
      var next := base + Size(parts[0]);
      OneParentEach(parts[0], base, i);
      OneParentAll(parts[1..], next, i);
      ParentCountAppend(Flatten(parts[0], base), FlattenAll(parts[1..], next), i);
      RefCountAppend([Root(parts[0], base)], Roots(parts[1..], next), i);
    }
  }

  /** In the pool of a whole tree the root is nobody's child and every other node is a child once. */
  lemma {:induction false} PoolIsOneTree(t: Tree, i: nat)
    requires i < Size(t)
    ensures ParentCount(Flatten(t, 0), i) == if Root(t, 0) == Some(i) then 0 else 1
  {
    hide Flatten, ParentCount, Size, Root, RefCount;
    OneParentEach(t, 0, i);
    OneRef(Root(t, 0), i);
  }

  // ----- Following the pointers gives the tree back -----

  lemma {:induction false} PartSize(parts: seq<Tree>, i: nat)
    requires i < |parts|
    ensures Size(parts[i]) <= Sizes(parts)
  {
    hide Size;
    if i > 0 { PartSize(parts[1..], i - 1); }
  }

  /** The nodes reached from `ref` form the tree `t`. */
  ghost predicate Represents(nodes: seq<Node>, ref: Ref, t: Tree)
    decreases Size(t)
  {
    if t.NoTree? then ref.None?
    else
      SizeOfParts(t);
      && ref.Some? && ref.value < |nodes| && nodes[ref.value].data == DataOf(t)
      && |nodes[ref.value].children| == |Parts(t)|
      && forall i :: 0 <= i < |Parts(t)| ==>
           (PartSize(Parts(t), i); Represents(nodes, nodes[ref.value].children[i], Parts(t)[i]))
  }

  ghost predicate SliceAt(nodes: seq<Node>, base: nat, slice: seq<Node>) {
    base + |slice| <= |nodes| && nodes[base..base + |slice|] == slice
  }

  lemma SubSlices(nodes: seq<Node>, base: nat, a: seq<Node>, node: Node, b: seq<Node>)
    requires SliceAt(nodes, base, a + [node] + b)
    ensures SliceAt(nodes, base, a) && SliceAt(nodes, base + |a| + 1, b)
    ensures nodes[base + |a|] == node
  {
    var slice := a + [node] + b;
    var whole := nodes[base..base + |slice|];
    assert nodes[base..base + |a|] == whole[..|a|] == a;
    assert nodes[base + |a|] == whole[|a|] == node;
    assert nodes[base + |a| + 1..base + |slice|] == whole[|a| + 1..] == b;
  }

  /** Wherever the slice of a tree lies in a pool, its root represents the tree. */
  lemma {:induction false} SliceRepresents(nodes: seq<Node>, t: Tree, base: nat)
    requires SliceAt(nodes, base, Flatten(t, base))
    ensures Represents(nodes, Root(t, base), t)
    decreases Size(t), 0, 0
  {
    hide DataOf, Parts, Earlier, SliceAt, NodeOf, Flatten, FlattenAll, Represents, Roots, Size, Sizes;
    if t.NoTree? {
      NothingThere(nodes, base);
    } else {
      SizeOfParts(t);
      FlatParts(t, base);
      var parts, k := Parts(t), Earlier(t);
      var at := base + Sizes(parts[..k]);
      SubSlices(nodes, base, FlattenAll(parts[..k], base), NodeOf(t, base), FlattenAll(parts[k..], at + 1));
      SlicesRepresent(nodes, parts[..k], base);
      SlicesRepresent(nodes, parts[k..], at + 1);
      NodeRepresents(nodes, t, base);
    }
  }

  lemma {:induction false} NothingThere(nodes: seq<Node>, base: nat)
    ensures Represents(nodes, Root(NoTree, base), NoTree)
  {
  }

  /** A node whose parts are represented represents its tree. */
  lemma {:induction false} NodeRepresents(nodes: seq<Node>, t: Tree, base: nat)
    requires !t.NoTree?
    requires var parts, k := Parts(t), Earlier(t);
             var at := base + Sizes(parts[..k]);
             && at < |nodes| && nodes[at] == NodeOf(t, base)
             && (forall i :: 0 <= i < k ==> Represents(nodes, Roots(parts[..k], base)[i], parts[..k][i]))
             && (forall i :: 0 <= i < |parts| - k ==> Represents(nodes, Roots(parts[k..], at + 1)[i], parts[k..][i]))
    ensures Represents(nodes, Root(t, base), t)
  {
    hide DataOf, Parts, Earlier, Sizes, Size, Roots, Represents;
    var parts, k := Parts(t), Earlier(t);
    var node := NodeOf(t, base);
    forall i | 0 <= i < |parts| ensures Represents(nodes, node.children[i], parts[i]) {
      if i < k {
        assert parts[..k][i] == parts[i];
      } else {
        assert parts[k..][i - k] == parts[i];
      }
    }
    ChildrenRepresent(nodes, base + Sizes(parts[..k]), t);
  }

  lemma {:induction false} ChildrenRepresent(nodes: seq<Node>, at: nat, t: Tree)
    requires !t.NoTree? && at < |nodes| && nodes[at].data == DataOf(t) && |nodes[at].children| == |Parts(t)|
    requires forall i :: 0 <= i < |Parts(t)| ==> Represents(nodes, nodes[at].children[i], Parts(t)[i])
    ensures Represents(nodes, Some(at), t)
  {
    hide DataOf, Parts, Sizes, Size;
    SizeOfParts(t);
  }

  lemma {:induction false} SlicesRepresent(nodes: seq<Node>, parts: seq<Tree>, base: nat)
    requires SliceAt(nodes, base, FlattenAll(parts, base))
    ensures forall i :: 0 <= i < |parts| ==> Represents(nodes, Roots(parts, base)[i], parts[i])
    decreases Sizes(parts), 1, |parts|
  {
    hide Represents, Size, Root, Flatten, SliceAt;
    if parts != [] {
      var a, b := Flatten(parts[0], base), FlattenAll(parts[1..], base + Size(parts[0]));
      TwoSlices(nodes, base, a, b);
      SliceRepresents(nodes, parts[0], base);
      SlicesRepresent(nodes, parts[1..], base + Size(parts[0]));
    }
  }

  lemma {:induction false} TwoSlices(nodes: seq<Node>, base: nat, a: seq<Node>, b: seq<Node>)
    requires SliceAt(nodes, base, a + b)
    ensures SliceAt(nodes, base, a) && SliceAt(nodes, base + |a|, b)
  {
    var whole := nodes[base..base + |a + b|];
    assert nodes[base..base + |a|] == whole[..|a|] == a;
    assert nodes[base + |a|..base + |a + b|] == whole[|a|..] == b;
  }

  lemma {:induction false} ListIsInjective(a: Trees, b: Trees)
    requires List(a) == List(b)
    ensures a == b
  {
    if a.Trees? && b.Trees? {
      assert List(a)[1..] == List(a.tail) && List(b)[1..] == List(b.tail);
      assert List(a)[0] == a.head && List(b)[0] == b.head;
      ListIsInjective(a.tail, b.tail);
    }
  }

  /** Data and parts determine a tree. */
  lemma PartsDetermine(a: Tree, b: Tree)
    requires !a.NoTree? && !b.NoTree? && DataOf(a) == DataOf(b) && Parts(a) == Parts(b)
    ensures a == b
  {
    match a
    case ArrayTree(elems, length) =>
      assert Parts(a)[|Parts(a)| - 1] == length && Parts(a)[..|Parts(a)| - 1] == List(elems);
      assert Parts(b)[|Parts(b)| - 1] == b.length && Parts(b)[..|Parts(b)| - 1] == List(b.elems);
      ListIsInjective(elems, b.elems);
    case CallTree(f, args) =>
      assert Parts(a)[0] == f && Parts(a)[1..] == List(args);
      assert Parts(b)[0] == b.callee && Parts(b)[1..] == List(b.args);
      ListIsInjective(args, b.args);
    case BlockTree(stmts) => ListIsInjective(stmts, b.stmts);
    case UnaryTree(_, e) => assert e == Parts(b)[0];
    case BinaryTree(l, r) => assert l == Parts(b)[0] && r == Parts(b)[1];
    case RangeTree(l, _, r) => assert l == Parts(b)[0] && r == Parts(b)[1];
    case AssignTree(l, r) => assert l == Parts(b)[0] && r == Parts(b)[1];
    case TernaryTree(c, y, n) => assert c == Parts(b)[0] && y == Parts(b)[1] && n == Parts(b)[2];
    case IndexTree(l, r) => assert l == Parts(b)[0] && r == Parts(b)[1];
    case DotTree(l, _) => assert l == Parts(b)[0];
    case IfTree(c, y, n) => assert c == Parts(b)[0] && y == Parts(b)[1] && n == Parts(b)[2];
    case DeclTree(_, l, r) => assert l == Parts(b)[0] && r == Parts(b)[1];
    case FuncTree(l, _, r) => assert l == Parts(b)[0] && r == Parts(b)[1];
    case ReturnTree(e) => assert e == Parts(b)[0];
    case _ =>
  }

  /** No pool represents two trees at one pointer. */
  lemma {:induction false} RepresentsOnlyOne(nodes: seq<Node>, ref: Ref, a: Tree, b: Tree)
    requires Represents(nodes, ref, a) && Represents(nodes, ref, b)
    ensures a == b
    decreases Size(a)
  {
    hide DataOf, Parts, Size;
    if !a.NoTree? {
      SizeOfParts(a);
      forall i | 0 <= i < |Parts(a)| ensures Parts(a)[i] == Parts(b)[i] {
        PartSize(Parts(a), i);
        RepresentsOnlyOne(nodes, nodes[ref.value].children[i], Parts(a)[i], Parts(b)[i]);
      }
      assert Parts(a) == Parts(b);
      PartsDetermine(a, b);
    }
  }

  // ----- Node budget -----

  /** A derivation has no more nodes than tokens. */
  lemma {:induction false} NodesWithinTokens(s: Syn)
    ensures Size(Erase(s)) <= Len(s)
    decreases s
  {
    hide LeafTree, RuleOf, InfixTree, EraseAll, EraseItems, EraseElse, LenList, LenItems, LenElse, SizeAll;
    match s
    case Leaf(tok) => LeafSize(tok);
    case Unary(_, e) => NodesWithinTokens(e);
    case Group(e) => NodesWithinTokens(e);
    case Array(elems, _, length) => ListWithinTokens(elems); NodesWithinTokens(length); NoLength(length);
    case Infix(l, op, r) => NodesWithinTokens(l); NodesWithinTokens(r); InfixSize(Erase(l), op, Erase(r));
    case Ternary(c, y, n) => NodesWithinTokens(c); NodesWithinTokens(y); NodesWithinTokens(n);
    case Call(f, args) => NodesWithinTokens(f); ListWithinTokens(args);
    case Index(b, i) => NodesWithinTokens(b); NodesWithinTokens(i);
    case Dot(l, _) => NodesWithinTokens(l);
    case If(c, _, body, els) => NodesWithinTokens(c); ItemsWithinTokens(body); ElseWithinTokens(els);
    case _ =>
  }

  lemma LeafSize(t: Tok)
    ensures Size(LeafTree(t)) == 1
  {
  }

  lemma {:induction false} NoLength(s: Syn)
    ensures s.Missing? ==> Size(Erase(s)) == 0
  {
  }

  lemma {:induction false} InfixSize(l: Tree, op: TokenType, r: Tree)
    ensures Size(InfixTree(l, op, r)) == 1 + Size(l) + Size(r)
  {
    hide RuleOf, Size;
    PairSizes(l, r);
  }

  lemma {:induction false} PairSizes(l: Tree, r: Tree)
    ensures Size(BinaryTree(l, r)) == Size(AssignTree(l, r)) == 1 + Size(l) + Size(r)
    ensures forall inclusive :: Size(RangeTree(l, inclusive, r)) == 1 + Size(l) + Size(r)
  {
  }

  lemma {:induction false} ListWithinTokens(ss: Syns)
    ensures SizeAll(EraseAll(ss)) <= LenList(ss)
    decreases ss
  {
    hide Size, Erase, Len;
    if ss.Syns? {
      NodesWithinTokens(ss.head);
      ListWithinTokens(ss.tail);
    }
  }

  lemma {:induction false} ElseWithinTokens(e: Else)
    ensures Size(EraseElse(e)) <= LenElse(e)
    decreases e
  {
    hide Erase, Len, EraseItems, LenItems, SizeAll;
    match e
    case NoElse =>
    case ElseIf(_, _, nested) => NodesWithinTokens(nested);
    case ElseBlock(_, _, items) => ItemsWithinTokens(items);
  }

  lemma {:induction false} StmtWithinTokens(s: Stmt)
    ensures Size(EraseStmt(s)) <= LenStmt(s)
    decreases s
  {
    hide Erase, Len, EraseItems, LenItems, SizeAll, ParamList;
    match s
    case Expression(e) => NodesWithinTokens(e);
    case Return(e) => NodesWithinTokens(e);
    case Decl(_, _, init) => NodesWithinTokens(init); NoLength(init);
    case Func(_, _, _, block) => ItemsWithinTokens(block);
  }

  lemma {:induction false} ItemsWithinTokens(items: Items)
    ensures SizeAll(EraseItems(items)) <= LenItems(items)
    decreases items
  {
    hide Size, EraseStmt, LenStmt;
    match items
    case NoItems =>
    case Sep(_, rest) => ItemsWithinTokens(rest);
    case Item(stmt, rest) => StmtWithinTokens(stmt); ItemsWithinTokens(rest);
  }
}
